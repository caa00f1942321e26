/** Regular-expression trees of awk's matcher, the words they match, and the position
    sets read off a tree (cmd/awk/b.c).

    A word is a sequence of symbols. Bytes are 1..255, NUL ends the subject string and
    HAT stands in front of it, so that `^` and `$` are ordinary leaves.
 */
module AwkRegex {
  const NUL: nat := 0
  const HAT: nat := 256

  /** Leaf types, with the value that `lval` holds. */
  datatype Kind = Chr(c: nat) | Dot | All | Ccl(cs: seq<nat>) | Nccl(cs: seq<nat>) | Final

  /** Parse tree; `pos` is the leaf index that `penter` writes (0 before that). */
  datatype Re =
    | Leaf(kind: Kind, pos: nat)
    | Star(x: Re)
    | Plus(x: Re)
    | Quest(x: Re)
    | Cat(l: Re, r: Re)
    | Or(l: Re, r: Re)

  /** Does a leaf of this kind consume symbol `c`? */
  predicate Consumes(k: Kind, c: nat) {
    match k
    case Chr(v) => c == v
    case Dot => c != NUL && c != HAT
    case All => c != NUL
    case Ccl(cs) => c in cs
    case Nccl(cs) => c !in cs && c != NUL && c != HAT
    case Final => false
  }

  // ---------- the language of a tree ----------

  /** `w` is a word of `r`. The empty class, which `()` parses to, matches the empty word. */
  ghost predicate In(r: Re, w: seq<nat>)
    decreases r, 0
  {
    match r
    case Leaf(k, _) => if k == Ccl([]) then w == [] else |w| == 1 && Consumes(k, w[0])
    case Star(x) => InStar(x, w)
    case Plus(x) => exists i :: 0 <= i <= |w| && In(x, w[..i]) && InStar(x, w[i..])
    case Quest(x) => w == [] || In(x, w)
    case Cat(a, b) => exists i :: 0 <= i <= |w| && In(a, w[..i]) && In(b, w[i..])
    case Or(a, b) => In(a, w) || In(b, w)
  }

  /** `w` is a concatenation of non-empty words of `x`. */
  ghost predicate InStar(x: Re, w: seq<nat>)
    decreases x, |w| + 1
  {
    w == [] || exists i :: 1 <= i <= |w| && In(x, w[..i]) && InStar(x, w[i..])
  }

  /** `w` is n words of `r` one behind the other. */
  ghost predicate Repeated(r: Re, n: nat, w: seq<nat>) {
    if n == 0 then w == [] else exists i :: 0 <= i <= |w| && In(r, w[..i]) && Repeated(r, n - 1, w[i..])
  }

  lemma {:induction false} RepeatedOnce(r: Re, w: seq<nat>)
    ensures Repeated(r, 1, w) <==> In(r, w)
  {
    assert w[..|w|] == w && w[|w|..] == [];
    if i :| 0 <= i <= |w| && In(r, w[..i]) && Repeated(r, 0, w[i..]) { assert w[..i] == w; }
  }

  lemma {:induction false} RepeatedIsStar(r: Re, n: nat, w: seq<nat>)
    requires Repeated(r, n, w)
    ensures InStar(r, w)
  {
    if n > 0 && w != [] {
      var i :| 0 <= i <= |w| && In(r, w[..i]) && Repeated(r, n - 1, w[i..]);
      RepeatedIsStar(r, n - 1, w[i..]);
      if i == 0 { assert w[0..] == w; }
    }
  }

  lemma {:induction false} StarIsRepeated(r: Re, w: seq<nat>) returns (n: nat)
    requires InStar(r, w)
    ensures Repeated(r, n, w)
    decreases |w|
  {
    n := 0;
    if w != [] {
      var i :| 1 <= i <= |w| && In(r, w[..i]) && InStar(r, w[i..]);
      var m := StarIsRepeated(r, w[i..]);
      n := m + 1;
    }
  }

  lemma {:induction false} PlusIsRepeated(x: Re, w: seq<nat>) returns (n: nat)
    requires In(Plus(x), w)
    ensures n >= 1 && Repeated(x, n, w)
  {
    var i :| 0 <= i <= |w| && In(x, w[..i]) && InStar(x, w[i..]);
    var m := StarIsRepeated(x, w[i..]);
    n := m + 1;
  }

  lemma {:induction false} RepeatedIsPlus(x: Re, n: nat, w: seq<nat>)
    requires n >= 1 && Repeated(x, n, w)
    ensures In(Plus(x), w)
  {
    var i :| 0 <= i <= |w| && In(x, w[..i]) && Repeated(x, n - 1, w[i..]);
    RepeatedIsStar(x, n - 1, w[i..]);
  }

  /** A star is any number of words, a plus at least one, and a question mark at most one. */
  lemma {:induction false} SuffixesExactly(x: Re, w: seq<nat>)
    ensures In(Star(x), w) <==> exists n: nat :: Repeated(x, n, w)
    ensures In(Plus(x), w) <==> exists n: nat :: n >= 1 && Repeated(x, n, w)
    ensures In(Quest(x), w) <==> Repeated(x, 0, w) || Repeated(x, 1, w)
  {
    StarExactly(x, w);
    PlusExactly(x, w);
    RepeatedOnce(x, w);
  }

  lemma {:induction false} StarExactly(x: Re, w: seq<nat>)
    ensures In(Star(x), w) <==> exists n: nat :: Repeated(x, n, w)
  {
    if InStar(x, w) {
      var n := StarIsRepeated(x, w);
      assert Repeated(x, n, w);
    }
    forall n: nat | Repeated(x, n, w) ensures InStar(x, w) {
      RepeatedIsStar(x, n, w);
    }
  }

  lemma {:induction false} PlusExactly(x: Re, w: seq<nat>)
    ensures In(Plus(x), w) <==> exists n: nat :: n >= 1 && Repeated(x, n, w)
  {
    if In(Plus(x), w) {
      var n := PlusIsRepeated(x, w);
      assert n >= 1 && Repeated(x, n, w);
    }
    forall n: nat | n >= 1 && Repeated(x, n, w) ensures In(Plus(x), w) {
      RepeatedIsPlus(x, n, w);
    }
  }

  // ---------- nullability, first positions, numbering ----------

  predicate Nullable(r: Re) {
    match r
    case Leaf(k, _) => k == Ccl([])
    case Star(_) => true
    case Plus(x) => Nullable(x)
    case Quest(_) => true
    case Cat(a, b) => Nullable(a) && Nullable(b)
    case Or(a, b) => Nullable(a) || Nullable(b)
  }

  lemma {:induction false} NullableIsEmptyWord(r: Re)
    ensures Nullable(r) <==> In(r, [])
  {
    var e: seq<nat> := [];
    match r
    case Leaf(_, _) =>
    case Star(_) =>
    case Plus(x) =>
      NullableIsEmptyWord(x);
      assert e[..0] == e && e[0..] == e;
    case Quest(_) =>
    case Cat(a, b) =>
      NullableIsEmptyWord(a);
      NullableIsEmptyWord(b);
      assert e[..0] == e && e[0..] == e;
    case Or(a, b) =>
      NullableIsEmptyWord(a);
      NullableIsEmptyWord(b);
  }

  /** Leaves that can consume the first symbol of a word of `r`. */
  function First(r: Re): set<nat> {
    match r
    case Leaf(_, p) => {p}
    case Star(x) => First(x)
    case Plus(x) => First(x)
    case Quest(x) => First(x)
    case Cat(a, b) => if Nullable(a) then First(a) + First(b) else First(a)
    case Or(a, b) => First(a) + First(b)
  }

  function LeafCount(r: Re): (n: nat)
    ensures n > 0
  {
    match r
    case Leaf(_, _) => 1
    case Star(x) => LeafCount(x)
    case Plus(x) => LeafCount(x)
    case Quest(x) => LeafCount(x)
    case Cat(a, b) => LeafCount(a) + LeafCount(b)
    case Or(a, b) => LeafCount(a) + LeafCount(b)
  }

  /** The tree with its leaves numbered b, b + 1, ... from left to right. */
  function Numbered(r: Re, b: nat): Re {
    match r
    case Leaf(k, _) => Leaf(k, b)
    case Star(x) => Star(Numbered(x, b))
    case Plus(x) => Plus(Numbered(x, b))
    case Quest(x) => Quest(Numbered(x, b))
    case Cat(l, m) => Cat(Numbered(l, b), Numbered(m, b + LeafCount(l)))
    case Or(l, m) => Or(Numbered(l, b), Numbered(m, b + LeafCount(l)))
  }

  predicate HasFinal(r: Re) {
    match r
    case Leaf(k, _) => k == Final
    case Star(x) => HasFinal(x)
    case Plus(x) => HasFinal(x)
    case Quest(x) => HasFinal(x)
    case Cat(a, b) => HasFinal(a) || HasFinal(b)
    case Or(a, b) => HasFinal(a) || HasFinal(b)
  }

  /** Leaf indices occurring in a tree. */
  function Leaves(r: Re): set<nat> {
    match r
    case Leaf(_, p) => {p}
    case Star(x) => Leaves(x)
    case Plus(x) => Leaves(x)
    case Quest(x) => Leaves(x)
    case Cat(a, b) => Leaves(a) + Leaves(b)
    case Or(a, b) => Leaves(a) + Leaves(b)
  }

  /** Every leaf index is below `n`. */
  predicate Below(r: Re, n: nat) {
    match r
    case Leaf(_, p) => p < n
    case Star(x) => Below(x, n)
    case Plus(x) => Below(x, n)
    case Quest(x) => Below(x, n)
    case Cat(a, b) => Below(a, n) && Below(b, n)
    case Or(a, b) => Below(a, n) && Below(b, n)
  }

  lemma {:induction false} NumberedBelow(r: Re, b: nat, n: nat)
    requires b + LeafCount(r) <= n
    ensures Below(Numbered(r, b), n)
  {
    match r
    case Leaf(_, _) =>
    case Star(x) => NumberedBelow(x, b, n);
    case Plus(x) => NumberedBelow(x, b, n);
    case Quest(x) => NumberedBelow(x, b, n);
    case Cat(l, m) => NumberedBelow(l, b, n); NumberedBelow(m, b + LeafCount(l), n);
    case Or(l, m) => NumberedBelow(l, b, n); NumberedBelow(m, b + LeafCount(l), n);
  }

  lemma {:induction false} FirstAreLeaves(r: Re)
    ensures First(r) <= Leaves(r)
  {
    match r
    case Leaf(_, _) =>
    case Star(x) => FirstAreLeaves(x);
    case Plus(x) => FirstAreLeaves(x);
    case Quest(x) => FirstAreLeaves(x);
    case Cat(a, b) => FirstAreLeaves(a); FirstAreLeaves(b);
    case Or(a, b) => FirstAreLeaves(a); FirstAreLeaves(b);
  }

  /** Numbering keeps words, nullability and the absence of FINAL, and uses exactly the
      indices b .. b + LeafCount(r). */
  lemma {:induction false} NumberedKeeps(r: Re, b: nat)
    ensures LeafCount(Numbered(r, b)) == LeafCount(r)
    ensures Nullable(Numbered(r, b)) == Nullable(r)
    ensures HasFinal(Numbered(r, b)) == HasFinal(r)
    ensures forall p :: p in Leaves(Numbered(r, b)) <==> b <= p < b + LeafCount(r)
  {
    match r
    case Leaf(_, _) =>
    case Star(x) => NumberedKeeps(x, b);
    case Plus(x) => NumberedKeeps(x, b);
    case Quest(x) => NumberedKeeps(x, b);
    case Cat(l, m) => NumberedKeeps(l, b); NumberedKeeps(m, b + LeafCount(l));
    case Or(l, m) => NumberedKeeps(l, b); NumberedKeeps(m, b + LeafCount(l));
  }

  lemma {:induction false} NumberedSameWords(r: Re, b: nat, w: seq<nat>)
    ensures In(Numbered(r, b), w) <==> In(r, w)
    decreases r, 0
  {
    match r
    case Leaf(_, _) =>
    case Star(x) => NumberedSameStar(x, b, w);
    case Plus(x) =>
      forall i | 0 <= i <= |w|
        ensures In(Numbered(x, b), w[..i]) <==> In(x, w[..i])
        ensures InStar(Numbered(x, b), w[i..]) <==> InStar(x, w[i..])
      {
        NumberedSameWords(x, b, w[..i]);
        NumberedSameStar(x, b, w[i..]);
      }
    case Quest(x) => NumberedSameWords(x, b, w);
    case Cat(l, m) =>
      forall i | 0 <= i <= |w|
        ensures In(Numbered(l, b), w[..i]) <==> In(l, w[..i])
        ensures In(Numbered(m, b + LeafCount(l)), w[i..]) <==> In(m, w[i..])
      {
        NumberedSameWords(l, b, w[..i]);
        NumberedSameWords(m, b + LeafCount(l), w[i..]);
      }
    case Or(l, m) =>
      NumberedSameWords(l, b, w);
      NumberedSameWords(m, b + LeafCount(l), w);
  }

  lemma {:induction false} NumberedSameStar(x: Re, b: nat, w: seq<nat>)
    ensures InStar(Numbered(x, b), w) <==> InStar(x, w)
    decreases x, |w| + 1
  {
    forall i | 1 <= i <= |w|
      ensures In(Numbered(x, b), w[..i]) <==> In(x, w[..i])
      ensures InStar(Numbered(x, b), w[i..]) <==> InStar(x, w[i..])
    {
      NumberedSameWords(x, b, w[..i]);
      NumberedSameStar(x, b, w[i..]);
    }
  }
}
