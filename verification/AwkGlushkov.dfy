/** The position automaton of a regular-expression tree accepts exactly its words. */
module AwkGlushkov {
  import opened AwkRegex

  /** Leaf kinds and follow sets by position; the last position is the accepting one. */
  datatype Auto = Auto(kinds: seq<Kind>, follow: seq<set<nat>>) {
    predicate Valid() {
      && |kinds| == |follow| > 0
      && kinds[|kinds| - 1] == Final
    }

    function Accept(): nat
      requires Valid()
    {
      |kinds| - 1
    }
  }

  /** Positions that leaf `p` activates when the next symbol is `c`. */
  function Moves(a: Auto, p: nat, c: nat): set<nat>
    requires a.Valid()
  {
    if p < |a.kinds| && Consumes(a.kinds[p], c) then a.follow[p] else {}
  }

  /** What the leaves of `s` below `n` activate. */
  function StepBelow(a: Auto, s: set<nat>, c: nat, n: nat): set<nat>
    requires a.Valid()
  {
    if n == 0 then {}
    else if n - 1 in s then StepBelow(a, s, c, n - 1) + Moves(a, n - 1, c)
    else StepBelow(a, s, c, n - 1)
  }

  /** One step of plain set simulation on symbol `c`. */
  function Step(a: Auto, s: set<nat>, c: nat): set<nat>
    requires a.Valid()
  {
    StepBelow(a, s, c, |a.kinds|)
  }

  lemma {:induction false} StepBelowMember(a: Auto, s: set<nat>, c: nat, n: nat, q: nat)
    requires a.Valid()
    ensures q in StepBelow(a, s, c, n) <==> exists p :: p in s && p < n && q in Moves(a, p, c)
  {
    if n > 0 {
      StepBelowMember(a, s, c, n - 1, q);
    }
  }

  /** A position is activated exactly when some active leaf consumes `c` and leads to it. */
  lemma StepMember(a: Auto, s: set<nat>, c: nat, q: nat)
    requires a.Valid()
    ensures q in Step(a, s, c) <==> exists p :: p in s && q in Moves(a, p, c)
  {
    StepBelowMember(a, s, c, |a.kinds|, q);
  }

  lemma StepSingle(a: Auto, p: nat, c: nat)
    requires a.Valid()
    ensures Step(a, {p}, c) == Moves(a, p, c)
  {
    forall q
      ensures q in Step(a, {p}, c) <==> q in Moves(a, p, c)
    {
      StepMember(a, {p}, c, q);
      assert p in {p};
    }
  }

  lemma {:induction false} StepBelowUnion(a: Auto, s: set<nat>, t: set<nat>, c: nat, n: nat)
    requires a.Valid()
    ensures StepBelow(a, s + t, c, n) == StepBelow(a, s, c, n) + StepBelow(a, t, c, n)
  {
    if n > 0 {
      StepBelowUnion(a, s, t, c, n - 1);
    }
  }

  lemma StepUnion(a: Auto, s: set<nat>, t: set<nat>, c: nat)
    requires a.Valid()
    ensures Step(a, s + t, c) == Step(a, s, c) + Step(a, t, c)
  {
    StepBelowUnion(a, s, t, c, |a.kinds|);
  }

  lemma {:induction false} StepBelowWithin(a: Auto, s: set<nat>, c: nat, n: nat, u: set<nat>)
    requires a.Valid()
    requires forall p :: p in s ==> Moves(a, p, c) <= u
    ensures StepBelow(a, s, c, n) <= u
  {
    if n > 0 {
      StepBelowWithin(a, s, c, n - 1, u);
    }
  }

  lemma {:induction false} StepBelowBound(a: Auto, s: set<nat>, c: nat, n: nat, b: nat)
    requires a.Valid()
    requires forall p, q :: p in s && q in Moves(a, p, c) ==> q < b
    ensures forall q :: q in StepBelow(a, s, c, n) ==> q < b
  {
    if n > 0 {
      StepBelowBound(a, s, c, n - 1, b);
    }
  }

  function Run(a: Auto, s: set<nat>, w: seq<nat>): set<nat>
    requires a.Valid()
    decreases |w|
  {
    if w == [] then s else Run(a, Step(a, s, w[0]), w[1..])
  }

  predicate Accepts(a: Auto, s: set<nat>, w: seq<nat>)
    requires a.Valid()
  {
    a.Accept() in Run(a, s, w)
  }

  lemma {:induction false} RunConcat(a: Auto, s: set<nat>, u: seq<nat>, v: seq<nat>)
    requires a.Valid()
    ensures Run(a, s, u + v) == Run(a, Run(a, s, u), v)
    decreases |u|
  {
    if u == [] {
      assert u + v == v;
    } else {
      assert (u + v)[1..] == u[1..] + v;
      RunConcat(a, Step(a, s, u[0]), u[1..], v);
    }
  }

  lemma {:induction false} AcceptsUnion(a: Auto, s: set<nat>, t: set<nat>, w: seq<nat>)
    requires a.Valid()
    ensures Accepts(a, s + t, w) <==> Accepts(a, s, w) || Accepts(a, t, w)
    decreases |w|
  {
    if w != [] {
      StepUnion(a, s, t, w[0]);
      AcceptsUnion(a, Step(a, s, w[0]), Step(a, t, w[0]), w[1..]);
    }
  }

  lemma {:induction false} EmptyAcceptsNothing(a: Auto, w: seq<nat>)
    requires a.Valid()
    ensures Run(a, {}, w) == {}
    decreases |w|
  {
    if w != [] {
      StepBelowWithin(a, {}, w[0], |a.kinds|, {});
      assert Step(a, {}, w[0]) == {};
      EmptyAcceptsNothing(a, w[1..]);
    }
  }

  /** The table `a` holds, for every leaf of `r`, its kind and its follow set, when `k`
      is the set of leaves that can come right after the whole of `r`. */
  predicate Wired(a: Auto, r: Re, k: set<nat>)
    requires |a.kinds| == |a.follow|
  {
    match r
    case Leaf(kind, p) => p < |a.kinds| && a.kinds[p] == kind && a.follow[p] == k
    case Star(x) => Wired(a, x, First(x) + k)
    case Plus(x) => Wired(a, x, First(x) + k)
    case Quest(x) => Wired(a, x, k)
    case Cat(l, m) => Wired(a, l, Onward(m, k)) && Wired(a, m, k)
    case Or(l, m) => Wired(a, l, k) && Wired(a, m, k)
  }

  /** What is active in front of `r` when `k` is active behind it. */
  function Onward(r: Re, k: set<nat>): set<nat> {
    First(r) + (if Nullable(r) then k else {})
  }

  /** `w` splits into a non-empty word of `r` and a rest accepted from `k`. */
  ghost predicate Splits(a: Auto, r: Re, k: set<nat>, w: seq<nat>)
    requires a.Valid()
  {
    exists i :: 1 <= i <= |w| && In(r, w[..i]) && Accepts(a, k, w[i..])
  }

  lemma {:induction false} FirstSplits(a: Auto, r: Re, k: set<nat>, w: seq<nat>)
    requires a.Valid() && Wired(a, r, k) && !HasFinal(r)
    ensures Accepts(a, First(r), w) <==> Splits(a, r, k, w)
    decreases r, 1
  {
    match r
    case Leaf(_, _) => LeafSplits(a, r, k, w);
    case Star(x) =>
      StarSplits(a, x, k, w);
      assert forall i :: 1 <= i <= |w| ==> (In(r, w[..i]) <==> InStar(x, w[..i]));
    case Plus(x) =>
      StarSplits(a, x, k, w);
      PlusIsStar(x);
    case Quest(x) => FirstSplits(a, x, k, w);
    case Cat(l, m) => CatSplits(a, l, m, k, w);
    case Or(l, m) =>
      FirstSplits(a, l, k, w);
      FirstSplits(a, m, k, w);
      AcceptsUnion(a, First(l), First(m), w);
  }

  lemma LeafSplits(a: Auto, r: Re, k: set<nat>, w: seq<nat>)
    requires a.Valid() && r.Leaf? && Wired(a, r, k) && !HasFinal(r)
    ensures Accepts(a, First(r), w) <==> Splits(a, r, k, w)
  {
    if w == [] {
      assert a.kinds[r.pos] != Final;
    } else {
      StepSingle(a, r.pos, w[0]);
      if r.kind != Ccl([]) && Consumes(r.kind, w[0]) {
        assert In(r, w[..1]);
      } else {
        EmptyAcceptsNothing(a, w[1..]);
      }
    }
  }

  /** Every non-empty word of `x+` is a word of `x*` and conversely. */
  lemma PlusIsStar(x: Re)
    ensures forall w :: w != [] ==> (In(Plus(x), w) <==> InStar(x, w))
  {
    forall w: seq<nat> | w != []
      ensures In(Plus(x), w) <==> InStar(x, w)
    {
      if In(Plus(x), w) {
        var i :| 0 <= i <= |w| && In(x, w[..i]) && InStar(x, w[i..]);
        if i == 0 { assert w[0..] == w; }
      }
    }
  }

  lemma CatWord(l: Re, m: Re, u: seq<nat>, v: seq<nat>)
    requires In(l, u) && In(m, v)
    ensures In(Cat(l, m), u + v)
  {
    assert (u + v)[..|u|] == u && (u + v)[|u|..] == v;
  }

  lemma StarWord(x: Re, u: seq<nat>, v: seq<nat>)
    requires u != [] && In(x, u) && InStar(x, v)
    ensures InStar(x, u + v)
  {
    assert (u + v)[..|u|] == u && (u + v)[|u|..] == v;
  }

  lemma StarFirstPiece(x: Re, w: seq<nat>) returns (i: nat)
    requires w != [] && InStar(x, w)
    ensures 1 <= i <= |w| && In(x, w[..i]) && InStar(x, w[i..])
  {
    i :| 1 <= i <= |w| && In(x, w[..i]) && InStar(x, w[i..]);
  }

  /** A split into a piece of length i, a piece up to n, and a rest. */
  lemma ThreePieces(w: seq<nat>, i: nat, n: nat)
    requires i <= n <= |w|
    ensures w[..n] == w[..i] + w[i..][..n - i]
    ensures w[i..][n - i..] == w[n..]
    ensures w[..n][..i] == w[..i] && w[..n][i..] == w[i..][..n - i]
  {
  }

  lemma SplitAt(a: Auto, r: Re, k: set<nat>, w: seq<nat>, n: nat)
    requires a.Valid() && 1 <= n <= |w| && In(r, w[..n]) && Accepts(a, k, w[n..])
    ensures Splits(a, r, k, w)
  {
  }

  lemma {:induction false} StarSplits(a: Auto, x: Re, k: set<nat>, w: seq<nat>)
    requires a.Valid() && Wired(a, x, First(x) + k) && !HasFinal(x)
    ensures Accepts(a, First(x), w) <==> Splits(a, Star(x), k, w)
    decreases x, 2, |w|, 1
  {
    FirstSplits(a, x, First(x) + k, w);
    if Accepts(a, First(x), w) {
      StarSplitsForward(a, x, k, w);
    }
    if Splits(a, Star(x), k, w) {
      StarSplitsBackward(a, x, k, w);
    }
  }

  lemma {:induction false} StarSplitsForward(a: Auto, x: Re, k: set<nat>, w: seq<nat>)
    requires a.Valid() && Wired(a, x, First(x) + k) && !HasFinal(x)
    requires Splits(a, x, First(x) + k, w)
    ensures Splits(a, Star(x), k, w)
    decreases x, 2, |w|, 0
  {
    var i :| 1 <= i <= |w| && In(x, w[..i]) && Accepts(a, First(x) + k, w[i..]);
    AcceptsUnion(a, First(x), k, w[i..]);
    if Accepts(a, k, w[i..]) {
      StarSplitOne(a, x, k, w, i);
    } else {
      StarSplits(a, x, k, w[i..]);
      StarSplitMore(a, x, k, w, i);
    }
  }

  lemma StarSplitOne(a: Auto, x: Re, k: set<nat>, w: seq<nat>, i: nat)
    requires a.Valid() && 1 <= i <= |w| && In(x, w[..i]) && Accepts(a, k, w[i..])
    ensures Splits(a, Star(x), k, w)
  {
    StarWord(x, w[..i], []);
    assert w[..i] + [] == w[..i];
    SplitAt(a, Star(x), k, w, i);
  }

  lemma StarSplitMore(a: Auto, x: Re, k: set<nat>, w: seq<nat>, i: nat)
    requires a.Valid() && 1 <= i <= |w| && In(x, w[..i]) && Splits(a, Star(x), k, w[i..])
    ensures Splits(a, Star(x), k, w)
  {
    hide Accepts, InStar;
    var j :| 1 <= j <= |w[i..]| && In(Star(x), w[i..][..j]) && Accepts(a, k, w[i..][j..]);
    StarWord(x, w[..i], w[i..][..j]);
    ThreePieces(w, i, i + j);
    SplitAt(a, Star(x), k, w, i + j);
  }

  lemma {:induction false} StarSplitsBackward(a: Auto, x: Re, k: set<nat>, w: seq<nat>)
    requires a.Valid() && Wired(a, x, First(x) + k) && !HasFinal(x)
    requires Splits(a, Star(x), k, w)
    ensures Splits(a, x, First(x) + k, w)
    decreases x, 2, |w|, 0
  {
    var n :| 1 <= n <= |w| && In(Star(x), w[..n]) && Accepts(a, k, w[n..]);
    var i := StarFirstPiece(x, w[..n]);
    ThreePieces(w, i, n);
    AcceptsUnion(a, First(x), k, w[i..]);
    if i < n {
      StarSplits(a, x, k, w[i..]);
      SplitAt(a, Star(x), k, w[i..], n - i);
    }
    SplitAt(a, x, First(x) + k, w, i);
  }

  lemma {:induction false} CatSplits(a: Auto, l: Re, m: Re, k: set<nat>, w: seq<nat>)
    requires a.Valid() && Wired(a, Cat(l, m), k) && !HasFinal(Cat(l, m))
    ensures Accepts(a, First(Cat(l, m)), w) <==> Splits(a, Cat(l, m), k, w)
    decreases Cat(l, m), 0
  {
    AcceptsUnion(a, First(l), First(m), w);
    FirstSplits(a, l, Onward(m, k), w);
    FirstSplits(a, m, k, w);
    if Accepts(a, First(l), w) {
      CatSplitsLeft(a, l, m, k, w);
    }
    if Nullable(l) && Accepts(a, First(m), w) {
      CatSplitsRight(a, l, m, k, w);
    }
    if Splits(a, Cat(l, m), k, w) {
      CatSplitsBackward(a, l, m, k, w);
    }
  }

  lemma {:induction false} CatSplitsLeft(a: Auto, l: Re, m: Re, k: set<nat>, w: seq<nat>)
    requires a.Valid() && Wired(a, m, k) && !HasFinal(m) && Splits(a, l, Onward(m, k), w)
    ensures Splits(a, Cat(l, m), k, w)
    decreases m, 3
  {
    var i :| 1 <= i <= |w| && In(l, w[..i]) && Accepts(a, Onward(m, k), w[i..]);
    OnwardSplits(a, m, k, w[i..]);
    var j :| 0 <= j <= |w[i..]| && In(m, w[i..][..j]) && Accepts(a, k, w[i..][j..]);
    CatOfPieces(a, l, m, k, w, i, i + j);
  }

  lemma CatSplitsRight(a: Auto, l: Re, m: Re, k: set<nat>, w: seq<nat>)
    requires a.Valid() && Nullable(l) && Splits(a, m, k, w)
    ensures Splits(a, Cat(l, m), k, w)
  {
    NullableIsEmptyWord(l);
    var j :| 1 <= j <= |w| && In(m, w[..j]) && Accepts(a, k, w[j..]);
    assert w[..0] == [] && w[0..] == w;
    CatOfPieces(a, l, m, k, w, 0, j);
  }

  lemma {:induction false} CatSplitsBackward(a: Auto, l: Re, m: Re, k: set<nat>, w: seq<nat>)
    requires a.Valid() && Wired(a, m, k) && !HasFinal(m) && Splits(a, Cat(l, m), k, w)
    ensures Splits(a, l, Onward(m, k), w) || (Nullable(l) && Splits(a, m, k, w))
    decreases m, 3
  {
    var i, n := CatPieces(a, l, m, k, w);
    if i == 0 {
      NullableIsEmptyWord(l);
      assert w[..0] == [] && w[0..] == w;
      SplitAt(a, m, k, w, n);
    } else {
      OnwardSplits(a, m, k, w[i..]);
      SplitAt(a, l, Onward(m, k), w, i);
    }
  }

  lemma CatPieces(a: Auto, l: Re, m: Re, k: set<nat>, w: seq<nat>) returns (i: nat, n: nat)
    requires a.Valid() && Splits(a, Cat(l, m), k, w)
    ensures i <= n <= |w| && 1 <= n && In(l, w[..i])
    ensures In(m, w[i..][..n - i]) && Accepts(a, k, w[i..][n - i..])
  {
    n :| 1 <= n <= |w| && In(Cat(l, m), w[..n]) && Accepts(a, k, w[n..]);
    i :| 0 <= i <= |w[..n]| && In(l, w[..n][..i]) && In(m, w[..n][i..]);
    ThreePieces(w, i, n);
  }

  lemma CatOfPieces(a: Auto, l: Re, m: Re, k: set<nat>, w: seq<nat>, i: nat, n: nat)
    requires a.Valid() && i <= n <= |w| && 1 <= n
    requires In(l, w[..i]) && In(m, w[i..][..n - i]) && Accepts(a, k, w[i..][n - i..])
    ensures Splits(a, Cat(l, m), k, w)
  {
    CatWord(l, m, w[..i], w[i..][..n - i]);
    ThreePieces(w, i, n);
    SplitAt(a, Cat(l, m), k, w, n);
  }

  /** From the set in front of `r`, exactly the words of `r` followed by what `k` accepts. */
  lemma {:induction false} OnwardSplits(a: Auto, r: Re, k: set<nat>, w: seq<nat>)
    requires a.Valid() && Wired(a, r, k) && !HasFinal(r)
    ensures Accepts(a, Onward(r, k), w) <==>
            exists i :: 0 <= i <= |w| && In(r, w[..i]) && Accepts(a, k, w[i..])
    decreases r, 2
  {
    FirstSplits(a, r, k, w);
    NullableIsEmptyWord(r);
    AcceptsUnion(a, First(r), if Nullable(r) then k else {}, w);
    EmptyAcceptsNothing(a, w);
    assert w[..0] == [] && w[0..] == w;
    if Accepts(a, First(r), w) {
      var i :| 1 <= i <= |w| && In(r, w[..i]) && Accepts(a, k, w[i..]);
    }
    if i :| 0 <= i <= |w| && In(r, w[..i]) && Accepts(a, k, w[i..]) {
      if i == 0 {
        assert Nullable(r);
      } else {
        assert Splits(a, r, k, w);
      }
    }
  }

  // ---------- the automaton that mkdfa builds for a pattern ----------

  /** The pattern with a looping ALL in front and FINAL behind, leaves numbered from 0. */
  function Wrapped(r: Re): Re {
    Cat(Cat(Star(Leaf(All, 0)), Numbered(r, 1)), Leaf(Final, LeafCount(r) + 1))
  }

  predicate Compiled(a: Auto, r: Re) {
    && !HasFinal(r)
    && |a.kinds| == LeafCount(r) + 2
    && a.Valid()
    && Wired(a, Wrapped(r), {})
  }

  /** What is active where a match of `r` may begin inside the text. */
  function Restart(r: Re): set<nat> {
    Onward(Numbered(r, 1), {LeafCount(r) + 1})
  }

  /** Follow set of position 0: the looping ALL, or a beginning match. */
  function Initial(r: Re): set<nat> {
    {0} + Restart(r)
  }

  /** What is active in front of the text: `^` may already have consumed HAT. */
  function Start(a: Auto, r: Re): set<nat>
    requires a.Valid()
  {
    Restart(r) + Step(a, Restart(r), HAT)
  }

  /** `Wrapped` is what numbering the whole tree from 0 gives. */
  lemma WrappedIsNumbered(r: Re, all: Re, final: Re, b: nat)
    requires b == 0 && all.Leaf? && all.kind == All && final.Leaf? && final.kind == Final
    ensures Numbered(Cat(Cat(Star(all), r), final), b) == Wrapped(r)
    ensures LeafCount(Cat(Cat(Star(all), r), final)) == LeafCount(r) + 2
  {
    assert LeafCount(Star(all)) == 1;
    assert LeafCount(Cat(Star(all), r)) == 1 + LeafCount(r);
    assert Numbered(Star(all), b) == Star(Leaf(All, 0));
    assert Numbered(Cat(Star(all), r), b) == Cat(Star(Leaf(All, 0)), Numbered(r, 1));
  }

  lemma CompiledParts(a: Auto, r: Re)
    requires Compiled(a, r)
    ensures a.Accept() == LeafCount(r) + 1
    ensures a.kinds[0] == All && a.follow[0] == Initial(r)
    ensures Wired(a, Numbered(r, 1), {a.Accept()})
    ensures !HasFinal(Numbered(r, 1)) && Nullable(Numbered(r, 1)) == Nullable(r)
    ensures a.Accept() in Restart(r) <==> Nullable(r)
    ensures forall p :: p in Restart(r) ==> 0 < p <= a.Accept()
  {
    var n := Numbered(r, 1);
    NumberedKeeps(r, 1);
    FirstAreLeaves(n);
    var all := Leaf(All, 0);
    var fin := Leaf(Final, LeafCount(r) + 1);
    assert Onward(fin, {}) == {a.Accept()};
    assert Wired(a, Cat(Star(all), n), {a.Accept()});
    assert Wired(a, Star(all), Restart(r));
    assert Wired(a, all, First(all) + Restart(r));
    assert First(all) + Restart(r) == Initial(r);
  }

  /** FINAL consumes nothing, so from the accept position only the empty word is accepted. */
  lemma AcceptsFromFinal(a: Auto, w: seq<nat>)
    requires a.Valid()
    ensures Accepts(a, {a.Accept()}, w) <==> w == []
  {
    if w != [] {
      StepSingle(a, a.Accept(), w[0]);
      EmptyAcceptsNothing(a, w[1..]);
    }
  }

  /** Inside the text the automaton accepts exactly the words of the pattern. */
  lemma AcceptsRestart(a: Auto, r: Re, w: seq<nat>)
    requires Compiled(a, r)
    ensures Accepts(a, Restart(r), w) <==> In(r, w)
  {
    CompiledParts(a, r);
    var n := Numbered(r, 1);
    OnwardSplits(a, n, {a.Accept()}, w);
    NumberedSameWords(r, 1, w);
    forall i | 0 <= i <= |w|
      ensures Accepts(a, {a.Accept()}, w[i..]) <==> i == |w|
    {
      AcceptsFromFinal(a, w[i..]);
    }
    assert w[..|w|] == w;
  }

  /** In front of the text it also accepts what follows a HAT in a word of the pattern. */
  lemma AcceptsStart(a: Auto, r: Re, w: seq<nat>)
    requires Compiled(a, r)
    ensures Accepts(a, Start(a, r), w) <==> In(r, w) || In(r, [HAT] + w)
  {
    AcceptsUnion(a, Restart(r), Step(a, Restart(r), HAT), w);
    AcceptsRestart(a, r, w);
    AcceptsRestart(a, r, [HAT] + w);
    assert ([HAT] + w)[1..] == w;
  }

  /** From follow(0) it accepts a word of the pattern behind any NUL-free prefix. */
  lemma {:induction false} AcceptsInitial(a: Auto, r: Re, w: seq<nat>)
    requires Compiled(a, r)
    ensures Accepts(a, Initial(r), w) <==> FoundIn(r, w)
    decreases |w|
  {
    CompiledParts(a, r);
    AcceptsUnion(a, {0}, Restart(r), w);
    AcceptsRestart(a, r, w);
    SuffixInUnfold(v => In(r, v), w);
    if w == [] {
      assert Run(a, {0}, w) == {0};
    } else {
      AcceptsInitial(a, r, w[1..]);
      EmptyAcceptsNothing(a, w[1..]);
      StepZero(a, r, w[0]);
    }
  }

  /** A word of `r` ends `w`, behind a prefix without NUL. */
  ghost predicate FoundIn(r: Re, w: seq<nat>) {
    SuffixIn(v => In(r, v), w)
  }

  ghost predicate SuffixIn(good: seq<nat> -> bool, w: seq<nat>) {
    exists i :: 0 <= i <= |w| && NUL !in w[..i] && good(w[i..])
  }

  lemma SuffixInUnfold(good: seq<nat> -> bool, w: seq<nat>)
    ensures SuffixIn(good, w) <==> good(w) || (w != [] && w[0] != NUL && SuffixIn(good, w[1..]))
  {
    assert w[0..] == w;
    if good(w) {
      assert NUL !in w[..0];
    }
    if w != [] && w[0] != NUL && SuffixIn(good, w[1..]) {
      var i :| 0 <= i <= |w[1..]| && NUL !in w[1..][..i] && good(w[1..][i..]);
      assert w[..i + 1] == [w[0]] + w[1..][..i] && w[i + 1..] == w[1..][i..];
    }
    if SuffixIn(good, w) {
      var i :| 0 <= i <= |w| && NUL !in w[..i] && good(w[i..]);
      if i > 0 {
        assert w[..i] == [w[0]] + w[1..][..i - 1];
        assert w[0] in w[..i];
        assert w[1..][i - 1..] == w[i..];
      }
    }
  }

  /** Position 0 stays active under everything but NUL. */
  lemma StepZero(a: Auto, r: Re, c: nat)
    requires Compiled(a, r)
    ensures Step(a, {0}, c) == if c != NUL then Initial(r) else {}
  {
    CompiledParts(a, r);
    StepSingle(a, 0, c);
  }

  lemma StepWithLoop(a: Auto, rest: set<nat>, c: nat)
    requires a.Valid() && Step(a, {0}, c) == {0} + rest
    ensures Step(a, {0} + rest, c) == {0} + (rest + Step(a, rest, c))
  {
    StepUnion(a, {0}, rest, c);
  }

  /** Consuming HAT from follow(0) leaves position 0 active and starts a match in front of
      the text. */
  lemma StepHat(a: Auto, r: Re)
    requires Compiled(a, r)
    ensures Step(a, Initial(r), HAT) == {0} + Start(a, r)
    ensures forall p :: p in Start(a, r) ==> 0 < p <= a.Accept()
  {
    StepZero(a, r, HAT);
    StepWithLoop(a, Restart(r), HAT);
    StepFromRestart(a, r, HAT);
    CompiledParts(a, r);
  }

  lemma StepFromRestart(a: Auto, r: Re, c: nat)
    requires Compiled(a, r)
    ensures forall p :: p in Step(a, Restart(r), c) ==> 0 < p <= a.Accept()
  {
    CompiledParts(a, r);
    var n := Numbered(r, 1);
    NumberedKeeps(r, 1);
    FollowStaysInside(a, n, {a.Accept()}, Leaves(n) + {a.Accept()});
    FirstAreLeaves(n);
    StepBelowWithin(a, Restart(r), c, |a.kinds|, Leaves(n) + {a.Accept()});
  }

  /** Follow sets of the leaves of `r` stay within `r` and what may follow it. */
  lemma {:induction false} FollowStaysInside(a: Auto, r: Re, k: set<nat>, u: set<nat>)
    requires |a.kinds| == |a.follow| && Wired(a, r, k)
    requires k <= u && Leaves(r) <= u
    ensures forall p :: p in Leaves(r) ==> p < |a.kinds| && a.follow[p] <= u
  {
    FirstAreLeaves(r);
    match r
    case Leaf(_, _) =>
    case Star(x) => FollowStaysInside(a, x, First(x) + k, u);
    case Plus(x) => FollowStaysInside(a, x, First(x) + k, u);
    case Quest(x) => FollowStaysInside(a, x, k, u);
    case Cat(l, m) =>
      FirstAreLeaves(m);
      FollowStaysInside(a, l, Onward(m, k), u);
      FollowStaysInside(a, m, k, u);
    case Or(l, m) =>
      FollowStaysInside(a, l, k, u);
      FollowStaysInside(a, m, k, u);
  }
}
