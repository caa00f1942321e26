/** Building the position automaton in place: `penter`, `first`, `follow` and `cfoll` of
    cmd/awk/b.c, working through the global `setvec` and `setcnt`.

    A parent pointer is modelled by the path from the node to the root, which is what the
    chain of parent pointers spells out.
 */
module AwkFollow {
  import opened AwkRegex
  import opened AwkGlushkov

  const MAXLIN: nat := 512

  // ---------- position lists ----------

  /** Members of `s` below `n`, largest first: the form of every position list. */
  function Descending(s: set<nat>, n: nat): seq<nat> {
    if n == 0 then []
    else if n - 1 in s then [n - 1] + Descending(s, n - 1)
    else Descending(s, n - 1)
  }

  function Elems(l: seq<nat>): set<nat> {
    set p | p in l
  }

  ghost predicate StrictlyDescending(l: seq<nat>) {
    forall i, j :: 0 <= i < j < |l| ==> l[i] > l[j]
  }

  lemma {:induction false} DescendingIs(s: set<nat>, n: nat)
    ensures StrictlyDescending(Descending(s, n))
    ensures forall p :: p in Descending(s, n) <==> p in s && p < n
  {
    if n > 0 {
      DescendingIs(s, n - 1);
      var l := Descending(s, n - 1);
      assert forall i :: 0 <= i < |l| ==> l[i] in l;
    }
  }

  lemma DescendingElems(s: set<nat>, n: nat)
    requires forall p :: p in s ==> p < n
    ensures Elems(Descending(s, n)) == s
  {
    DescendingIs(s, n);
  }

  /** Equal lists stand for equal sets, and only those. */
  lemma DescendingInjective(s: set<nat>, t: set<nat>, n: nat)
    requires forall p :: p in s + t ==> p < n
    ensures Descending(s, n) == Descending(t, n) <==> s == t
  {
    assert forall p :: p in s || p in t ==> p in s + t;
    DescendingElems(s, n);
    DescendingElems(t, n);
  }

  /** The largest member comes first; position 0, if present, comes last. */
  lemma {:induction false} DescendingWithZero(s: set<nat>, n: nat)
    requires n > 0 && 0 !in s
    ensures Descending({0} + s, n) == Descending(s, n) + [0]
  {
    if n > 1 {
      DescendingWithZero(s, n - 1);
      assert n - 1 in {0} + s <==> n - 1 in s;
    } else {
      assert Descending(s, 0) == [] && Descending({0} + s, 0) == [];
    }
  }

  // ---------- setvec and setcnt ----------

  class PosSet {
    const vec: array<int>
    var cnt: nat

    /** The marked positions. */
    ghost var marked: set<nat>

    constructor ()
      ensures vec.Length == MAXLIN && fresh(vec)
    {
      vec := new int[MAXLIN];
      cnt, marked := 0, {};
    }

    /** `vec` below `n` is the characteristic vector of `marked`, and `cnt` its size. */
    ghost predicate Valid(n: nat)
      reads this, vec
    {
      && n <= vec.Length
      && cnt == |marked|
      && (forall i :: 0 <= i < n ==> (vec[i] == 1 <==> i in marked))
      && forall i :: i in marked ==> i < n
    }

    method Clear(n: nat)
      requires n <= vec.Length
      modifies this, vec
      ensures Valid(n) && marked == {}
    {
      for i := 0 to n
        invariant forall j :: 0 <= j < i ==> vec[j] == 0
      {
        vec[i] := 0;
      }
      cnt, marked := 0, {};
    }

    method Mark(i: nat, ghost n: nat)
      requires Valid(n) && i < n
      modifies this, vec
      ensures Valid(n) && marked == old(marked) + {i}
    {
      if vec[i] != 1 {
        vec[i] := 1;
        cnt := cnt + 1;
        marked := marked + {i};
      } else {
        assert marked == marked + {i};
      }
    }

    /** The marked positions below `n`, largest first; `cnt` is the length of the list. */
    method Listing(n: nat) returns (l: seq<nat>)
      requires Valid(n)
      ensures l == Descending(marked, n) && |l| == cnt
    {
      l := [];
      var i := n;
      while i > 0
        invariant 0 <= i <= n
        invariant l + Descending(marked, i) == Descending(marked, n)
      {
        i := i - 1;
        if vec[i] == 1 {
          l := l + [i];
        }
      }
      DescendingLength(marked, n);
    }
  }

  lemma {:induction false} DescendingLength(s: set<nat>, n: nat)
    requires forall i :: i in s ==> i < n
    ensures |Descending(s, n)| == |s|
  {
    if n == 0 {
      assert s == {};
    } else if n - 1 in s {
      var t := s - {n - 1};
      DescendingLength(t, n - 1);
      DescendingIgnores(s, t, n - 1);
      assert s == t + {n - 1};
    } else {
      DescendingLength(s, n - 1);
    }
  }

  lemma {:induction false} DescendingIgnores(s: set<nat>, t: set<nat>, n: nat)
    requires forall i :: i < n ==> (i in s <==> i in t)
    ensures Descending(s, n) == Descending(t, n)
  {
    if n > 0 {
      DescendingIgnores(s, t, n - 1);
    }
  }

  // ---------- penter ----------

  datatype Numbering = TooBig | Entered(tree: Re, poscnt: nat)

  /** `penter`: number the leaves, refusing an expression with more than MAXLIN of them. */
  method Penter(p: Re, poscnt: nat) returns (res: Numbering)
    requires poscnt <= MAXLIN
    ensures res.Entered? <==> poscnt + LeafCount(p) <= MAXLIN
    ensures res.Entered? ==> res == Entered(Numbered(p, poscnt), poscnt + LeafCount(p))
    decreases p
  {
    match p
    case Leaf(k, _) =>
      if poscnt >= MAXLIN {
        return TooBig;
      }
      return Entered(Leaf(k, poscnt), poscnt + 1);
    case Star(x) =>
      res := Penter(x, poscnt);
      if res.Entered? { res := res.(tree := Star(res.tree)); }
    case Plus(x) =>
      res := Penter(x, poscnt);
      if res.Entered? { res := res.(tree := Plus(res.tree)); }
    case Quest(x) =>
      res := Penter(x, poscnt);
      if res.Entered? { res := res.(tree := Quest(res.tree)); }
    case Cat(l, m) =>
      res := Penter(l, poscnt);
      if res.Entered? {
        var right := Penter(m, res.poscnt);
        res := if right.Entered? then Entered(Cat(res.tree, right.tree), right.poscnt) else TooBig;
      }
    case Or(l, m) =>
      res := Penter(l, poscnt);
      if res.Entered? {
        var right := Penter(m, res.poscnt);
        res := if right.Entered? then Entered(Or(res.tree, right.tree), right.poscnt) else TooBig;
      }
  }

  // ---------- first ----------

  lemma Assoc(x: set<nat>, y: set<nat>, z: set<nat>)
    ensures (x + y) + z == x + (y + z)
  {
  }

  /** `first`: mark the initially active leaves; 0 when `p` matches the empty string. */
  method CollectFirst(ps: PosSet, p: Re, ghost n: nat) returns (b: int)
    requires ps.Valid(n) && Below(p, n)
    modifies ps, ps.vec
    ensures ps.Valid(n) && ps.marked == old(ps.marked) + First(p)
    ensures b == if Nullable(p) then 0 else 1
    decreases p
  {
    match p
    case Leaf(k, pos) =>
      ps.Mark(pos, n);
      if k == Ccl([]) {
        return 0;
      }
      return 1;
    case Plus(x) =>
      b := CollectFirst(ps, x, n);
    case Star(x) =>
      b := CollectFirst(ps, x, n);
      return 0;
    case Quest(x) =>
      b := CollectFirst(ps, x, n);
      return 0;
    case Cat(l, m) =>
      Assoc(ps.marked, First(l), First(m));
      b := CollectFirst(ps, l, n);
      if b == 0 {
        b := CollectFirst(ps, m, n);
      }
    case Or(l, m) =>
      Assoc(ps.marked, First(m), First(l));
      assert First(m) + First(l) == First(p);
      b := CollectFirst(ps, m, n);
      var b' := CollectFirst(ps, l, n);
      if b' == 0 {
        b := 0;
      }
  }

  // ---------- follow ----------

  /** Path from a node to the root. */
  datatype Path =
    | Root
    | UnderStar(up: Path)
    | UnderPlus(up: Path)
    | UnderQuest(up: Path)
    | CatLeft(sib: Re, up: Path)
    | CatRight(sib: Re, up: Path)
    | OrLeft(sib: Re, up: Path)
    | OrRight(sib: Re, up: Path)

  predicate IsFinal(v: Re) {
    v.Leaf? && v.kind == Final
  }

  /** `follow` started at `v` stops before it would climb off the root. */
  predicate Grounded(v: Re, up: Path)
    decreases up
  {
    IsFinal(v) ||
    match up
    case Root => false
    case UnderStar(u) => Grounded(Star(v), u)
    case UnderPlus(u) => Grounded(Plus(v), u)
    case UnderQuest(u) => Grounded(Quest(v), u)
    case CatLeft(sib, u) => Nullable(sib) ==> Grounded(Cat(v, sib), u)
    case CatRight(sib, u) => Grounded(Cat(sib, v), u)
    case OrLeft(sib, u) => Grounded(Or(v, sib), u)
    case OrRight(sib, u) => Grounded(Or(sib, v), u)
  }

  /** Leaves that can come right after `v` in its tree. */
  function After(v: Re, up: Path): set<nat>
    requires Grounded(v, up)
    decreases up
  {
    if IsFinal(v) then {}
    else match up
      case UnderStar(u) => First(v) + After(Star(v), u)
      case UnderPlus(u) => First(v) + After(Plus(v), u)
      case UnderQuest(u) => After(Quest(v), u)
      case CatLeft(sib, u) => First(sib) + (if Nullable(sib) then After(Cat(v, sib), u) else {})
      case CatRight(sib, u) => After(Cat(sib, v), u)
      case OrLeft(sib, u) => After(Or(v, sib), u)
      case OrRight(sib, u) => After(Or(sib, v), u)
  }

  /** All leaf indices met on the path lie below `n`. */
  predicate PathBelow(up: Path, n: nat) {
    match up
    case Root => true
    case UnderStar(u) => PathBelow(u, n)
    case UnderPlus(u) => PathBelow(u, n)
    case UnderQuest(u) => PathBelow(u, n)
    case CatLeft(sib, u) => PathBelow(u, n) && Below(sib, n)
    case CatRight(sib, u) => PathBelow(u, n) && Below(sib, n)
    case OrLeft(sib, u) => PathBelow(u, n) && Below(sib, n)
    case OrRight(sib, u) => PathBelow(u, n) && Below(sib, n)
  }

  /** `follow`: mark the leaves that can follow `v`, climbing towards the root. */
  method CollectFollow(ps: PosSet, v: Re, up: Path, ghost n: nat)
    requires ps.Valid(n) && Grounded(v, up)
    requires PathBelow(up, n) && Below(v, n)
    modifies ps, ps.vec
    ensures ps.Valid(n) && ps.marked == old(ps.marked) + After(v, up)
    decreases up, 0
  {
    if IsFinal(v) {
      return;
    }
    match up
    case UnderStar(u) =>
      Assoc(ps.marked, First(v), After(Star(v), u));
      var _ := CollectFirst(ps, v, n);
      CollectFollow(ps, Star(v), u, n);
    case UnderPlus(u) =>
      Assoc(ps.marked, First(v), After(Plus(v), u));
      var _ := CollectFirst(ps, v, n);
      CollectFollow(ps, Plus(v), u, n);
    case UnderQuest(u) =>
      CollectFollow(ps, Quest(v), u, n);
    case OrLeft(sib, u) =>
      CollectFollow(ps, Or(v, sib), u, n);
    case OrRight(sib, u) =>
      CollectFollow(ps, Or(sib, v), u, n);
    case CatLeft(sib, u) =>
      CollectRight(ps, v, sib, u, n);
    case CatRight(sib, u) =>
      CollectFollow(ps, Cat(sib, v), u, n);
  }

  /** The case of a left child of a concatenation: what its sibling begins with, and if
      that can be empty, what follows the pair. */
  method CollectRight(ps: PosSet, v: Re, sib: Re, u: Path, ghost n: nat)
    requires ps.Valid(n) && (Nullable(sib) ==> Grounded(Cat(v, sib), u))
    requires PathBelow(u, n) && Below(v, n) && Below(sib, n)
    modifies ps, ps.vec
    ensures ps.Valid(n)
    ensures ps.marked == old(ps.marked) + (First(sib) + (if Nullable(sib) then After(Cat(v, sib), u) else {}))
    decreases u, 1
  {
    Assoc(ps.marked, First(sib), if Nullable(sib) then After(Cat(v, sib), u) else {});
    var b := CollectFirst(ps, sib, n);
    if b == 0 {
      CollectFollow(ps, Cat(v, sib), u, n);
    }
  }

  // ---------- cfoll ----------

  /** One row of the automaton: leaf type and value, and its follow list. */
  datatype Row = Row(kind: Kind, lfollow: seq<nat>)

  function AutoOf(rows: seq<Row>): (a: Auto)
    ensures |a.kinds| == |a.follow| == |rows|
  {
    Auto(seq(|rows|, i requires 0 <= i < |rows| => rows[i].kind),
         seq(|rows|, i requires 0 <= i < |rows| => Elems(rows[i].lfollow)))
  }

  /** `Wired` looks only at the rows of the tree's own leaves. */
  lemma {:induction false} WiredFrame(a: Auto, b: Auto, r: Re, k: set<nat>)
    requires |a.kinds| == |a.follow| == |b.kinds| == |b.follow|
    requires forall p :: p in Leaves(r) && p < |a.kinds| ==> a.kinds[p] == b.kinds[p] && a.follow[p] == b.follow[p]
    requires Wired(a, r, k)
    ensures Wired(b, r, k)
  {
    match r
    case Leaf(_, _) =>
    case Star(x) => WiredFrame(a, b, x, First(x) + k);
    case Plus(x) => WiredFrame(a, b, x, First(x) + k);
    case Quest(x) => WiredFrame(a, b, x, k);
    case Cat(l, m) => WiredFrame(a, b, l, Onward(m, k)); WiredFrame(a, b, m, k);
    case Or(l, m) => WiredFrame(a, b, l, k); WiredFrame(a, b, m, k);
  }

  /** Every leaf below `v` can be followed without climbing off the root, and no two
      leaves below it share an index. */
  predicate Ready(v: Re, up: Path)
    decreases v
  {
    match v
    case Leaf(_, _) => Grounded(v, up)
    case Star(x) => !HasFinal(x) && Grounded(v, up) && Ready(x, UnderStar(up))
    case Plus(x) => !HasFinal(x) && Grounded(v, up) && Ready(x, UnderPlus(up))
    case Quest(x) => !HasFinal(x) && Grounded(v, up) && Ready(x, UnderQuest(up))
    case Cat(l, m) =>
      && Leaves(l) !! Leaves(m)
      && !HasFinal(l)
      && (HasFinal(m) ==> IsFinal(m) && up == Root)
      && Ready(l, CatLeft(m, up)) && Ready(m, CatRight(l, up))
    case Or(l, m) =>
      && Leaves(l) !! Leaves(m)
      && !HasFinal(v) && Grounded(v, up)
      && Ready(l, OrLeft(m, up)) && Ready(m, OrRight(l, up))
  }

  /** The set wired behind `v`; behind FINAL, and behind the root, there is nothing. */
  ghost function Behind(v: Re, up: Path): set<nat> {
    if Grounded(v, up) then After(v, up) else {}
  }

  /** Going down one level changes what lies behind exactly as the tree shape says. */
  lemma BehindChildren(v: Re, up: Path)
    requires Ready(v, up)
    ensures v.Star? ==> Behind(v.x, UnderStar(up)) == First(v.x) + Behind(v, up)
    ensures v.Plus? ==> Behind(v.x, UnderPlus(up)) == First(v.x) + Behind(v, up)
    ensures v.Quest? ==> Behind(v.x, UnderQuest(up)) == Behind(v, up)
    ensures v.Cat? ==> Behind(v.l, CatLeft(v.r, up)) == Onward(v.r, Behind(v, up))
    ensures v.Cat? ==> Behind(v.r, CatRight(v.l, up)) == Behind(v, up)
    ensures v.Or? ==> Behind(v.l, OrLeft(v.r, up)) == Behind(v, up) == Behind(v.r, OrRight(v.l, up))
  {
    match v
    case Leaf(_, _) =>
    case Star(x) => FinalIsFinal(x);
    case Plus(x) => FinalIsFinal(x);
    case Quest(x) => FinalIsFinal(x);
    case Cat(l, m) =>
      FinalIsFinal(l);
      if Nullable(m) { ReadyGrounded(l, CatLeft(m, up)); }
    case Or(l, m) => OrHasFinal(l, m); FinalIsFinal(l); FinalIsFinal(m);
  }

  lemma FinalIsFinal(v: Re)
    ensures IsFinal(v) ==> HasFinal(v)
  {
  }

  lemma OrHasFinal(l: Re, m: Re)
    ensures HasFinal(Or(l, m)) <==> HasFinal(l) || HasFinal(m)
  {
  }

  lemma ReadyGrounded(v: Re, up: Path)
    requires Ready(v, up) && up != Root
    ensures Grounded(v, up)
  {
    if v.Cat? {
      ReadyGrounded(v.r, CatRight(v.l, up));
    }
  }

  /** The rows in `rows` of the leaves of `v` are right, given what lies behind `v`. */
  predicate RowsWired(rows: seq<Row>, v: Re, k: set<nat>) {
    Wired(AutoOf(rows), v, k)
  }

  lemma RowsWiredFrame(rows: seq<Row>, rows': seq<Row>, v: Re, k: set<nat>)
    requires |rows| == |rows'| && RowsWired(rows, v, k)
    requires forall q :: 0 <= q < |rows| && q in Leaves(v) ==> rows[q] == rows'[q]
    ensures RowsWired(rows', v, k)
  {
    WiredFrame(AutoOf(rows), AutoOf(rows'), v, k);
  }

  /** Every row of a leaf in `u` holds a list in its one form. */
  ghost predicate ListsOn(rows: seq<Row>, u: set<nat>) {
    forall q :: 0 <= q < |rows| && q in u ==> ListForm(rows[q].lfollow, |rows|)
  }

  /** Only rows of leaves in `u` differ. */
  ghost predicate SameOff(rows: seq<Row>, rows': seq<Row>, u: set<nat>) {
    |rows| == |rows'| && forall q :: 0 <= q < |rows| && q !in u ==> rows[q] == rows'[q]
  }

  /** Leaf case of `cfoll`. */
  method EnterLeaf(rows: array<Row>, ps: PosSet, v: Re, up: Path)
    requires rows.Length <= ps.vec.Length && v.Leaf?
    requires Grounded(v, up) && PathBelow(up, rows.Length) && Below(v, rows.Length)
    modifies rows, ps, ps.vec
    ensures RowsWired(rows[..], v, After(v, up))
    ensures SameOff(old(rows[..]), rows[..], {v.pos}) && ListsOn(rows[..], {v.pos})
  {
    hide Elems, After, Grounded, PathBelow, StrictlyDescending;
    var n := rows.Length;
    ps.Clear(n);
    CollectFollow(ps, v, up, n);
    var l := ps.Listing(n);
    rows[v.pos] := Row(v.kind, l);
    DescendingElems(After(v, up), n);
    DescendingIs(After(v, up), n);
    assert ListForm(l, n);
  }

  /** `cfoll`: enter kind and follow list of every leaf of `v` into `rows`. */
  method EnterFollow(rows: array<Row>, ps: PosSet, v: Re, up: Path)
    requires rows.Length <= ps.vec.Length
    requires Ready(v, up) && PathBelow(up, rows.Length) && Below(v, rows.Length)
    modifies rows, ps, ps.vec
    ensures RowsWired(rows[..], v, Behind(v, up))
    ensures SameOff(old(rows[..]), rows[..], Leaves(v)) && ListsOn(rows[..], Leaves(v))
    decreases v
  {
    BehindChildren(v, up);
    match v
    case Leaf(k, pos) => EnterLeaf(rows, ps, v, up);
    case Star(x) => EnterFollow(rows, ps, x, UnderStar(up));
    case Plus(x) => EnterFollow(rows, ps, x, UnderPlus(up));
    case Quest(x) => EnterFollow(rows, ps, x, UnderQuest(up));
    case Cat(l, m) =>
      EnterFollow(rows, ps, l, CatLeft(m, up));
      ghost var mid := rows[..];
      EnterFollow(rows, ps, m, CatRight(l, up));
      RowsWiredFrame(mid, rows[..], l, Behind(l, CatLeft(m, up)));
    case Or(l, m) =>
      EnterFollow(rows, ps, l, OrLeft(m, up));
      ghost var mid := rows[..];
      EnterFollow(rows, ps, m, OrRight(l, up));
      RowsWiredFrame(mid, rows[..], l, Behind(l, OrLeft(m, up)));
  }

  lemma {:induction false} EmptyDescending(n: nat)
    ensures Descending({}, n) == []
  {
    if n > 0 {
      EmptyDescending(n - 1);
    }
  }

  lemma EmptyListForm(n: nat)
    ensures ListForm([], n)
  {
    DescendingIs({}, n);
    var e: seq<nat> := [];
    assert Elems(e) == {};
    EmptyDescending(n);
  }

  /** A list is stored in the one form that stands for its set. */
  ghost predicate ListForm(l: seq<nat>, n: nat) {
    l == Descending(Elems(l), n) && forall p :: p in l ==> p < n
  }

  /** In the tree that `mkdfa` builds, `follow` never climbs off the root. */
  lemma FollowStaysInTree(r: Re, b: nat, all: Re, fin: Re)
    requires !HasFinal(r) && all.Leaf? && all.kind == All && IsFinal(fin)
    requires all.pos < b <= b + LeafCount(r) <= fin.pos
    ensures Ready(Cat(Cat(Star(all), Numbered(r, b)), fin), Root)
  {
    NumberedKeeps(r, b);
    WrappedSpine(all, Numbered(r, b), fin);
    ReadyInside(r, b, CatRight(Star(all), CatLeft(fin, Root)));
  }

  lemma SpineBelow(all: Re, n: Re, fin: Re, b: nat)
    requires all.Leaf? && Below(all, b) && Below(n, b) && Below(fin, b)
    ensures Below(Cat(Cat(Star(all), n), fin), b)
  {
    assert Below(Cat(Star(all), n), b);
  }

  lemma WrappedSpine(all: Re, n: Re, fin: Re)
    requires all.Leaf? && all.kind == All && IsFinal(fin) && !HasFinal(n)
    requires all.pos !in Leaves(n) && fin.pos !in Leaves(n) && all.pos != fin.pos
    ensures Grounded(n, CatRight(Star(all), CatLeft(fin, Root)))
    ensures Ready(n, CatRight(Star(all), CatLeft(fin, Root))) ==>
            Ready(Cat(Cat(Star(all), n), fin), Root)
  {
    var star := Star(all);
    var inner := Cat(star, n);
    var up := CatLeft(fin, Root);
    assert Grounded(inner, up);
    assert Grounded(star, CatLeft(n, up));
    assert Grounded(all, UnderStar(CatLeft(n, up)));
    assert Ready(star, CatLeft(n, up));
    assert Leaves(star) == {all.pos};
    assert Leaves(inner) == {all.pos} + Leaves(n);
    assert !HasFinal(star) && !HasFinal(inner);
    if Ready(n, CatRight(star, up)) {
      assert Ready(inner, up);
      assert Leaves(fin) == {fin.pos};
    }
  }

  lemma NumberedApart(l: Re, m: Re, b: nat)
    ensures Leaves(Numbered(l, b)) !! Leaves(Numbered(m, b + LeafCount(l)))
    ensures HasFinal(Numbered(l, b)) == HasFinal(l)
    ensures HasFinal(Numbered(m, b + LeafCount(l))) == HasFinal(m)
  {
    NumberedKeeps(l, b);
    NumberedKeeps(m, b + LeafCount(l));
  }

  lemma {:induction false} ReadyInside(r: Re, b: nat, up: Path)
    requires !HasFinal(r) && Grounded(Numbered(r, b), up)
    ensures Ready(Numbered(r, b), up)
  {
    hide Nullable, LeafCount, Leaves;
    NumberedKeeps(r, b);
    match r
    case Leaf(_, _) =>
    case Star(x) => NumberedKeeps(x, b); ReadyInside(x, b, UnderStar(up));
    case Plus(x) => NumberedKeeps(x, b); ReadyInside(x, b, UnderPlus(up));
    case Quest(x) => NumberedKeeps(x, b); ReadyInside(x, b, UnderQuest(up));
    case Cat(l, m) =>
      var b' := b + LeafCount(l);
      NumberedApart(l, m, b);
      ReadyInside(l, b, CatLeft(Numbered(m, b'), up));
      ReadyInside(m, b', CatRight(Numbered(l, b), up));
    case Or(l, m) =>
      var b' := b + LeafCount(l);
      NumberedApart(l, m, b);
      ReadyInside(l, b, OrLeft(Numbered(m, b'), up));
      ReadyInside(m, b', OrRight(Numbered(l, b), up));
  }

  lemma WrappedBelow(r: Re)
    ensures Below(Wrapped(r), LeafCount(r) + 2)
  {
    NumberedBelow(r, 1, LeafCount(r) + 2);
    SpineBelow(Leaf(All, 0), Numbered(r, 1), Leaf(Final, LeafCount(r) + 1), LeafCount(r) + 2);
  }
}
