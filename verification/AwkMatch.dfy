/** `match` and `pmatch` (cmd/awk/b.c) as functions of the table and the text, and what they
    find: whatever the table holds, the functions say what the program returns, and as long as
    the table was not cleared while leaving state 2 that is what the expression says.
 */
module AwkMatch {
  import opened AwkRegex
  import opened AwkGlushkov
  import opened AwkFollow
  import opened AwkTable

  // ---------- the two searches ----------

  predicate Bytes(t: seq<nat>) {
    forall i :: 0 <= i < |t| ==> t[i] < BYTES
  }

  /** A subject string: bytes other than NUL. */
  predicate Text(str: seq<nat>) {
    forall c :: c in str ==> 0 < c < BYTES
  }

  /** The table and the state that a search begins with. */
  function Started(re: seq<Row>, anchor: bool, d: Table): (Table, nat)
    requires AutoOf(re).Valid() && |d.posns| >= 2 && |d.rows| >= 2
  {
    if d.reset then var e := MadeInit(re, anchor, d); (e, |e.posns| - 1) else (d, d.initstat)
  }

  /** The loop of `match` from symbol k of `t` on. */
  ghost function MatchFrom(re: seq<Row>, d: Table, s: nat, t: seq<nat>, k: nat): (r: (Table, bool))
    requires GoodRows(re) && Good(re, d) && 1 <= s < |d.posns| && Bytes(t) && k <= |t|
    ensures Later(re, d, r.0)
    decreases |t| - k
  {
    LaterSelf(re, d);
    if k == |t| then (d, false)
    else
      MoveLands(re, d, s, t[k]);
      var m := Move(re, d, s, t[k]);
      if Out(re, m.0, m.1) then (m.0, true)
      else
        var r := MatchFrom(re, m.0, m.1, t, k + 1);
        LaterTwice(re, d, m.0, r.0);
        r
  }

  /** The inner loop of `pmatch` from symbol q of `t` on, n being the last accepting length. */
  ghost function ScanFrom(re: seq<Row>, d: Table, s: nat, t: seq<nat>, q: nat, n: int): (r: (Table, int))
    requires GoodRows(re) && Good(re, d) && 1 <= s < |d.posns| && Bytes(t) && q <= |t| && -1 <= n < q && n < |t|
    ensures Later(re, d, r.0) && -1 <= r.1 < |t|
    decreases |t| - q
  {
    LaterSelf(re, d);
    if q == |t| then (d, if Out(re, d, s) then q - 1 else n)
    else
      var n' := if Out(re, d, s) then q else n;
      MoveLands(re, d, s, t[q]);
      var m := Move(re, d, s, t[q]);
      if m.1 == 1 then (m.0, n')
      else
        var r := ScanFrom(re, m.0, m.1, t, q + 1, n');
        LaterTwice(re, d, m.0, r.0);
        r
  }

  /** After an unsuccessful attempt with a cleared table: state 2 again holds what is active
      inside the text. */
  function Rebuilt(d: Table): Table
    requires |d.posns| >= 2 && |d.rows| >= 2
  {
    Table([d.posns[0], d.posns[1], d.posns[0]], d.rows[..2] + [Blank()], 2, d.reset, d.clears, d.bad)
  }

  datatype Search = Search(table: Table, found: bool, b: nat, n: int)

  /** The rest of a subject with its NUL. */
  function Rest(str: seq<nat>, p: nat): (t: seq<nat>)
    requires Text(str) && p <= |str|
    ensures Bytes(t) && |t| == |str| - p + 1
  {
    assert forall i :: p <= i < |str| ==> str[i] in str;
    str[p..] + [NUL]
  }

  /** The outer loop of `pmatch` from offset p on. */
  ghost function SearchFrom(re: seq<Row>, d: Table, s: nat, str: seq<nat>, p: nat): (r: Search)
    requires GoodRows(re) && Good(re, d) && ListForm(d.posns[0], |re|) && 1 <= s < |d.posns| && Text(str) && p <= |str|
    ensures Good(re, r.table) && ListForm(r.table.posns[0], |re|)
    decreases |str| - p
  {
    var sc := ScanFrom(re, d, s, Rest(str, p), 0, -1);
    if sc.1 >= 0 then Search(sc.0, true, p, sc.1)
    else
      var e := if sc.0.reset then Rebuilt(sc.0) else sc.0;
      if p == |str| then Search(e, false, 0, -1) else SearchFrom(re, e, 2, str, p + 1)
  }

  // ---------- the sets that a search begins with ----------

  ghost predicate Built(re: seq<Row>, r: Re) {
    GoodRows(re) && Compiled(AutoOf(re), r)
  }

  function List(re: seq<Row>, s: set<nat>): seq<nat> {
    Descending(s, |re|)
  }

  /** What is active where a match may begin inside the text; an unanchored search keeps
      position 0. */
  function Inside(r: Re, anchor: bool): set<nat> {
    if anchor then Restart(r) else {0} + Restart(r)
  }

  /** What is active in front of the text, where HAT may have been consumed. */
  function Front(re: seq<Row>, r: Re, anchor: bool): set<nat>
    requires AutoOf(re).Valid()
  {
    if anchor then Start(AutoOf(re), r) else {0} + Start(AutoOf(re), r)
  }

  /** The state that `makeinit` ends in: 2 when HAT makes no difference. */
  function BeginState(re: seq<Row>, r: Re): nat
    requires AutoOf(re).Valid()
  {
    if Start(AutoOf(re), r) == Restart(r) then 2 else 3
  }

  lemma TrimLast(l: seq<nat>, x: nat, y: nat)
    requires x != y
    ensures (l + [x])[..|l + [x]| - 1] == l
    ensures y in l + [x] <==> y in l
  {
  }

  lemma {:induction false} SomeFirst(r: Re)
    ensures First(r) != {}
  {
    match r
    case Leaf(_, p) => assert p in First(r);
    case Star(x) => SomeFirst(x);
    case Plus(x) => SomeFirst(x);
    case Quest(x) => SomeFirst(x);
    case Cat(a, b) => SomeFirst(a);
    case Or(a, b) => SomeFirst(a);
  }

  /** A list with position 0 has it in last place. */
  lemma ListWithZero(re: seq<Row>, s: set<nat>)
    requires re != [] && forall p :: p in s ==> 0 < p < |re|
    ensures List(re, {0} + s) == List(re, s) + [0]
    ensures ListForm(List(re, {0} + s), |re|) && ListForm(List(re, s), |re|)
    ensures (List(re, s) == [] <==> s == {}) && 0 !in List(re, s)
  {
    DescendingWithZero(s, |re|);
    DescendingElems(s, |re|);
    DescendingElems({0} + s, |re|);
    DescendingIs(s, |re|);
    DescendingIs({0} + s, |re|);
    var l := List(re, s);
    assert l != [] ==> l[0] in l;
    if p :| p in s { assert p in l; }
  }

  /** What `makeinit` starts from. */
  lemma BuiltParts(re: seq<Row>, r: Re)
    requires Built(re, r)
    ensures |re| == LeafCount(r) + 2
    ensures forall p :: p in Restart(r) || p in Start(AutoOf(re), r) ==> 0 < p < |re|
    ensures Restart(r) != {} && Restart(r) <= Start(AutoOf(re), r)
    ensures re[0].lfollow == List(re, {0} + Restart(r)) == List(re, Restart(r)) + [0]
    ensures Next(re, re[0].lfollow, HAT) == List(re, {0} + Start(AutoOf(re), r)) == List(re, Start(AutoOf(re), r)) + [0]
  {
    var a := AutoOf(re);
    CompiledParts(a, r);
    StepHat(a, r);
    NextIsStep(re, Initial(r), HAT);
    assert ListForm(re[0].lfollow, |re|);
    ListWithZero(re, Restart(r));
    ListWithZero(re, Start(a, r));
    SomeFirst(Numbered(r, 1));
  }

  // ---------- between two calls ----------

  /** States 2 and `BeginState` hold what `makeinit` put there, and the table is sound. */
  ghost predicate Fit(re: seq<Row>, r: Re, anchor: bool, d: Table)
    requires AutoOf(re).Valid() && Good(re, d)
  {
    && Sound(re, d)
    && BeginState(re, r) < |d.posns|
    && d.posns[2] == List(re, Inside(r, anchor))
    && d.posns[BeginState(re, r)] == List(re, Front(re, r, anchor))
  }

  /** Either the table is to be made anew, or it is fit. */
  ghost predicate Usable(re: seq<Row>, r: Re, anchor: bool, d: Table) {
    && Built(re, r) && Good(re, d)
    && (d.initstat == 2 || d.initstat == BeginState(re, r))
    && (anchor ==> d.posns[0] == List(re, Restart(r)))
    && (!d.reset ==> Fit(re, r, anchor, d))
  }

  lemma LaterUsable(re: seq<Row>, r: Re, anchor: bool, d: Table, e: Table)
    requires Usable(re, r, anchor, d) && Later(re, d, e)
    ensures Usable(re, r, anchor, e)
  {
  }

  lemma {:induction false} BlankSound(re: seq<Row>, d: Table)
    requires GoodRows(re) && Good(re, d)
    requires forall s, c :: 2 <= s < |d.posns| && 0 <= c < BYTES ==> d.rows[s][c] == 0
    ensures Sound(re, d)
  {
    forall c | 0 <= c < BYTES && d.rows[1][c] != 0 ensures d.posns[d.rows[1][c]] == Next(re, d.posns[1], c) {
      DeadStays(re, c);
    }
  }

  lemma {:induction false} BeginLists(re: seq<Row>, r: Re, anchor: bool)
    requires Built(re, r)
    ensures var l, h := re[0].lfollow, Next(re, re[0].lfollow, HAT);
      && (h == l <==> BeginState(re, r) == 2)
      && LeaveOut(anchor, l) == List(re, Inside(r, anchor)) && ListForm(List(re, Inside(r, anchor)), |re|)
      && LeaveOut(anchor, h) == List(re, Front(re, r, anchor)) && ListForm(List(re, Front(re, r, anchor)), |re|)
  {
    BuiltParts(re, r);
    var restart, start := Restart(r), Start(AutoOf(re), r);
    ListWithZero(re, restart);
    ListWithZero(re, start);
    TrimLast(List(re, restart), 0, 1);
    TrimLast(List(re, start), 0, 1);
    DescendingInjective(start, restart, |re|);
  }

  /** `makeinit` makes the table fit. */
  lemma {:induction false} MadeInitFit(re: seq<Row>, r: Re, anchor: bool, d: Table)
    requires Built(re, r) && Good(re, d)
    ensures var e := MadeInit(re, anchor, d);
      && Good(re, e) && Fit(re, r, anchor, e) && |e.posns| == BeginState(re, r) + 1
      && (anchor ==> e.posns[0] == List(re, Restart(r)))
  {
    hide Next, List, Restart, Start, ListForm, Compiled;
    BeginLists(re, r, anchor);
    var e := MadeInit(re, anchor, d);
    BlankSound(re, e);
  }

  /** Where a search begins. */
  lemma StartedAt(re: seq<Row>, r: Re, anchor: bool, d: Table)
    requires Usable(re, r, anchor, d)
    ensures var st := Started(re, anchor, d);
      && Usable(re, r, anchor, st.0) && !st.0.reset && Fit(re, r, anchor, st.0) && 2 <= st.1 < |st.0.posns|
      && (d.reset || d.initstat == BeginState(re, r) ==> st.1 == BeginState(re, r)) && (!d.reset ==> st.1 == d.initstat)
      && st.0.initstat == d.initstat && st.0.clears == d.clears && st.0.bad == d.bad
  {
    if d.reset { MadeInitFit(re, r, anchor, d); }
  }

  // ---------- match ----------

  ghost function Matched(re: seq<Row>, r: Re, d: Table, str: seq<nat>): (res: (Table, bool))
    requires Usable(re, r, false, d) && Text(str)
    ensures Usable(re, r, false, res.0)
  {
    StartedAt(re, r, false, d);
    var st := Started(re, false, d);
    if Out(re, st.0, st.1) then (st.0, true)
    else
      var res := MatchFrom(re, st.0, st.1, Rest(str, 0), 0);
      LaterUsable(re, r, false, st.0, res.0);
      res
  }

  /** The state stands for a set. */
  ghost predicate At(re: seq<Row>, d: Table, s: nat, cur: set<nat>)
    requires AutoOf(re).Valid() && Good(re, d) && 1 <= s < |d.posns|
  {
    Sound(re, d) && d.posns[s] == List(re, cur) && BelowAll(cur, |re|)
  }

  lemma AtOut(re: seq<Row>, d: Table, s: nat, cur: set<nat>)
    requires GoodRows(re) && Good(re, d) && 1 <= s < |d.posns| && At(re, d, s, cur)
    ensures Out(re, d, s) <==> AutoOf(re).Accept() in cur
  {
    DescendingIs(cur, |re|);
  }

  /** A move in a sound table is a step of the sets. */
  lemma {:induction false} MoveAt(re: seq<Row>, d: Table, s: nat, begin: set<nat>, t: seq<nat>, k: nat)
    requires GoodRows(re) && Good(re, d) && 1 <= s < |d.posns| && k < |t| && t[k] < BYTES
    requires At(re, d, s, Run(AutoOf(re), begin, t[..k]))
    ensures var m := Move(re, d, s, t[k]);
      && Later(re, d, m.0)
      && (m.0.bad == d.bad ==> At(re, m.0, m.1, Run(AutoOf(re), begin, t[..k + 1])))
      && (Out(re, m.0, m.1) <==> Accepts(AutoOf(re), begin, t[..k + 1]))
  {
    var cur := Run(AutoOf(re), begin, t[..k]);
    MoveLands(re, d, s, t[k]);
    NextIsStep(re, cur, t[k]);
    RunExtend(AutoOf(re), begin, t, k);
    DescendingIs(Step(AutoOf(re), cur, t[k]), |re|);
  }

  lemma {:induction false} MatchFromRight(re: seq<Row>, d: Table, s: nat, t: seq<nat>, k: nat, begin: set<nat>)
    requires GoodRows(re) && Good(re, d) && 1 <= s < |d.posns| && Bytes(t) && k <= |t|
    requires At(re, d, s, Run(AutoOf(re), begin, t[..k]))
    requires forall j :: 0 <= j <= k ==> !Accepts(AutoOf(re), begin, t[..j])
    ensures var res := MatchFrom(re, d, s, t, k);
      res.0.bad == d.bad ==> (res.1 <==> exists j :: 0 <= j <= |t| && Accepts(AutoOf(re), begin, t[..j]))
    decreases |t| - k
  {
    if k < |t| {
      MoveAt(re, d, s, begin, t, k);
      var m := Move(re, d, s, t[k]);
      if !Out(re, m.0, m.1) && m.0.bad == d.bad {
        MatchFromRight(re, m.0, m.1, t, k + 1, begin);
      }
    }
  }

  /** `match` finds the expression if it occurs. */
  lemma {:induction false} MatchedRight(re: seq<Row>, r: Re, d: Table, str: seq<nat>)
    requires Usable(re, r, false, d) && Text(str) && (d.reset || d.initstat == BeginState(re, r))
    ensures var res := Matched(re, r, d, str);
      res.0.bad == d.bad ==> (res.1 <==> Occurs(r, str))
  {
    StartedAt(re, r, false, d);
    BuiltParts(re, r);
    var st := Started(re, false, d);
    var begin, t := Front(re, r, false), Rest(str, 0);
    assert str[0..] == str && t[..0] == [];
    assert At(re, st.0, st.1, Run(AutoOf(re), begin, t[..0]));
    AtOut(re, st.0, st.1, begin);
    OccursMeans(AutoOf(re), r, str);
    if !Out(re, st.0, st.1) {
      MatchFromRight(re, st.0, st.1, t, 0, begin);
    } else {
      assert Accepts(AutoOf(re), begin, t[..0]);
    }
  }

  // ---------- pmatch ----------

  ghost function PMatched(re: seq<Row>, r: Re, d: Table, str: seq<nat>): (res: Search)
    requires Usable(re, r, true, d) && Text(str)
  {
    StartedAt(re, r, true, d);
    BuiltParts(re, r);
    ListWithZero(re, Restart(r));
    var st := Started(re, true, d);
    SearchFrom(re, st.0, st.1, str, 0)
  }

  lemma {:induction false} ScanFromRight(
      re: seq<Row>, d: Table, s: nat, u: seq<nat>, t: seq<nat>, q: nat, n: int, begin: set<nat>)
    requires GoodRows(re) && Good(re, d) && 1 <= s < |d.posns| && Bytes(t) && q <= |t| && -1 <= n < q && n < |t|
    requires t == u + [NUL] && At(re, d, s, Run(AutoOf(re), begin, t[..q])) && LongestBelow(AutoOf(re), begin, t, q, n)
    ensures var sc := ScanFrom(re, d, s, t, q, n);
      sc.0.bad == d.bad ==> Longest(AutoOf(re), begin, u, sc.1)
    decreases |t| - q
  {
    hide Run, Move;
    var a := AutoOf(re);
    AtOut(re, d, s, Run(a, begin, t[..q]));
    if q == |t| {
      assert t[..|t|] == t;
      LongestAtEnd(a, begin, u, n);
    } else {
      var n' := if Out(re, d, s) then q else n;
      assert LongestBelow(a, begin, t, q + 1, n');
      MoveAt(re, d, s, begin, t, q);
      var m := Move(re, d, s, t[q]);
      if m.0.bad == d.bad {
        if m.1 == 1 {
          DeadScan(a, begin, u, q + 1, n', |re|);
        } else {
          ScanFromRight(re, m.0, m.1, u, t, q + 1, n', begin);
        }
      }
    }
  }

  /** `begin` accepts the first `m` symbols of `u`, or all of it and NUL. */
  ghost predicate Hit(a: Auto, begin: set<nat>, u: seq<nat>, m: int)
    requires a.Valid()
  {
    0 <= m <= |u| && (Accepts(a, begin, u[..m]) || (m == |u| && Accepts(a, begin, u + [NUL])))
  }

  /** `n` is the greatest such length, or -1 when there is none. */
  ghost predicate Longest(a: Auto, begin: set<nat>, u: seq<nat>, n: int)
    requires a.Valid()
  {
    && (n == -1 || Hit(a, begin, u, n))
    && forall m :: m > n ==> !Hit(a, begin, u, m)
  }

  /** The same among the accepted prefixes of `t` shorter than `q`. */
  ghost predicate LongestBelow(a: Auto, begin: set<nat>, t: seq<nat>, q: nat, n: int)
    requires a.Valid() && q <= |t| && n < q
  {
    && (n == -1 || (0 <= n && Accepts(a, begin, t[..n])))
    && forall m :: 0 <= m < q && m > n ==> !Accepts(a, begin, t[..m])
  }

  lemma LongestAtEnd(a: Auto, begin: set<nat>, u: seq<nat>, n: int)
    requires a.Valid() && -1 <= n <= |u|
    ensures LongestBelow(a, begin, u + [NUL], |u| + 1, n) ==>
      Longest(a, begin, u, if Accepts(a, begin, u + [NUL]) then |u| else n)
  {
    var t := u + [NUL];
    assert forall m :: 0 <= m <= |u| ==> t[..m] == u[..m];
  }

  /** Once nothing is active, no longer prefix is accepted. */
  lemma DeadScan(a: Auto, begin: set<nat>, u: seq<nat>, q: nat, n: int, bound: nat)
    requires a.Valid() && 1 <= q <= |u| + 1 && -1 <= n < q && n <= |u|
    ensures
      var cur := Run(a, begin, (u + [NUL])[..q]);
      Descending(cur, bound) == [] && BelowAll(cur, bound) && LongestBelow(a, begin, u + [NUL], q, n) ==>
      Longest(a, begin, u, n)
  {
    var t := u + [NUL];
    var cur := Run(a, begin, t[..q]);
    if Descending(cur, bound) == [] && BelowAll(cur, bound) && LongestBelow(a, begin, t, q, n) {
      DescendingElems(cur, bound);
      var e: seq<nat> := [];
      assert cur == Elems(e) == {};
      forall m | q <= m <= |t|
        ensures !Accepts(a, begin, t[..m])
      {
        assert t[..m] == t[..q] + t[q..m];
        RunConcat(a, begin, t[..q], t[q..m]);
        EmptyAcceptsNothing(a, t[q..m]);
      }
      assert t[..|t|] == t;
      LongestAtEnd(a, begin, u, n);
    }
  }

  /** A word of `r` covers `str[i..i + n]`, with HAT in front of it at offset 0 if `hat`, and
      NUL behind it at the end. */
  ghost predicate MatchAt(r: Re, str: seq<nat>, i: int, n: int, hat: bool) {
    && 0 <= i && 0 <= n && i + n <= |str|
    && var w := str[i..i + n];
       var atStart, atEnd := hat && i == 0, i + n == |str|;
       || In(r, w)
       || (atEnd && In(r, w + [NUL]))
       || (atStart && In(r, [HAT] + w))
       || (atStart && atEnd && In(r, [HAT] + (w + [NUL])))
  }

  ghost predicate NoneBefore(r: Re, str: seq<nat>, p: nat, hat: bool) {
    forall i, n :: i < p ==> !MatchAt(r, str, i, n, hat)
  }

  /** The result of `pmatch`: the least start, and the greatest length there. */
  ghost predicate LeftmostLongest(r: Re, str: seq<nat>, hat: bool, found: bool, patbeg: int, patlen: int) {
    if found then
      && MatchAt(r, str, patbeg, patlen, hat)
      && (forall n :: n > patlen ==> !MatchAt(r, str, patbeg, n, hat))
      && (forall i, n :: i < patbeg ==> !MatchAt(r, str, i, n, hat))
    else
      forall i, n :: !MatchAt(r, str, i, n, hat)
  }

  lemma HitMeans(a: Auto, r: Re, str: seq<nat>, p: nat, n: int, hat: bool)
    requires Compiled(a, r) && p <= |str|
    ensures Hit(a, if p == 0 && hat then Start(a, r) else Restart(r), str[p..], n) <==> MatchAt(r, str, p, n, hat)
  {
    if 0 <= n && p + n <= |str| {
      var w := str[p..p + n];
      assert str[p..][..n] == w;
      if p + n == |str| { assert str[p..] == w; }
      AcceptsRestart(a, r, w);
      AcceptsRestart(a, r, w + [NUL]);
      AcceptsStart(a, r, w);
      AcceptsStart(a, r, w + [NUL]);
    }
  }

  lemma ScanMeans(a: Auto, r: Re, str: seq<nat>, p: nat, hat: bool, patlen: int)
    requires Compiled(a, r) && p <= |str| && patlen >= -1
    requires Longest(a, if p == 0 && hat then Start(a, r) else Restart(r), str[p..], patlen)
    ensures NoneBefore(r, str, p, hat) ==>
      if patlen >= 0 then LeftmostLongest(r, str, hat, true, p, patlen)
      else NoneBefore(r, str, p + 1, hat) && (p == |str| ==> LeftmostLongest(r, str, hat, false, 0, -1))
  {
    forall n
      ensures Hit(a, if p == 0 && hat then Start(a, r) else Restart(r), str[p..], n) <==> MatchAt(r, str, p, n, hat)
    {
      HitMeans(a, r, str, p, n, hat);
    }
  }

  lemma RunExtend(a: Auto, s: set<nat>, t: seq<nat>, k: nat)
    requires a.Valid() && k < |t|
    ensures Run(a, s, t[..k + 1]) == Step(a, Run(a, s, t[..k]), t[k])
  {
    assert t[..k + 1] == t[..k] + [t[k]];
    RunConcat(a, s, t[..k], [t[k]]);
    var u := Run(a, s, t[..k]);
    assert [t[k]][1..] == [];
    assert Run(a, u, [t[k]]) == Run(a, Step(a, u, t[k]), []);
  }

  /** Some stretch of HAT, the text and NUL that ends behind HAT is a word of `r`. */
  ghost predicate Occurs(r: Re, str: seq<nat>) {
    var t := [HAT] + str + [NUL];
    exists i, j :: 0 <= i <= j <= |t| && 1 <= j && In(r, t[i..j])
  }

  lemma OccursMeans(a: Auto, r: Re, str: seq<nat>)
    requires Compiled(a, r) && NUL !in str
    ensures Occurs(r, str) <==>
      exists j :: 0 <= j <= |str| + 1 && Accepts(a, {0} + Start(a, r), (str + [NUL])[..j])
  {
    var t, t' := [HAT] + str + [NUL], str + [NUL];
    forall j | 0 <= j <= |t'|
      ensures Accepts(a, {0} + Start(a, r), t'[..j]) <==> FoundIn(r, t[..j + 1])
    {
      assert t[..j + 1] == [HAT] + t'[..j];
      StepHat(a, r);
      AcceptsInitial(a, r, t[..j + 1]);
      assert t[..j + 1][1..] == t'[..j];
    }
    if Occurs(r, str) {
      var i, j :| 0 <= i <= j <= |t| && 1 <= j && In(r, t[i..j]);
      if i == |t| {
        assert t[i..j] == [] == t[1..1];
        FoundWitness(r, t, 1, 1);
        assert Accepts(a, {0} + Start(a, r), t'[..0]);
      } else {
        FoundWitness(r, t, i, j);
        assert Accepts(a, {0} + Start(a, r), t'[..j - 1]);
      }
    }
    if j :| 0 <= j <= |str| + 1 && Accepts(a, {0} + Start(a, r), t'[..j]) {
      var w := t[..j + 1];
      assert SuffixIn(v => In(r, v), w);
      var i :| 0 <= i <= |w| && NUL !in w[..i] && (v => In(r, v))(w[i..]);
      assert w[i..] == t[i..j + 1];
    }
  }

  lemma FoundWitness(r: Re, t: seq<nat>, i: nat, j: nat)
    requires i <= j <= |t| && i < |t| && NUL !in t[..|t| - 1] && In(r, t[i..j])
    ensures FoundIn(r, t[..j])
  {
    var w := t[..j];
    assert w[i..] == t[i..j];
    assert forall k :: 0 <= k < i ==> w[..i][k] == t[..|t| - 1][k];
    assert (v => In(r, v))(w[i..]);
    assert SuffixIn(v => In(r, v), w);
  }

  /** What is active when a match is tried at offset p; `hat` tells whether `^` can match in
      front of the text. */
  function Beginning(re: seq<Row>, r: Re, p: nat, hat: bool): set<nat>
    requires AutoOf(re).Valid()
  {
    if p == 0 && hat then Start(AutoOf(re), r) else Restart(r)
  }

  lemma {:induction false} RebuiltFit(re: seq<Row>, r: Re, d: Table)
    requires Usable(re, r, true, d) && d.reset
    ensures var e := Rebuilt(d);
      Usable(re, r, true, e) && e.reset && Sound(re, e) && e.posns[2] == List(re, Restart(r))
  {
    BuiltParts(re, r);
    ListWithZero(re, Restart(r));
    BlankSound(re, Rebuilt(d));
  }

  /** What a search of `str` that began with table d leaves. */
  ghost predicate LeftBehind(re: seq<Row>, r: Re, d: Table, str: seq<nat>, res: Search) {
    && Usable(re, r, true, res.table) && res.table.clears >= d.clears && res.table.bad >= d.bad
    && (res.table.clears == d.clears ==> res.table.bad == d.bad) && (d.reset ==> res.table.reset)
    && (res.table.clears == d.clears && !d.reset ==> res.table.initstat == d.initstat && !res.table.reset)
    && (res.table.initstat == d.initstat || (res.table.reset && res.table.initstat == 2))
    && (res.found ==> 0 <= res.n && res.b + res.n <= |str|)
  }

  /** An unsuccessful attempt at an offset. */
  ghost function Missed(d: Table): Table
    requires |d.posns| >= 2 && |d.rows| >= 2
  {
    if d.reset then Rebuilt(d) else d
  }

  lemma {:induction false} MissedUsable(re: seq<Row>, r: Re, d: Table, e: Table)
    requires Usable(re, r, true, d) && Later(re, d, e)
    ensures var f := Missed(e);
      && Usable(re, r, true, e) && Usable(re, r, true, f) && ListForm(f.posns[0], |re|)
      && f.clears == e.clears >= d.clears && f.bad == e.bad >= d.bad && f.reset == e.reset
      && f.posns[2] == List(re, Restart(r)) && Sound(re, f)
      && (e.clears == d.clears ==> e.bad == d.bad && e.reset == d.reset) && (e.clears > d.clears ==> e.reset)
      && (!e.reset ==> f.initstat == d.initstat) && (e.reset ==> f.initstat == 2) && e.initstat == d.initstat
  {
    LaterUsable(re, r, true, d, e);
    BuiltParts(re, r);
    ListWithZero(re, Restart(r));
    if e.reset { RebuiltFit(re, r, e); }
  }

  /** Whatever happens, the table stays usable. */
  lemma {:induction false} SearchKeeps(re: seq<Row>, r: Re, d: Table, s: nat, str: seq<nat>, p: nat)
    requires Usable(re, r, true, d) && ListForm(d.posns[0], |re|) && 1 <= s < |d.posns| && Text(str) && p <= |str|
    ensures LeftBehind(re, r, d, str, SearchFrom(re, d, s, str, p))
    decreases |str| - p
  {
    hide ScanFrom, Fit, Later, Sound, BeginState, List, Rebuilt;
    var sc := ScanFrom(re, d, s, Rest(str, p), 0, -1);
    MissedUsable(re, r, d, sc.0);
    if sc.1 < 0 && p < |str| {
      SearchKeeps(re, r, Missed(sc.0), 2, str, p + 1);
    }
  }

  /** One attempt: a match here is the leftmost-longest, and otherwise there is none up to here. */
  lemma {:induction false} AttemptRight(re: seq<Row>, r: Re, d: Table, s: nat, str: seq<nat>, p: nat, hat: bool)
    requires Built(re, r) && Good(re, d) && 1 <= s < |d.posns| && Text(str) && p <= |str|
    requires At(re, d, s, Beginning(re, r, p, hat)) && NoneBefore(r, str, p, hat)
    ensures var sc := ScanFrom(re, d, s, Rest(str, p), 0, -1);
      sc.0.bad == d.bad ==>
        if sc.1 >= 0 then LeftmostLongest(r, str, hat, true, p, sc.1)
        else NoneBefore(r, str, p + 1, hat) && (p == |str| ==> LeftmostLongest(r, str, hat, false, 0, -1))
  {
    hide ScanFrom, Fit, Later, List, Restart, Start, MatchAt;
    var begin, t := Beginning(re, r, p, hat), Rest(str, p);
    assert t[..0] == [] && Run(AutoOf(re), begin, []) == begin;
    NothingYet(AutoOf(re), begin, t);
    ScanFromRight(re, d, s, str[p..], t, 0, -1, begin);
    var sc := ScanFrom(re, d, s, t, 0, -1);
    if sc.0.bad == d.bad {
      ScanMeans(AutoOf(re), r, str, p, hat, sc.1);
    }
  }

  /** The search from offset p on, when there is no match before it. */
  lemma {:induction false} SearchRight(re: seq<Row>, r: Re, d: Table, s: nat, str: seq<nat>, p: nat, hat: bool)
    requires Usable(re, r, true, d) && ListForm(d.posns[0], |re|) && 1 <= s < |d.posns| && Text(str) && p <= |str|
    requires At(re, d, s, Beginning(re, r, p, hat)) && NoneBefore(r, str, p, hat)
    ensures var res := SearchFrom(re, d, s, str, p);
      res.table.bad == d.bad ==> LeftmostLongest(r, str, hat, res.found, res.b, res.n)
    decreases |str| - p
  {
    hide ScanFrom, Fit, Later, List, Rebuilt, Restart, Start, NoneBefore, LeftmostLongest;
    var sc := ScanFrom(re, d, s, Rest(str, p), 0, -1);
    MissedUsable(re, r, d, sc.0);
    AttemptRight(re, r, d, s, str, p, hat);
    if sc.1 < 0 && p < |str| {
      var e := Missed(sc.0);
      SearchKeeps(re, r, e, 2, str, p + 1);
      BuiltParts(re, r);
      if sc.0.bad == d.bad {
        SearchRight(re, r, e, 2, str, p + 1, hat);
      }
    }
  }

  lemma NothingYet(a: Auto, begin: set<nat>, t: seq<nat>)
    requires a.Valid()
    ensures LongestBelow(a, begin, t, 0, -1)
  {
  }

  /** `pmatch` finds the leftmost match, and the longest one there. */
  lemma {:induction false} PMatchedRight(re: seq<Row>, r: Re, d: Table, str: seq<nat>)
    requires Usable(re, r, true, d) && Text(str)
    ensures var res := PMatched(re, r, d, str);
      && LeftBehind(re, r, d.(reset := false), str, res)
      && (res.table.bad == d.bad ==>
            LeftmostLongest(r, str, d.reset || d.initstat == BeginState(re, r), res.found, res.b, res.n))
  {
    StartedAt(re, r, true, d);
    BuiltParts(re, r);
    ListWithZero(re, Restart(r));
    var st := Started(re, true, d);
    var hat := d.reset || d.initstat == BeginState(re, r);
    SearchKeeps(re, r, st.0, st.1, str, 0);
    assert At(re, st.0, st.1, Beginning(re, r, 0, hat));
    assert NoneBefore(r, str, 0, hat);
    SearchRight(re, r, st.0, st.1, str, 0, hat);
  }

  // ---------- when the answer is right: conditions known before the call ----------

  /** As many symbols as `pmatch` can look at in n bytes. */
  function Work(n: nat): nat {
    n + 1 + if n == 0 then 0 else Work(n - 1)
  }

  lemma {:induction false} WorkIs(n: nat)
    ensures Work(n) == (n + 1) * (n + 2) / 2
  {
    if n > 0 {
      WorkIs(n - 1);
      assert (n + 1) * (n + 2) == n * (n + 1) + 2 * (n + 1);
    }
  }

  lemma {:induction false} MatchFromSpare(re: seq<Row>, d: Table, s: nat, t: seq<nat>, k: nat, m: nat)
    requires GoodRows(re) && Good(re, d) && 1 <= s < |d.posns| && Bytes(t) && k <= |t|
    requires Spare(re, d, |t| - k + m)
    ensures var res := MatchFrom(re, d, s, t, k); res.0.clears == d.clears && Spare(re, res.0, m)
    decreases |t| - k
  {
    hide Spare, Later;
    SpareLess(re, d, |t| - k + m, m);
    if k < |t| {
      MoveLands(re, d, s, t[k]);
      MoveSpare(re, d, s, t[k], |t| - k - 1 + m);
      var e := Move(re, d, s, t[k]);
      SpareLess(re, e.0, |t| - k - 1 + m, m);
      if !Out(re, e.0, e.1) { MatchFromSpare(re, e.0, e.1, t, k + 1, m); }
    }
  }

  lemma {:induction false} ScanFromSpare(re: seq<Row>, d: Table, s: nat, t: seq<nat>, q: nat, n: int, m: nat)
    requires GoodRows(re) && Good(re, d) && 1 <= s < |d.posns| && Bytes(t) && q <= |t| && -1 <= n < q && n < |t|
    requires Spare(re, d, |t| - q + m)
    ensures var sc := ScanFrom(re, d, s, t, q, n); sc.0.clears == d.clears && Spare(re, sc.0, m)
    decreases |t| - q
  {
    hide Spare, Later;
    SpareLess(re, d, |t| - q + m, m);
    if q < |t| {
      var n' := if Out(re, d, s) then q else n;
      MoveLands(re, d, s, t[q]);
      MoveSpare(re, d, s, t[q], |t| - q - 1 + m);
      var e := Move(re, d, s, t[q]);
      SpareLess(re, e.0, |t| - q - 1 + m, m);
      if e.1 != 1 { ScanFromSpare(re, e.0, e.1, t, q + 1, n', m); }
    }
  }

  lemma {:induction false} SearchSpare(re: seq<Row>, r: Re, d: Table, s: nat, str: seq<nat>, p: nat, m: nat)
    requires Usable(re, r, true, d) && ListForm(d.posns[0], |re|) && 1 <= s < |d.posns| && Text(str) && p <= |str|
    requires !d.reset && Spare(re, d, Work(|str| - p) + m)
    ensures var res := SearchFrom(re, d, s, str, p); res.table.clears == d.clears && Spare(re, res.table, m)
    decreases |str| - p
  {
    hide ScanFrom, Spare, Later, Fit, List, Sound, BeginState;
    var sc := ScanFrom(re, d, s, Rest(str, p), 0, -1);
    MissedUsable(re, r, d, sc.0);
    ScanFromSpare(re, d, s, Rest(str, p), 0, -1, if p < |str| then Work(|str| - p - 1) + m else m);
    if p < |str| {
      SpareLess(re, sc.0, Work(|str| - p - 1) + m, m);
      if sc.1 < 0 { SearchSpare(re, r, sc.0, 2, str, p + 1, m); }
    }
  }

  /** Room for n moves from where the next call begins. */
  ghost predicate Calm(re: seq<Row>, anchor: bool, d: Table, n: nat) {
    && AutoOf(re).Valid() && |d.posns| >= 2 && |d.rows| >= 2
    && Spare(re, Started(re, anchor, d).0, n)
  }

  lemma CalmLess(re: seq<Row>, anchor: bool, d: Table, n: nat, m: nat)
    requires Calm(re, anchor, d, n) && m <= n
    ensures Calm(re, anchor, d, m)
  {
    SpareLess(re, Started(re, anchor, d).0, n, m);
  }

  lemma SpareFrom(re: seq<Row>, d: Table, n: nat, s: nat)
    requires AutoOf(re).Valid() && Spare(re, d, n)
    ensures Spare(re, d.(initstat := s), n)
  {
    hide Closed, Known;
    if |d.posns| + n > NSTATES {
      var lists :| Roomy(re, lists, d);
      assert Roomy(re, lists, d.(initstat := s));
    }
  }

  /** Where the next search begins makes no difference. */
  lemma CalmFrom(re: seq<Row>, anchor: bool, d: Table, n: nat, s: nat)
    requires Calm(re, anchor, d, n)
    ensures Calm(re, anchor, d.(initstat := s), n)
  {
    hide Spare, Next, LeaveOut;
    SpareFrom(re, Started(re, anchor, d).0, n, s);
  }

  /** With room for its work, `match` clears nothing, and so it is right. */
  lemma {:induction false} MatchedCalm(re: seq<Row>, r: Re, d: Table, str: seq<nat>, m: nat)
    requires Usable(re, r, false, d) && Text(str) && Calm(re, false, d, |str| + 1 + m)
    ensures var res := Matched(re, r, d, str);
      res.0.clears == d.clears && res.0.bad == d.bad && Calm(re, false, res.0, m)
  {
    hide Spare, Fit;
    StartedAt(re, r, false, d);
    var st := Started(re, false, d);
    SpareLess(re, st.0, |str| + 1 + m, m);
    MatchFromSpare(re, st.0, st.1, Rest(str, 0), 0, m);
  }

  /** With room for its work, `pmatch` clears nothing, and so it is right. */
  lemma {:induction false} PMatchedCalm(re: seq<Row>, r: Re, d: Table, str: seq<nat>, m: nat)
    requires Usable(re, r, true, d) && Text(str) && Calm(re, true, d, Work(|str|) + m)
    ensures var res := PMatched(re, r, d, str);
      res.table.clears == d.clears && res.table.bad == d.bad && Calm(re, true, res.table, m)
  {
    hide Spare, Fit;
    PMatchedRight(re, r, d, str);
    StartedAt(re, r, true, d);
    BuiltParts(re, r);
    ListWithZero(re, Restart(r));
    var st := Started(re, true, d);
    SearchSpare(re, r, st.0, st.1, str, 0, m);
  }

  /** The states that are taken when the next search begins. */
  function Taken(re: seq<Row>, r: Re, d: Table): nat
    requires AutoOf(re).Valid()
  {
    if d.reset then BeginState(re, r) + 1 else |d.posns|
  }

  /** With n states to spare a search is calm for n moves. */
  lemma CalmRoom(re: seq<Row>, r: Re, anchor: bool, d: Table, n: nat)
    requires Usable(re, r, anchor, d) && Taken(re, r, d) + n <= NSTATES
    ensures Calm(re, anchor, d, n)
  {
    if d.reset { MadeInitFit(re, r, anchor, d); }
  }

  /** In closed form: a subject of n bytes with (n + 1)(n + 2) / 2 states to spare clears
      nothing, whatever the expression is. */
  lemma {:induction false} PMatchedShort(re: seq<Row>, r: Re, d: Table, str: seq<nat>)
    requires Usable(re, r, true, d) && Text(str)
    requires Taken(re, r, d) + (|str| + 1) * (|str| + 2) / 2 <= NSTATES
    ensures var res := PMatched(re, r, d, str);
      && res.table.clears == d.clears && res.table.bad == d.bad
      && LeftmostLongest(r, str, d.reset || d.initstat == BeginState(re, r), res.found, res.b, res.n)
  {
    hide Usable, Calm, PMatched, Taken, LeftmostLongest, Work;
    WorkIs(|str|);
    CalmRoom(re, r, true, d, Work(|str|));
    PMatchedCalm(re, r, d, str, 0);
    PMatchedRight(re, r, d, str);
  }

  /** What is promised of an answer of `match`. */
  ghost predicate MatchAnswer(re: seq<Row>, r: Re, d: Table, str: seq<nat>, res: (Table, bool)) {
    && (res.0.bad == d.bad ==> (res.1 <==> Occurs(r, str)))
    && (Calm(re, false, d, |str| + 1) ==> (res.1 <==> Occurs(r, str)) && res.0.clears == d.clears)
  }

  lemma {:induction false} MatchedAnswers(re: seq<Row>, r: Re, d: Table, str: seq<nat>)
    requires Usable(re, r, false, d) && Text(str) && (d.reset || d.initstat == BeginState(re, r))
    ensures MatchAnswer(re, r, d, str, Matched(re, r, d, str))
  {
    hide Occurs, Calm;
    MatchedRight(re, r, d, str);
    if Calm(re, false, d, |str| + 1) { MatchedCalm(re, r, d, str, 0); }
  }

  /** What is promised of an answer of `pmatch`. */
  ghost predicate PMatchAnswer(re: seq<Row>, r: Re, d: Table, str: seq<nat>, res: Search)
    requires AutoOf(re).Valid()
  {
    var hat := d.reset || d.initstat == BeginState(re, r);
    && Usable(re, r, true, res.table) && (res.found ==> 0 <= res.n && res.b + res.n <= |str|)
    && res.table.clears >= d.clears
    && (res.table.initstat == d.initstat || (res.table.reset && res.table.initstat == 2))
    && (res.table.clears == d.clears ==> res.table.bad == d.bad && res.table.initstat == d.initstat && !res.table.reset)
    && (res.table.bad == d.bad ==> LeftmostLongest(r, str, hat, res.found, res.b, res.n))
    && (Calm(re, true, d, Work(|str|)) ==>
          LeftmostLongest(r, str, hat, res.found, res.b, res.n) && res.table.clears == d.clears)
  }

  lemma {:induction false} PMatchedAnswers(re: seq<Row>, r: Re, d: Table, str: seq<nat>)
    requires Usable(re, r, true, d) && Text(str)
    ensures PMatchAnswer(re, r, d, str, PMatched(re, r, d, str))
  {
    hide LeftmostLongest, Calm, PMatched, Fit, Work;
    PMatchedRight(re, r, d, str);
    if Calm(re, true, d, Work(|str|)) { PMatchedCalm(re, r, d, str, 0); }
  }

  // ---------- several calls ----------

  /** The table after calls of `pmatch` on one subject after the other. */
  ghost function Calls(re: seq<Row>, r: Re, d: Table, strs: seq<seq<nat>>): (e: Table)
    requires Usable(re, r, true, d) && forall i :: 0 <= i < |strs| ==> Text(strs[i])
    ensures Usable(re, r, true, e)
    decreases |strs|
  {
    if strs == [] then d else Calls(re, r, Called(re, r, d, strs[0]), strs[1..])
  }

  /** The table after one call. */
  ghost function Called(re: seq<Row>, r: Re, d: Table, str: seq<nat>): (e: Table)
    requires Usable(re, r, true, d) && Text(str)
    ensures Usable(re, r, true, e)
  {
    CalledUsable(re, r, d, str);
    PMatched(re, r, d, str).table
  }

  lemma CalledUsable(re: seq<Row>, r: Re, d: Table, str: seq<nat>)
    requires Usable(re, r, true, d) && Text(str)
    ensures Usable(re, r, true, PMatched(re, r, d, str).table)
  {
    hide Usable, PMatched;
    PMatchedAnswers(re, r, d, str);
  }

  /** Once `initstat` has been moved to state 2 it stays there: `^` is then seen only by a call
      that finds the table cleared, and by no other call any more. */
  lemma {:induction false} HatLost(re: seq<Row>, r: Re, d: Table, strs: seq<seq<nat>>, str: seq<nat>)
    requires Usable(re, r, true, d) && d.initstat == 2 && Text(str)
    requires forall i :: 0 <= i < |strs| ==> Text(strs[i])
    ensures var e := Calls(re, r, d, strs);
      var res := PMatched(re, r, e, str);
      && e.initstat == 2
      && (res.table.bad == e.bad ==>
            LeftmostLongest(r, str, e.reset || BeginState(re, r) == 2, res.found, res.b, res.n))
    decreases |strs|
  {
    hide Usable, PMatched, LeftmostLongest, Calm;
    if strs == [] {
      PMatchedAnswers(re, r, d, str);
    } else {
      PMatchedAnswers(re, r, d, strs[0]);
      HatLost(re, r, Called(re, r, d, strs[0]), strs[1..], str);
    }
  }

  /** Two calls behind an unsuccessful attempt with a cleared table: the first sees `^`, and if
      it clears nothing the second does not. */
  lemma HatSeenOnce(re: seq<Row>, r: Re, d: Table, first: seq<nat>, second: seq<nat>)
    requires Usable(re, r, true, d) && d.reset && Text(first) && Text(second)
    ensures Usable(re, r, true, Rebuilt(d))
      && PMatchAnswer(re, r, Rebuilt(d), first, PMatched(re, r, Rebuilt(d), first))
    ensures var x := PMatched(re, r, Rebuilt(d), first);
      var y := PMatched(re, r, x.table, second);
      x.table.clears == d.clears ==>
        && LeftmostLongest(r, first, true, x.found, x.b, x.n)
        && (y.table.bad == x.table.bad ==>
              LeftmostLongest(r, second, BeginState(re, r) == 2, y.found, y.b, y.n))
  {
    hide Fit, PMatched, LeftmostLongest, Calm;
    RebuiltFit(re, r, d);
    PMatchedAnswers(re, r, Rebuilt(d), first);
    var x := PMatched(re, r, Rebuilt(d), first);
    PMatchedAnswers(re, r, x.table, second);
  }

  /** Where `pmatch` begins. */
  lemma {:induction false} PMatchedStart(re: seq<Row>, r: Re, d: Table, str: seq<nat>)
    requires Usable(re, r, true, d) && Text(str)
    ensures var st := Started(re, true, d);
      && Good(re, st.0) && 2 <= st.1 < |st.0.posns| && ListForm(st.0.posns[0], |re|)
      && PMatched(re, r, d, str) == SearchFrom(re, st.0, st.1, str, 0)
  {
    StartedAt(re, r, true, d);
    BuiltParts(re, r);
    ListWithZero(re, Restart(r));
  }

  /** Where `match` begins. */
  lemma {:induction false} MatchedStart(re: seq<Row>, r: Re, d: Table, str: seq<nat>)
    requires Usable(re, r, false, d) && Text(str)
    ensures var st := Started(re, false, d);
      && Good(re, st.0) && 2 <= st.1 < |st.0.posns|
      && Matched(re, r, d, str) ==
        if Out(re, st.0, st.1) then (st.0, true) else MatchFrom(re, st.0, st.1, Rest(str, 0), 0)
  {
    StartedAt(re, r, false, d);
  }
}
