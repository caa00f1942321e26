/** The table of the lazily built automaton (cmd/awk/b.c) as a value: what `makeinit` and
    `cgoto` do to its 32 states, the clearing of a full table included.
 */
module AwkTable {
  import opened AwkRegex
  import opened AwkGlushkov
  import opened AwkFollow

  const NSTATES: nat := 32
  const NCHARS: nat := 257
  const BYTES: nat := 256

  // ---------- position lists ----------

  /** Follow lists in their one form, one row per position, the last row FINAL. */
  ghost predicate GoodRows(re: seq<Row>) {
    && AutoOf(re).Valid()
    && |re| <= MAXLIN
    && forall q :: 0 <= q < |re| ==> ListForm(re[q].lfollow, |re|)
  }

  /** The list of the set reached from the set of list `l` on `c`. */
  function Next(re: seq<Row>, l: seq<nat>, c: nat): seq<nat>
    requires AutoOf(re).Valid()
  {
    Descending(Step(AutoOf(re), Elems(l), c), |re|)
  }

  ghost predicate BelowAll(s: set<nat>, n: nat) {
    forall p :: p in s ==> p < n
  }

  lemma StepStaysBelow(re: seq<Row>, s: set<nat>, c: nat)
    requires GoodRows(re)
    ensures BelowAll(Step(AutoOf(re), s, c), |re|)
  {
    var a := AutoOf(re);
    forall p, q | p in s && q in Moves(a, p, c)
      ensures q < |re|
    {
      assert ListForm(re[p].lfollow, |re|);
    }
    StepBelowBound(a, s, c, |re|, |re|);
  }

  /** Following `Next` on lists is following `Step` on the sets they stand for. */
  lemma NextIsStep(re: seq<Row>, s: set<nat>, c: nat)
    requires GoodRows(re) && BelowAll(s, |re|)
    ensures Next(re, Descending(s, |re|), c) == Descending(Step(AutoOf(re), s, c), |re|)
    ensures BelowAll(Step(AutoOf(re), s, c), |re|)
  {
    DescendingElems(s, |re|);
    StepStaysBelow(re, s, c);
  }

  /** Scanning one more entry of a position list adds what that leaf activates. */
  lemma StepExtend(re: seq<Row>, l: seq<nat>, i: nat, c: nat)
    requires AutoOf(re).Valid() && i < |l|
    ensures Step(AutoOf(re), Elems(l[..i + 1]), c) == Step(AutoOf(re), Elems(l[..i]), c) + Moves(AutoOf(re), l[i], c)
  {
    assert Elems(l[..i + 1]) == Elems(l[..i]) + {l[i]};
    StepUnion(AutoOf(re), Elems(l[..i]), {l[i]}, c);
    StepSingle(AutoOf(re), l[i], c);
  }

  /** Nothing leads out of the dead state. */
  lemma DeadStays(re: seq<Row>, c: nat)
    requires GoodRows(re)
    ensures Next(re, [], c) == []
  {
    var e: seq<nat> := [];
    assert Elems(e) == {};
    StepBelowWithin(AutoOf(re), {}, c, |re|, {});
    assert Step(AutoOf(re), {}, c) == {};
    EmptyListForm(|re|);
  }

  lemma NextForm(re: seq<Row>, l: seq<nat>, c: nat)
    requires GoodRows(re)
    ensures ListForm(Next(re, l, c), |re|)
  {
    var t := Step(AutoOf(re), Elems(l), c);
    StepStaysBelow(re, Elems(l), c);
    DescendingElems(t, |re|);
    DescendingIs(t, |re|);
  }

  // ---------- the table ----------

  /** States 0 .. |posns| - 1, the last of them `curstat`: their lists and their rows of
      `gototab`. `clears` counts how often the table was cleared, and `bad` how often that
      happened while leaving state 2. */
  datatype Table = Table(posns: seq<seq<nat>>, rows: seq<seq<nat>>, initstat: nat, reset: bool, clears: nat, bad: nat)

  /** State 1 is the dead state, and every entry names a state. */
  ghost predicate Shaped(d: Table) {
    && 3 <= |d.posns| <= NSTATES && |d.rows| == |d.posns|
    && d.posns[1] == []
    && (forall s :: 1 <= s < |d.rows| ==> |d.rows[s]| == BYTES)
    && (forall s, c :: 1 <= s < |d.rows| && 0 <= c < BYTES ==> d.rows[s][c] < |d.posns|)
    && (forall c :: 0 <= c < BYTES ==> d.rows[1][c] <= 1)
  }

  function Blank(): (r: seq<nat>)
    ensures |r| == BYTES && forall c :: 0 <= c < BYTES ==> r[c] == 0
  {
    seq(BYTES, _ => 0)
  }

  /** The lowest state from i on with list `l`, or 0. */
  function Find(posns: seq<seq<nat>>, l: seq<nat>, i: nat): (k: nat)
    requires 1 <= i <= |posns|
    ensures k != 0 ==> i <= k < |posns| && posns[k] == l && forall j :: i <= j < k ==> posns[j] != l
    ensures k == 0 ==> forall j :: i <= j < |posns| ==> posns[j] != l
    decreases |posns| - i
  {
    if i == |posns| then 0 else if posns[i] == l then i else Find(posns, l, i + 1)
  }

  /** Rows have no column for HAT: what is stored there is never looked at. */
  function Put(row: seq<nat>, c: nat, k: nat): seq<nat> {
    if c < |row| then row[c := k] else row
  }

  /** `cgoto`: the state of the successor list of `s` on `c`, found, opened, or opened as state 2
      of a cleared table. In the last case the entry for `s` on `c` is written into the new row 2
      if `s` is 2. */
  function Goto(re: seq<Row>, d: Table, s: nat, c: nat): (r: (Table, nat))
    requires AutoOf(re).Valid() && Shaped(d) && 1 <= s < |d.posns|
    ensures 1 <= r.1 < |r.0.posns|
  {
    var l := Next(re, d.posns[s], c);
    var k := Find(d.posns, l, 1);
    var n := |d.posns|;
    if k != 0 then (d.(rows := d.rows[s := Put(d.rows[s], c, k)]), k)
    else if n < NSTATES then (d.(posns := d.posns + [l], rows := d.rows[s := Put(d.rows[s], c, n)] + [Blank()]), n)
    else
      var row := if s == 2 then Put(Blank(), c, 2) else Blank();
      var bad := d.bad + if s == 2 then 1 else 0;
      (Table(d.posns[..2] + [l], d.rows[..2] + [row], d.initstat, true, d.clears + 1, bad), 2)
  }

  /** Leave state `s` on byte `c`, through the table or through `cgoto`. */
  function Move(re: seq<Row>, d: Table, s: nat, c: nat): (r: (Table, nat))
    requires AutoOf(re).Valid() && Shaped(d) && 1 <= s < |d.posns| && c < BYTES
    ensures 1 <= r.1 < |r.0.posns|
  {
    if d.rows[s][c] != 0 then (d, d.rows[s][c]) else Goto(re, d, s, c)
  }

  /** The list holds the accept position. */
  predicate Accepting(re: seq<Row>, l: seq<nat>) {
    |re| - 1 in l
  }

  predicate Out(re: seq<Row>, d: Table, s: nat)
    requires s < |d.posns|
  {
    Accepting(re, d.posns[s])
  }

  /** Anchored automata leave out position 0, which is last in its list. */
  function LeaveOut(anchor: bool, l: seq<nat>): seq<nat> {
    if anchor && l != [] then l[..|l| - 1] else l
  }

  /** `makeinit`: state 2 holds what is active inside the text, and the last state what is
      active in front of it. */
  function MadeInit(re: seq<Row>, anchor: bool, d: Table): Table
    requires AutoOf(re).Valid() && |d.posns| >= 2 && |d.rows| >= 2
  {
    var l := re[0].lfollow;
    var h := Next(re, l, HAT);
    Table(
      [if anchor then LeaveOut(anchor, l) else d.posns[0], d.posns[1], LeaveOut(anchor, l)]
        + (if h == l then [] else [LeaveOut(anchor, h)]),
      d.rows[..2] + [Blank()] + (if h == l then [] else [Blank()]),
      d.initstat, false, d.clears, d.bad)
  }

  // ---------- what is kept ----------

  ghost predicate Good(re: seq<Row>, d: Table) {
    Shaped(d) && forall i :: 1 <= i < |d.posns| ==> ListForm(d.posns[i], |re|)
  }

  /** Every filled entry names the state holding exactly the one-step successor list. */
  ghost predicate Sound(re: seq<Row>, d: Table)
    requires AutoOf(re).Valid() && Shaped(d)
  {
    forall s, c :: 1 <= s < |d.posns| && 0 <= c < BYTES && d.rows[s][c] != 0 ==>
      d.posns[d.rows[s][c]] == Next(re, d.posns[s], c)
  }

  /** What a run of moves keeps, and what it does as long as nothing is cleared. */
  ghost predicate Later(re: seq<Row>, d: Table, e: Table)
    requires AutoOf(re).Valid() && Good(re, d)
  {
    && Good(re, e)
    && e.initstat == d.initstat && e.posns[0] == d.posns[0]
    && e.clears >= d.clears && e.bad >= d.bad
    && (e.clears == d.clears ==> d.posns <= e.posns && e.reset == d.reset && e.bad == d.bad)
    && (e.clears > d.clears ==> e.reset)
    && (Sound(re, d) && e.bad == d.bad ==> Sound(re, e))
  }

  lemma LaterSelf(re: seq<Row>, d: Table)
    requires AutoOf(re).Valid() && Good(re, d)
    ensures Later(re, d, d)
  {
  }

  lemma LaterTwice(re: seq<Row>, d: Table, e: Table, f: Table)
    requires AutoOf(re).Valid() && Good(re, d) && Later(re, d, e) && Later(re, e, f)
    ensures Later(re, d, f)
  {
  }

  /** The successor of `s` on `c` is a new list and there is no room for it. */
  ghost predicate WillClear(re: seq<Row>, d: Table, s: nat, c: nat)
    requires AutoOf(re).Valid() && Shaped(d) && 1 <= s < |d.posns|
  {
    |d.posns| == NSTATES && Next(re, d.posns[s], c) !in d.posns[1..]
  }

  lemma FindsFrom(posns: seq<seq<nat>>, l: seq<nat>)
    requires |posns| >= 1
    ensures Find(posns, l, 1) == 0 <==> l !in posns[1..]
  {
    assert forall j :: 1 <= j < |posns| ==> posns[1..][j - 1] == posns[j];
    var k := Find(posns, l, 1);
    if k != 0 { assert posns[1..][k - 1] == l; }
  }

  /** The successor of the dead state is the dead state. */
  lemma DeadFound(re: seq<Row>, d: Table, c: nat)
    requires GoodRows(re) && Shaped(d)
    ensures d.posns[1] == [] && Next(re, d.posns[1], c) == [] && Find(d.posns, Next(re, d.posns[1], c), 1) == 1
  {
    DeadStays(re, c);
  }

  /** Where the successor is, and when the table is cleared. */
  lemma GotoLands(re: seq<Row>, d: Table, s: nat, c: nat)
    requires GoodRows(re) && Good(re, d) && 1 <= s < |d.posns| && c < NCHARS
    ensures var g := Goto(re, d, s, c);
      && g.0.posns[g.1] == Next(re, d.posns[s], c)
      && g.0.clears == d.clears + (if WillClear(re, d, s, c) then 1 else 0)
      && g.0.bad == d.bad + (if WillClear(re, d, s, c) && s == 2 then 1 else 0)
  {
    FindsFrom(d.posns, Next(re, d.posns[s], c));
  }

  /** The successor is known: record it. */
  lemma RecordKeeps(re: seq<Row>, d: Table, s: nat, c: nat, k: nat)
    requires GoodRows(re) && Good(re, d) && 1 <= s < |d.posns| && 1 <= k < |d.posns|
    requires d.posns[k] == Next(re, d.posns[s], c) && (s == 1 ==> k == 1)
    ensures var e := d.(rows := d.rows[s := Put(d.rows[s], c, k)]); Later(re, d, e)
  {
  }

  /** The successor is new and there is room for it. */
  lemma GrowKeeps(re: seq<Row>, d: Table, s: nat, c: nat)
    requires GoodRows(re) && Good(re, d) && 2 <= s < |d.posns| < NSTATES
    ensures var l := Next(re, d.posns[s], c);
      Later(re, d, d.(posns := d.posns + [l], rows := d.rows[s := Put(d.rows[s], c, |d.posns|)] + [Blank()]))
  {
    NextForm(re, d.posns[s], c);
  }

  /** The cleared table is sound exactly if it was not cleared while leaving state 2 on a byte, or
      the new list leads to itself. */
  lemma ClearKeeps(re: seq<Row>, d: Table, s: nat, c: nat)
    requires GoodRows(re) && Good(re, d) && 2 <= s < |d.posns| && WillClear(re, d, s, c) && c < NCHARS
    ensures var e := Goto(re, d, s, c).0;
      && Good(re, e) && e.reset && e.posns[0] == d.posns[0]
      && (Sound(re, d) ==> (Sound(re, e) <==> s != 2 || c == HAT || Next(re, e.posns[2], c) == e.posns[2]))
  {
    var l := Next(re, d.posns[s], c);
    NextForm(re, d.posns[s], c);
    FindsFrom(d.posns, l);
    var e := Goto(re, d, s, c).0;
    assert e.posns == [d.posns[0], [], l];
    assert s == 2 && c < BYTES ==> e.rows[2][c] == 2;
    if Sound(re, d) {
      assert forall b :: 0 <= b < BYTES && d.rows[1][b] != 0 ==> d.posns[d.rows[1][b]] == Next(re, d.posns[1], b);
    }
  }

  /** One step of `cgoto`. */
  lemma GotoKeeps(re: seq<Row>, d: Table, s: nat, c: nat)
    requires GoodRows(re) && Good(re, d) && 1 <= s < |d.posns| && c < NCHARS
    ensures Later(re, d, Goto(re, d, s, c).0) && |Goto(re, d, s, c).0.posns| <= |d.posns| + 1
  {
    var l := Next(re, d.posns[s], c);
    if s == 1 { DeadStays(re, c); }
    FindsFrom(d.posns, l);
    var k := Find(d.posns, l, 1);
    if k != 0 {
      RecordKeeps(re, d, s, c, k);
    } else if |d.posns| < NSTATES {
      GrowKeeps(re, d, s, c);
    } else {
      ClearKeeps(re, d, s, c);
    }
  }

  /** When a table stays sound. */
  lemma {:induction false} GotoExactly(re: seq<Row>, d: Table, s: nat, c: nat)
    requires GoodRows(re) && Good(re, d) && Sound(re, d) && 1 <= s < |d.posns| && c < NCHARS
    ensures var e := Goto(re, d, s, c).0;
      Shaped(e) && (Sound(re, e) <==>
        !WillClear(re, d, s, c) || s != 2 || c == HAT || Next(re, e.posns[2], c) == e.posns[2])
  {
    GotoKeeps(re, d, s, c);
    GotoLands(re, d, s, c);
    DeadStays(re, c);
    assert d.posns[1..][0] == d.posns[1];
    if WillClear(re, d, s, c) {
      ClearKeeps(re, d, s, c);
    }
  }

  /** A move in a sound table leads to the state of the successor list. */
  lemma MoveLands(re: seq<Row>, d: Table, s: nat, c: nat)
    requires GoodRows(re) && Good(re, d) && 1 <= s < |d.posns| && c < BYTES
    ensures var m := Move(re, d, s, c);
      && Later(re, d, m.0) && |m.0.posns| <= |d.posns| + 1
      && (Sound(re, d) ==> m.0.posns[m.1] == Next(re, d.posns[s], c))
  {
    if d.rows[s][c] == 0 {
      GotoKeeps(re, d, s, c);
      GotoLands(re, d, s, c);
    }
  }

  // ---------- when nothing is cleared ----------

  /** A set of lists that no byte leads out of. */
  ghost predicate Closed(re: seq<Row>, lists: set<seq<nat>>)
    requires AutoOf(re).Valid()
  {
    forall l, c :: l in lists && 0 <= c < BYTES ==> Next(re, l, c) in lists
  }

  function Known(posns: seq<seq<nat>>): set<seq<nat>>
    requires |posns| >= 1
  {
    set l | l in posns[1..]
  }

  /** The states hold lists of a closed set, and there is room for the others. */
  ghost predicate Roomy(re: seq<Row>, lists: set<seq<nat>>, d: Table)
    requires AutoOf(re).Valid()
  {
    Closed(re, lists) && Shaped(d) && Known(d.posns) <= lists && |d.posns| + |lists - Known(d.posns)| <= NSTATES
  }

  /** There is room for n moves: so many states are free, or there is room for all lists of a
      closed set. */
  ghost predicate Spare(re: seq<Row>, d: Table, n: nat)
    requires AutoOf(re).Valid()
  {
    |d.posns| + n <= NSTATES || exists lists :: Roomy(re, lists, d)
  }

  lemma OneLess(lists: set<seq<nat>>, posns: seq<seq<nat>>, l: seq<nat>)
    requires |posns| >= 1 && l in lists && l !in posns[1..]
    ensures Known(posns + [l]) == Known(posns) + {l} && |lists - Known(posns + [l])| == |lists - Known(posns)| - 1
  {
    var rest := lists - Known(posns);
    assert (posns + [l])[1..] == posns[1..] + [l];
    assert lists - Known(posns + [l]) == rest - {l};
  }

  lemma {:induction false} GotoRoomy(re: seq<Row>, lists: set<seq<nat>>, d: Table, s: nat, c: nat)
    requires GoodRows(re) && Good(re, d) && Roomy(re, lists, d) && 1 <= s < |d.posns| && c < BYTES
    ensures !WillClear(re, d, s, c) && Roomy(re, lists, Goto(re, d, s, c).0)
  {
    hide ListForm, Put, Known;
    var l := Next(re, d.posns[s], c);
    assert d.posns[s] in Known(d.posns) by { KnownAt(d.posns, s); }
    assert l in lists;
    FindsFrom(d.posns, l);
    GotoKeeps(re, d, s, c);
    hide Next, Blank, Sound;
    if l !in d.posns[1..] {
      OneLess(lists, d.posns, l);
    }
  }

  lemma KnownAt(posns: seq<seq<nat>>, s: nat)
    requires 1 <= s < |posns|
    ensures posns[s] in Known(posns)
  {
    assert posns[1..][s - 1] == posns[s];
  }

  /** With room for one move more nothing is cleared. */
  lemma {:induction false} MoveSpare(re: seq<Row>, d: Table, s: nat, c: nat, n: nat)
    requires GoodRows(re) && Good(re, d) && Spare(re, d, n + 1) && 1 <= s < |d.posns| && c < BYTES
    ensures Move(re, d, s, c).0.clears == d.clears && Spare(re, Move(re, d, s, c).0, n)
  {
    hide Roomy, ListForm;
    MoveLands(re, d, s, c);
    if d.rows[s][c] == 0 {
      GotoLands(re, d, s, c);
      if |d.posns| + n + 1 > NSTATES {
        var lists :| Roomy(re, lists, d);
        GotoRoomy(re, lists, d, s, c);
      }
    }
  }

  lemma SpareLess(re: seq<Row>, d: Table, n: nat, m: nat)
    requires AutoOf(re).Valid() && Spare(re, d, n) && m <= n
    ensures Spare(re, d, m)
  {
  }
}
