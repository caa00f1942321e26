/** The lazily built automaton of cmd/awk/b.c: `mkdfa`, `makeinit`, `cgoto`, `match` and
    `pmatch` over a table of 32 states that is cleared when it fills up. Every method is the
    function of AwkTable or AwkMatch on the table as it stands.
 */
module AwkDfa {
  import opened AwkRegex
  import opened AwkGlushkov
  import opened AwkFollow
  import opened AwkTable
  import opened AwkMatch

  class Fa {
    const re: seq<Row>
    const accept: nat
    const anchor: bool
    const gototab: array2<nat>
    const posns: array<seq<nat>>
    const out: array<bool>
    const sets: PosSet
    var initstat: nat
    var curstat: nat
    var reset: bool

    /** The pattern, and the table as a value. */
    ghost const pat: Re
    ghost var table: Table

    /** The arrays have their sizes, and `re` belongs to the pattern. */
    ghost predicate Sized() {
      && Built(re, pat) && |re| == accept + 1
      && gototab.Length0 == NSTATES && gototab.Length1 == NCHARS
      && posns.Length == NSTATES && out.Length == NSTATES && sets.vec.Length == MAXLIN
    }

    /** The lists of the states are those of the table, and `out` marks the accepting ones. */
    ghost predicate SameLists()
      requires Sized()
      reads this`table, posns, out
    {
      && |table.posns| <= NSTATES
      && forall i :: 0 <= i < |table.posns| ==> posns[i] == table.posns[i] && (out[i] <==> Accepting(re, posns[i]))
    }

    ghost predicate SameRows()
      requires Sized()
      reads this`table, gototab
    {
      && Shaped(table)
      && forall s, c :: 1 <= s < |table.rows| && 0 <= c < BYTES ==> gototab[s, c] == table.rows[s][c]
    }

    /** The fields hold the table. */
    ghost predicate Agrees()
      reads this`table, this`initstat, this`curstat, this`reset, gototab, posns, out
    {
      && Sized() && Good(re, table) && SameLists() && SameRows()
      && 2 <= curstat == |table.posns| - 1 < NSTATES && |table.rows| == |table.posns| && initstat == table.initstat
      && reset == table.reset
    }

    /** Between calls. */
    ghost predicate Valid()
      reads this`table, this`initstat, this`curstat, this`reset, gototab, posns, out
    {
      Agrees() && Usable(re, pat, anchor, table)
    }

    ghost function Auto(): Auto
      requires AutoOf(re).Valid()
    {
      AutoOf(re)
    }

    // ---------- cgoto ----------

    /** Compute the positions of gototab[s, c] into setvec. */
    method Successors(s: nat, c: nat)
      requires Agrees() && 1 <= s <= curstat
      modifies sets, sets.vec
      ensures sets.Valid(accept + 1)
      ensures sets.marked == Step(Auto(), Elems(posns[s]), c)
    {
      var n := accept + 1;
      sets.Clear(n);
      var p := posns[s];
      assert Elems(p[..0]) == {};
      StepBelowWithin(Auto(), {}, c, n, {});
      var i := 0;
      while i < |p|
        invariant 0 <= i <= |p|
        invariant sets.Valid(n)
        invariant sets.marked == Step(Auto(), Elems(p[..i]), c)
      {
        assert p[i] in p;
        StepExtend(re, p, i, c);
        MarkMoves(p[i], c);
        i := i + 1;
      }
      assert p[..|p|] == p;
    }

    /** One position of the scan in `cgoto`. */
    method MarkMoves(p: nat, c: nat)
      requires GoodRows(re) && |re| == accept + 1 && p <= accept && sets.Valid(accept + 1)
      modifies sets, sets.vec
      ensures sets.Valid(accept + 1)
      ensures sets.marked == old(sets.marked) + Moves(Auto(), p, c)
    {
      var row := re[p];
      assert ListForm(row.lfollow, accept + 1);
      if row.kind != Final && Consumes(row.kind, c) {
        MarkAll(row.lfollow);
      }
    }

    method MarkAll(q: seq<nat>)
      requires sets.Valid(accept + 1) && forall p :: p in q ==> p <= accept
      modifies sets, sets.vec
      ensures sets.Valid(accept + 1)
      ensures sets.marked == old(sets.marked) + Elems(q)
    {
      hide PosSet.Valid;
      var j := 0;
      while j < |q|
        invariant 0 <= j <= |q|
        invariant sets.Valid(accept + 1)
        invariant sets.marked == old(sets.marked) + Elems(q[..j])
      {
        assert q[j] in q;
        assert Elems(q[..j + 1]) == Elems(q[..j]) + {q[j]};
        sets.Mark(q[j], accept + 1);
        j := j + 1;
      }
      assert q[..|q|] == q;
    }

    /** The successor set of `s` on `c` as a list. */
    method SuccessorList(s: nat, c: nat) returns (l: seq<nat>)
      requires Agrees() && 1 <= s <= curstat
      modifies sets, sets.vec
      ensures l == Next(re, posns[s], c) && ListForm(l, accept + 1)
    {
      Successors(s, c);
      l := sets.Listing(accept + 1);
      NextForm(re, posns[s], c);
    }

    /** The lowest-numbered state with list `l`, or 0. */
    method FindState(l: seq<nat>) returns (i: nat)
      requires Agrees()
      ensures i == Find(table.posns, l, 1)
    {
      i := 1;
      while i <= curstat
        invariant 1 <= i <= curstat + 1
        invariant Find(table.posns, l, 1) == Find(table.posns, l, i)
      {
        if posns[i] == l {
          return i;
        }
        i := i + 1;
      }
      i := 0;
    }

    /** Open row `t` for a new state with list `l`, reached from `s` on `c`. */
    method AddState(t: nat, l: seq<nat>, s: nat, c: nat)
      requires Sized() && 2 <= t < NSTATES && 1 <= s < NSTATES && c < NCHARS
      modifies gototab, posns, out
      ensures forall i :: 0 <= i < NSTATES && i != t ==> posns[i] == old(posns[i]) && out[i] == old(out[i])
      ensures posns[t] == l && (out[t] <==> Accepting(re, l))
      ensures forall i, d :: 0 <= i < NSTATES && 0 <= d < NCHARS ==>
        gototab[i, d] == if i == s && d == c then t else if i == t then 0 else old(gototab[i, d])
    {
      for d := 0 to NCHARS
        modifies gototab
        invariant forall i, e :: 0 <= i < NSTATES && 0 <= e < NCHARS ==>
          gototab[i, e] == if i == t && e < d then 0 else old(gototab[i, e])
      {
        gototab[t, d] := 0;
      }
      gototab[s, c] := t;
      posns[t] := l;
      out[t] := accept in l;
    }

    /** The successor is known: record it. */
    method Record(s: nat, c: nat, r: nat)
      requires Agrees() && 1 <= s <= curstat && c < NCHARS && 1 <= r <= curstat && (s == 1 ==> r == 1)
      modifies this`table, gototab
      ensures Agrees() && table == old(table).(rows := old(table).rows[s := Put(old(table).rows[s], c, r)])
    {
      gototab[s, c] := r;
      table := table.(rows := table.rows[s := Put(table.rows[s], c, r)]);
    }

    /** The successor is new and there is room: open the next state. */
    method Grow(s: nat, c: nat, l: seq<nat>)
      requires Agrees() && 2 <= s <= curstat < NSTATES - 1 && c < NCHARS && ListForm(l, accept + 1)
      modifies this`curstat, this`table, gototab, posns, out
      ensures Agrees() && curstat == old(curstat) + 1
      ensures table == old(table).(
        posns := old(table).posns + [l],
        rows := old(table).rows[s := Put(old(table).rows[s], c, curstat)] + [Blank()])
    {
      hide Next, Compiled, ListForm, Accepting;
      curstat := curstat + 1;
      AddState(curstat, l, s, c);
      table := table.(posns := table.posns + [l], rows := table.rows[s := Put(table.rows[s], c, curstat)] + [Blank()]);
    }

    /** The table is full: forget all states and make the successor state 2. The entry for
        `s` on `c` is then written into the row of that new state when `s` is 2. */
    method Spill(s: nat, c: nat, l: seq<nat>)
      requires Agrees() && 2 <= s <= curstat && c < NCHARS && ListForm(l, accept + 1)
      modifies this`curstat, this`reset, this`table, gototab, posns, out
      ensures Agrees() && curstat == 2 && reset
      ensures var d := old(table); var row := if s == 2 then Put(Blank(), c, 2) else Blank();
        table == Table(
          d.posns[..2] + [l], d.rows[..2] + [row], d.initstat, true, d.clears + 1, d.bad + if s == 2 then 1 else 0)
    {
      hide Next, Compiled, ListForm, Accepting;
      ghost var row := if s == 2 then Put(Blank(), c, 2) else Blank();
      curstat := 2;
      reset := true;
      AddState(curstat, l, s, c);
      table := Table(
        table.posns[..2] + [l], table.rows[..2] + [row], table.initstat, true, table.clears + 1,
        table.bad + if s == 2 then 1 else 0);
    }

    /** `cgoto`: the state of the successor list. A table that was sound is so afterwards, unless
        it was cleared while leaving state 2 on a byte and the new list does not lead to itself. */
    method Cgoto(s: nat, c: nat) returns (r: nat)
      requires Agrees() && 1 <= s <= curstat && c < NCHARS
      modifies this`curstat, this`reset, this`table, gototab, posns, out, sets, sets.vec
      ensures Agrees() && (table, r) == Goto(re, old(table), s, c)
      ensures 1 <= r <= curstat && posns[r] == old(Next(re, posns[s], c))
      ensures old(Sound(re, table)) ==>
        (Sound(re, table) <==>
            !old(WillClear(re, table, s, c)) || s != 2 || c == HAT || Next(re, posns[2], c) == posns[2])
    {
      hide Next, ListForm, Sound, Compiled, WillClear, Good, Shaped, Blank, Accepting;
      GotoLands(re, table, s, c);
      if Sound(re, table) { GotoExactly(re, table, s, c); }
      DeadFound(re, table, c);
      var tmpset := SuccessorList(s, c);
      r := FindState(tmpset);
      if r > 0 {
        Record(s, c, r);
      } else if curstat >= NSTATES - 1 {
        Spill(s, c, tmpset);
        r := curstat;
      } else {
        Grow(s, c, tmpset);
        r := curstat;
      }
    }

    // ---------- makeinit and mkdfa ----------

    /** State 2 holds follow(0), and nothing is known about its successors. */
    method OpenInitial()
      requires Agrees()
      modifies this`curstat, this`reset, this`table, gototab, posns, out
      ensures Agrees() && table == Only(old(table), re[0].lfollow)
    {
      hide Next, Compiled, ListForm, List, Restart, Start, Only, Blank, Good, Shaped, Accepting;
      BuiltParts(re, pat);
      curstat := 2;
      out[2] := false;
      reset := false;
      posns[2] := re[0].lfollow;
      HeadAccepts(re, Restart(pat));
      OnlyGood(re, table, re[0].lfollow);
      if posns[2][0] == accept {
        out[2] := true;
      }
      ClearRow(2);
      table := Only(table, re[0].lfollow);
    }

    method ClearRow(s: nat)
      requires Sized() && s < NSTATES
      modifies gototab
      ensures forall i, d :: 0 <= i < NSTATES && 0 <= d < NCHARS ==>
        gototab[i, d] == if i == s then 0 else old(gototab[i, d])
    {
      for c := 0 to NCHARS
        modifies gototab
        invariant forall i, d :: 0 <= i < NSTATES && 0 <= d < NCHARS ==>
          gototab[i, d] == if i == s && d < c then 0 else old(gototab[i, d])
      {
        gototab[s, c] := 0;
      }
    }

    /** `makeinit` */
    method MakeInit() returns (r: nat)
      requires Agrees()
      modifies this`curstat, this`reset, this`table, gototab, posns, out, sets, sets.vec
      ensures Agrees() && table == MadeInit(re, anchor, old(table)) && r == curstat
    {
      hide Next, Compiled, ListForm, SameRows, Good, Accepting;
      OpenInitial();
      ghost var d := table;
      r := Cgoto(2, HAT);
      FirstMove(re, pat, d);
      curstat := r;
      if anchor {
        LeaveOutZero();
      }
    }

    /** Anchored automata drop position 0 from states 2 and `curstat`, and keep a copy of
        state 2 in state 0. */
    method LeaveOutZero()
      requires Agrees() && curstat <= 3 && posns[2] != [] && posns[curstat] != []
      requires posns[2][|posns[2]| - 1] == 0 && posns[curstat][|posns[curstat]| - 1] == 0
      modifies this`table, posns, out
      ensures Agrees() && table == LeftOut(old(table))
    {
      hide Next, Compiled, ListForm, Good, Shaped, LeftOut, Accepting;
      BuiltParts(re, pat);
      assert posns[2] == table.posns[2] && posns[curstat] == table.posns[curstat];
      LeftOutGood(re, table);
      DropZero();
      table := LeftOut(table);
    }

    method DropZero()
      requires Sized() && 2 <= curstat <= 3 && posns[2] != [] && posns[curstat] != []
      modifies posns, out
      ensures posns[0] == posns[2] == LeaveOut(true, old(posns[2])) && posns[1] == old(posns[1])
      ensures curstat == 3 ==> posns[3] == LeaveOut(true, old(posns[3]))
      ensures out[0] == out[2] == old(out[2]) && out[1] == old(out[1]) && out[3] == old(out[3])
    {
      hide Next, Built;
      posns[2] := posns[2][..|posns[2]| - 1];
      posns[0] := posns[2];
      out[0] := out[2];
      if curstat != 2 {
        posns[curstat] := posns[curstat][..|posns[curstat]| - 1];
      }
    }

    constructor (rows: seq<Row>, anchored: bool, ghost r: Re)
      requires Built(rows, r)
      ensures Valid() && !reset && initstat == BeginState(re, pat)
      ensures re == rows && pat == r && anchor == anchored
      ensures table == MadeInit(re, anchor, Unmade()).(initstat := BeginState(re, pat))
      ensures fresh(gototab) && fresh(posns) && fresh(out) && fresh(sets) && fresh(sets.vec)
    {
      hide Unmade, Blank, Good, Shaped, Accepting, Compiled, Valid;
      re := rows;
      accept := |rows| - 1;
      anchor := anchored;
      gototab := new nat[NSTATES, NCHARS]((i, j) => 0);
      posns := new seq<nat>[NSTATES](i => []);
      out := new bool[NSTATES](i => false);
      sets := new PosSet();
      curstat, reset, initstat := 2, false, 2;
      pat, table := r, Unmade();
      new;
      UnmadeGood(re);
      FirstInit();
    }

    /** The first `makeinit`, which `mkdfa` takes the initial state from. */
    method FirstInit()
      requires Agrees() && table == Unmade()
      modifies this`initstat, this`curstat, this`reset, this`table, gototab, posns, out, sets, sets.vec
      ensures Valid() && !reset && initstat == BeginState(re, pat)
      ensures table == MadeInit(re, anchor, Unmade()).(initstat := BeginState(re, pat))
    {
      hide Next, Compiled, MadeInit, Usable, BeginState, ListForm, Unmade, Good, Shaped, Accepting;
      UnmadeUsable(re, pat, anchor);
      initstat := MakeInit();
      table := table.(initstat := initstat);
    }

    /** `mkdfa`: compile a parsed pattern; null when it has too many positions. */
    static method MakeDfa(r: Re, anchored: bool) returns (f: Fa?)
      requires !HasFinal(r)
      ensures f == null <==> LeafCount(r) + 2 > MAXLIN
      ensures f != null ==>
          fresh(f) && fresh(f.gototab) && fresh(f.posns) && fresh(f.out) && fresh(f.sets) && fresh(f.sets.vec)
      ensures f != null ==> f.Valid() && !f.reset && f.initstat == BeginState(f.re, r)
      ensures f != null ==> f.pat == r && f.anchor == anchored
      ensures f != null ==> f.table == MadeInit(f.re, anchored, Unmade()).(initstat := f.initstat)
    {
      hide Unmade, MadeInit, Usable, Good;
      var p1 := Cat(Cat(Star(Leaf(All, 0)), r), Leaf(Final, 0));
      WrappedIsNumbered(r, p1.l.l.x, p1.r, 0);
      var entered := Penter(p1, 0);
      if entered.TooBig? {
        return null;
      }
      var rows := new Row[entered.poscnt](i => Row(Final, []));
      var ps := new PosSet();
      FollowStaysInTree(r, 1, Leaf(All, 0), Leaf(Final, LeafCount(r) + 1));
      WrappedBelow(r);
      EnterFollow(rows, ps, entered.tree, Root);
      ghost var a := AutoOf(rows[..]);
      assert Wired(a, Wrapped(r), {});
      assert Wired(a, Leaf(Final, LeafCount(r) + 1), {});
      assert a.kinds[LeafCount(r) + 1] == Final;
      WrappedLeaves(r);
      f := new Fa(rows[..], anchored, r);
    }

    // ---------- match ----------

    /** Leave state `s` on byte `c`, through the table or through `cgoto`. */
    method Advance(s: nat, c: nat) returns (r: nat)
      requires Agrees() && 1 <= s <= curstat && c < BYTES
      modifies this`curstat, this`reset, this`table, gototab, posns, out, sets, sets.vec
      ensures Agrees() && (table, r) == Move(re, old(table), s, c)
    {
      if gototab[s, c] != 0 {
        r := gototab[s, c];
      } else {
        r := Cgoto(s, c);
      }
    }

    /** The state that a search begins in. */
    method Begin() returns (s: nat)
      requires Valid()
      modifies this`curstat, this`reset, this`table, gototab, posns, out, sets, sets.vec
      ensures Agrees() && (table, s) == Started(re, anchor, old(table))
    {
      s := initstat;
      if reset {
        s := MakeInit();
      }
    }

    /** `match`: what the table makes of the text. With room for so many moves, and whenever the
        table was not cleared while leaving state 2, that is whether the pattern occurs. */
    method Match(str: seq<nat>) returns (res: bool)
      requires Valid() && !anchor && (reset || initstat == BeginState(re, pat))
      requires Text(str)
      modifies this`curstat, this`reset, this`table, gototab, posns, out, sets, sets.vec
      ensures Valid() && (table, res) == Matched(re, pat, old(table), str)
      ensures table.bad == old(table).bad ==> (res <==> Occurs(pat, str))
      ensures old(Calm(re, false, table, |str| + 1)) ==>
        (res <==> Occurs(pat, str)) && table.clears == old(table).clears
    {
      hide Usable, Occurs, Calm, Matched, Started, Good;
      MatchedAnswers(re, pat, table, str);
      MatchedStart(re, pat, table, str);
      ghost var goal := Matched(re, pat, table, str);
      var t := Rest(str, 0);
      var s := Begin();
      if out[s] {
        return true;
      }
      var k := 0;
      while k < |t|
        invariant 0 <= k <= |t| && Agrees() && 1 <= s <= curstat
        invariant MatchFrom(re, table, s, t, k) == goal
      {
        s := Advance(s, t[k]);
        if out[s] {
          return true;
        }
        k := k + 1;
      }
      res := false;
    }

    // ---------- pmatch ----------

    /** The inner loop of `pmatch`: the longest match beginning at `p`, or -1. */
    method Scan(s0: nat, str: seq<nat>, p: nat) returns (patlen: int)
      requires Agrees() && 1 <= s0 <= curstat && p <= |str| && Text(str)
      modifies this`curstat, this`reset, this`table, gototab, posns, out, sets, sets.vec
      ensures Agrees() && (table, patlen) == ScanFrom(re, old(table), s0, Rest(str, p), 0, -1)
    {
      hide Good, Move, Later;
      ghost var goal := ScanFrom(re, table, s0, Rest(str, p), 0, -1);
      var t := Rest(str, p);
      var s := s0;
      patlen := -1;
      var q := 0;
      while q < |t|
        invariant 0 <= q <= |t| && Agrees() && 1 <= s <= curstat && -1 <= patlen < q && patlen < |t|
        invariant ScanFrom(re, table, s, t, q, patlen) == goal
      {
        if out[s] {
          patlen := q;
        }
        s := Advance(s, t[q]);
        if s == 1 {
          return;
        }
        q := q + 1;
      }
      if out[s] {
        patlen := q - 1;
      }
    }

    /** After an unsuccessful attempt with a cleared table: state 2 again holds what is
        active inside the text. */
    method Rebuild()
      requires Agrees() && ListForm(table.posns[0], accept + 1)
      modifies this`curstat, this`initstat, this`table, gototab, posns, out
      ensures Agrees() && table == Rebuilt(old(table))
    {
      hide Next, Compiled, ListForm, Accepting;
      posns[2] := posns[0];
      initstat := 2;
      curstat := 2;
      out[2] := out[0];
      ClearRow(2);
      table := Rebuilt(table);
    }

    /** `pmatch`: what the table makes of the text. With room for so many moves, and whenever the
        table was not cleared while leaving state 2, that is the leftmost match and the longest one
        there. `^` can match in front of `str` unless `initstat` has been moved to state 2. */
    method PMatch(str: seq<nat>) returns (found: bool, patbeg: nat, patlen: int)
      requires Valid() && anchor
      requires Text(str)
      modifies this`curstat, this`initstat, this`reset, this`table, gototab, posns, out, sets, sets.vec
      ensures Valid() && Search(table, found, patbeg, patlen) == PMatched(re, pat, old(table), str)
      ensures found ==> 0 <= patlen && patbeg + patlen <= |str|
      ensures table.clears >= old(table).clears && (initstat == old(initstat) || (reset && initstat == 2))
      ensures table.clears == old(table).clears ==> table.bad == old(table).bad && initstat == old(initstat) && !reset
      ensures table.bad == old(table).bad ==>
        LeftmostLongest(pat, str, old(reset || initstat == BeginState(re, pat)), found, patbeg, patlen)
      ensures old(Calm(re, true, table, Work(|str|))) ==>
        && LeftmostLongest(pat, str, old(reset || initstat == BeginState(re, pat)), found, patbeg, patlen)
        && table.clears == old(table).clears
    {
      hide Usable, LeftmostLongest, Calm, PMatched, Started, Good, ScanFrom, SameRows, SameLists;
      PMatchedAnswers(re, pat, table, str);
      PMatchedStart(re, pat, table, str);
      ghost var goal := PMatched(re, pat, table, str);
      var s := Begin();
      patbeg, patlen := 0, -1;
      var p := 0;
      while p <= |str|
        invariant 0 <= p <= |str| + 1 && Agrees() && 1 <= s <= curstat && patbeg == 0 && patlen == -1
        invariant ListForm(table.posns[0], accept + 1)
        invariant if p <= |str| then SearchFrom(re, table, s, str, p) == goal else Search(table, false, 0, -1) == goal
      {
        patlen := Scan(s, str, p);
        if patlen >= 0 {
          return true, p, patlen;
        }
        s := 2;
        if reset {
          Rebuild();
        }
        p := p + 1;
      }
      found := false;
    }
  }

  /** The table that `mkdfa` allocates. */
  function Unmade(): Table {
    Table([[], [], []], [[], Blank(), Blank()], 2, false, 0, 0)
  }

  lemma UnmadeGood(re: seq<Row>)
    ensures Good(re, Unmade()) && Shaped(Unmade()) && |Unmade().posns| == 3 && Unmade().initstat == 2 && !Unmade().reset
      && (forall i :: 0 <= i < 3 ==> Unmade().posns[i] == []) && !Accepting(re, [])
    ensures forall s, c :: 1 <= s < 3 && 0 <= c < BYTES ==> Unmade().rows[s][c] == 0
  {
    EmptyListForm(|re|);
  }

  /** State 2 with a list and an empty row. */
  function Only(d: Table, l: seq<nat>): Table
    requires |d.posns| >= 2 && |d.rows| >= 2
  {
    Table(d.posns[..2] + [l], d.rows[..2] + [Blank()], d.initstat, false, d.clears, d.bad)
  }

  lemma OnlyGood(re: seq<Row>, d: Table, l: seq<nat>)
    requires Good(re, d) && ListForm(l, |re|)
    ensures var e := Only(d, l);
      && Good(re, e) && Shaped(e) && |e.posns| == 3 && e.initstat == d.initstat && !e.reset && e.posns[2] == l
      && e.posns[0] == d.posns[0] && e.posns[1] == d.posns[1]
      && (forall c :: 0 <= c < BYTES ==> e.rows[1][c] == d.rows[1][c] && e.rows[2][c] == 0)
  {
  }

  /** The table that `mkdfa` returns. */
  lemma {:induction false} UnmadeUsable(re: seq<Row>, r: Re, anchor: bool)
    requires Built(re, r)
    ensures Good(re, Unmade())
    ensures var d := MadeInit(re, anchor, Unmade());
      && |d.posns| == BeginState(re, r) + 1 && Good(re, d.(initstat := BeginState(re, r)))
      && Shaped(d.(initstat := BeginState(re, r)))
      && Usable(re, r, anchor, d.(initstat := BeginState(re, r))) && !d.reset
  {
    hide Next, Compiled, Unmade, ListForm;
    UnmadeGood(re);
    MadeInitFit(re, r, anchor, Unmade());
  }

  /** Position 0 is last in its list, so the head tells whether follow(0) accepts. */
  lemma HeadAccepts(re: seq<Row>, s: set<nat>)
    requires |re| > 1 && s != {} && forall p :: p in s ==> 0 < p < |re|
    ensures var l := List(re, s) + [0]; l[0] == |re| - 1 <==> Accepting(re, l)
  {
    DescendingIs(s, |re|);
    ListWithZero(re, s);
    var l := List(re, s);
    if |re| - 1 in l {
      var i :| 0 <= i < |l| && l[i] == |re| - 1;
      assert l[0] in l;
    }
  }

  /** What `cgoto` does on HAT in a table with state 2 alone. */
  lemma FirstMove(re: seq<Row>, r: Re, d: Table)
    requires Built(re, r) && Good(re, d) && |d.posns| == 3 && d.posns[2] == re[0].lfollow && d.rows[2] == Blank()
    ensures var l, h := re[0].lfollow, Next(re, re[0].lfollow, HAT);
      && l != [] && l[|l| - 1] == 0 && h != [] && h[|h| - 1] == 0
      && Goto(re, d, 2, HAT) == if h == l then (d, 2) else (d.(posns := d.posns + [h], rows := d.rows + [Blank()]), 3)
  {
    BuiltParts(re, r);
    var h := Next(re, re[0].lfollow, HAT);
    FindsFrom(d.posns, h);
    assert d.rows[2 := d.rows[2]] == d.rows;
  }

  /** The table of an anchored automaton, without position 0. */
  function LeftOut(d: Table): Table
    requires 3 <= |d.posns| <= 4
  {
    d.(posns := [LeaveOut(true, d.posns[2]), d.posns[1], LeaveOut(true, d.posns[2])]
      + (if |d.posns| == 3 then [] else [LeaveOut(true, d.posns[3])]))
  }

  lemma {:induction false} LeftOutGood(re: seq<Row>, d: Table)
    requires Good(re, d) && |re| > 1 && 3 <= |d.posns| <= 4
    requires forall i :: 2 <= i < |d.posns| ==> d.posns[i] != [] && d.posns[i][|d.posns[i]| - 1] == 0
    ensures var e := LeftOut(d);
      && Good(re, e) && Shaped(e) && |e.posns| == |d.posns| && e.rows == d.rows && e.initstat == d.initstat
      && e.reset == d.reset
      && e.posns[0] == e.posns[2] && e.posns[1] == d.posns[1]
      && e.posns[2] == LeaveOut(true, d.posns[2]) && (Accepting(re, e.posns[2]) <==> Accepting(re, d.posns[2]))
      && (|d.posns| == 4 ==>
          e.posns[3] == LeaveOut(true, d.posns[3]) && (Accepting(re, e.posns[3]) <==> Accepting(re, d.posns[3])))
  {
    forall i | 2 <= i < |d.posns|
      ensures ListForm(LeaveOut(true, d.posns[i]), |re|)
        && (Accepting(re, LeaveOut(true, d.posns[i])) <==> Accepting(re, d.posns[i]))
    {
      ZeroLast(re, d.posns[i]);
    }
  }

  lemma ZeroLast(re: seq<Row>, l: seq<nat>)
    requires ListForm(l, |re|) && |re| > 1 && l != [] && l[|l| - 1] == 0
    ensures ListForm(LeaveOut(true, l), |re|) && (Accepting(re, LeaveOut(true, l)) <==> Accepting(re, l))
  {
    var s := Elems(l) - {0};
    DescendingIs(Elems(l), |re|);
    assert l == Descending(Elems(l), |re|);
    assert 0 in Elems(l) && Elems(l) == {0} + s;
    ListWithZero(re, s);
    assert l == List(re, s) + [0];
  }

  lemma WrappedLeaves(r: Re)
    ensures forall q :: q in Leaves(Wrapped(r)) <==> 0 <= q < LeafCount(r) + 2
  {
    NumberedKeeps(r, 1);
    var star := Star(Leaf(All, 0));
    assert Leaves(star) == {0};
    assert Leaves(Cat(star, Numbered(r, 1))) == {0} + Leaves(Numbered(r, 1));
  }
}
