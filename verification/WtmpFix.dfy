/** Correcting login records for changes of the clock (cmd/acct/wtmpfix.c). Positions count
    records.
 */
module WtmpFix {
  datatype Kind = BOOT_TIME | OLD_TIME | NEW_TIME | RunLevelS | RunLevel2 | Other
  datatype Utmp = Utmp(kind: Kind, time: int)

  // ---------- what the correction should be ----------

  /** The start of the boot epoch of record i. */
  function Epoch(w: seq<Utmp>, i: nat): (b: nat)
    requires i < |w|
    ensures b <= i
  {
    if i == 0 || w[i].kind == BOOT_TIME then i else Epoch(w, i - 1)
  }

  /** The multiuser count when record i is read. */
  function Multi(w: seq<Utmp>, i: nat): nat
    requires i <= |w|
  {
    if i == 0 then 0
    else if w[i - 1].kind == RunLevelS then 0
    else if w[i - 1].kind == RunLevel2 then Multi(w, i - 1) + 1
    else Multi(w, i - 1)
  }

  /** The epoch begins with the last boot up to the record, or with the file. */
  lemma {:induction false} EpochExactly(w: seq<Utmp>, i: nat, e: nat)
    requires i < |w|
    ensures e == Epoch(w, i) <==>
      e <= i && (e == 0 || w[e].kind == BOOT_TIME) && forall j :: e < j <= i ==> w[j].kind != BOOT_TIME
  {
    if i > 0 && w[i].kind != BOOT_TIME { EpochExactly(w, i - 1, e); }
  }

  /** Multiuser mode was entered at record j, and single user mode not since. */
  ghost predicate EnteredAt(w: seq<Utmp>, i: nat, j: nat)
    requires i <= |w|
  {
    j < i && w[j].kind == RunLevel2 && forall k :: j < k < i ==> w[k].kind != RunLevelS
  }

  lemma {:induction false} MultiExactly(w: seq<Utmp>, i: nat)
    requires i <= |w|
    ensures Multi(w, i) > 0 <==> exists j: nat :: EnteredAt(w, i, j)
  {
    if i > 0 {
      var n := i - 1;
      MultiExactly(w, n);
      if w[n].kind == RunLevel2 {
        assert EnteredAt(w, i, n);
      } else if w[n].kind != RunLevelS {
        if j: nat :| EnteredAt(w, n, j) { assert EnteredAt(w, i, j); }
        if j: nat :| EnteredAt(w, i, j) { assert EnteredAt(w, n, j); }
      }
    }
  }

  /** Every old date is followed by a new one. */
  ghost predicate Paired(w: seq<Utmp>, n: nat)
    requires n <= |w|
  {
    forall p :: 0 <= p < n && w[p].kind == OLD_TIME ==> p + 1 < |w| && w[p + 1].kind == NEW_TIME
  }

  /** A change of the date in multiuser mode. */
  predicate IsChange(w: seq<Utmp>, p: nat)
    requires p < |w|
  {
    w[p].kind == OLD_TIME && p + 1 < |w| && Multi(w, p) > 0
  }

  function Shift(w: seq<Utmp>, p: nat): int
    requires p < |w|
  {
    if IsChange(w, p) then w[p + 1].time - w[p].time else 0
  }

  /** The changes at positions a .. b - 1 in the epoch that starts at e. */
  function Shifts(w: seq<Utmp>, e: nat, a: nat, b: nat): int
    requires a <= b <= |w|
    decreases b - a
  {
    if a == b then 0 else Shifts(w, e, a, b - 1) + if Epoch(w, b - 1) == e then Shift(w, b - 1) else 0
  }

  /** The time of record i after all later changes in its epoch. */
  function Adjusted(w: seq<Utmp>, i: nat): int
    requires i < |w|
  {
    w[i].time + Shifts(w, Epoch(w, i), i + 1, |w|)
  }

  // ---------- the list of intervals ----------

  datatype Dtab = Dtab(off1: nat, off2: nat, adj: int)

  /** What the intervals add to record i. */
  function Added(d: seq<Dtab>, i: nat): int {
    if d == [] then 0
    else Added(d[..|d| - 1], i) + (if d[|d| - 1].off1 <= i < d[|d| - 1].off2 then d[|d| - 1].adj else 0)
  }

  lemma {:induction false} AddedNext(d: seq<Dtab>, x: Dtab, i: nat)
    ensures Added(d + [x], i) == Added(d, i) + if x.off1 <= i < x.off2 then x.adj else 0
  {
    assert (d + [x])[..|d|] == d;
  }

  /** A record is in the interval of a change exactly if it is before it in the same epoch. */
  lemma {:induction false} SameEpoch(w: seq<Utmp>, i: nat, p: nat)
    requires i < p < |w|
    ensures Epoch(w, p) <= i <==> Epoch(w, p) == Epoch(w, i)
  {
    if w[p].kind == BOOT_TIME {
    } else if i == p - 1 {
    } else {
      SameEpoch(w, i, p - 1);
    }
  }

  /** The closed intervals stand for the changes among the first n records. */
  ghost predicate Closed(d: seq<Dtab>, w: seq<Utmp>, n: nat) {
    n <= |w| && forall i :: 0 <= i < |w| ==> Added(d, i) == Before(w, i, n)
  }

  function Before(w: seq<Utmp>, i: nat, n: nat): int
    requires i < |w| && n <= |w|
  {
    if n <= i then 0 else Shifts(w, Epoch(w, i), i + 1, n)
  }

  /** A record that is no change adds nothing. */
  lemma {:induction false} ClosedSkips(d: seq<Dtab>, w: seq<Utmp>, n: nat)
    requires Closed(d, w, n) && n < |w| && Shift(w, n) == 0
    ensures Closed(d, w, n + 1)
  {
  }

  /** A change closes an interval from the start of its epoch. */
  lemma {:induction false} ClosedChange(d: seq<Dtab>, w: seq<Utmp>, n: nat)
    requires Closed(d, w, n) && n < |w|
    ensures Closed(d + [Dtab(Epoch(w, n), n, Shift(w, n))], w, n + 1)
  {
    var x := Dtab(Epoch(w, n), n, Shift(w, n));
    forall i | 0 <= i < |w| ensures Added(d + [x], i) == Before(w, i, n + 1) {
      AddedNext(d, x, i);
      if i < n { SameEpoch(w, i, n); }
    }
  }

  // ---------- the program ----------

  class Wtmp {
    const w: seq<Utmp>
    var dtab: seq<Dtab>
    var multimode: nat
    var recno: nat
    var temp: seq<Utmp>

    constructor (records: seq<Utmp>)
      ensures w == records && Valid() && recno == 0
    {
      w, dtab, multimode, recno, temp := records, [], 0, 0, [];
    }

    /** The last interval is open, and begins with the epoch. */
    ghost predicate Valid()
      reads this
    {
      && recno <= |w| && multimode == Multi(w, recno) && temp == w[..recno] && Paired(w, recno)
      && (dtab == [] <==> recno == 0)
      && (recno > 0 ==> Open(dtab, w, recno - 1) && Closed(dtab[..|dtab| - 1], w, recno))
    }

    /** `mkdtab` */
    method Mkdtab(p: nat)
      modifies this`dtab
      ensures dtab == (if old(dtab) == [] then [Dtab(p, 0, 0)]
        else old(dtab)[|old(dtab)| - 1 := old(dtab)[|old(dtab)| - 1].(off1 := p)])
    {
      if dtab == [] {
        dtab := [Dtab(0, 0, 0)];
      }
      var last := |dtab| - 1;
      dtab := dtab[last := dtab[last].(off1 := p)];
    }

    /** `setdtab` */
    method Setdtab(p: nat, old1: Utmp, new2: Utmp)
      requires dtab != []
      modifies this`dtab
      ensures var n := |old(dtab)| - 1;
        dtab == old(dtab)[..n] + [Dtab(old(dtab)[n].off1, p, new2.time - old1.time)] + [Dtab(old(dtab)[n].off1, 0, 0)]
    {
      var last := |dtab| - 1;
      dtab := dtab[last := dtab[last].(off2 := p, adj := new2.time - old1.time)];
      dtab := dtab + [Dtab(dtab[last].off1, 0, 0)];
    }

    /** The start of the loop of `scanfile`: the open interval begins with the epoch. */
    method Enter(ut: Utmp)
      requires Valid() && recno < |w| && ut == w[recno]
      modifies this`dtab, this`multimode
      ensures Open(dtab, w, recno) && Closed(dtab[..|dtab| - 1], w, recno) && multimode == Multi(w, recno + 1)
    {
      if recno == 0 || ut.kind == BOOT_TIME {
        Mkdtab(recno);
      }
      assert recno > 0 ==> dtab[..|dtab| - 1] == old(dtab)[..|old(dtab)| - 1];
      if ut.kind == RunLevelS {
        multimode := 0;
      }
      if ut.kind == RunLevel2 {
        multimode := multimode + 1;
      }
    }

    /** One turn of the loop of `scanfile`; false if an old date is not followed by a new one. */
    method Turn() returns (ok: bool)
      requires Valid() && recno < |w|
      modifies this
      ensures ok ==> Valid() && recno > old(recno)
      ensures !ok ==> !Paired(w, |w|)
    {
      hide Open, Epoch;
      var ut := w[recno];
      Enter(ut);
      if ut.kind != OLD_TIME {
        ClosedSkips(dtab[..|dtab| - 1], w, recno);
        temp := temp + [ut];
        recno := recno + 1;
        return true;
      }
      if recno + 1 == |w| || w[recno + 1].kind != NEW_TIME {
        return false;
      }
      Change(ut, w[recno + 1]);
      temp := temp + [ut] + [w[recno + 1]];
      recno := recno + 2;
      ok := true;
    }

    /** A pair of dates. */
    method Change(ut: Utmp, ut2: Utmp)
      requires recno + 1 < |w| && ut == w[recno] && ut2 == w[recno + 1] && ut.kind == OLD_TIME && ut2.kind == NEW_TIME
      requires multimode == Multi(w, recno + 1) && Open(dtab, w, recno) && Closed(dtab[..|dtab| - 1], w, recno)
      modifies this`dtab
      ensures Open(dtab, w, recno + 1) && Closed(dtab[..|dtab| - 1], w, recno + 2)
    {
      ghost var n := |dtab| - 1;
      if multimode > 0 {
        ClosedChange(dtab[..n], w, recno);
        Setdtab(recno, ut, ut2);
        assert dtab[..|dtab| - 1] == old(dtab)[..n] + [Dtab(Epoch(w, recno), recno, Shift(w, recno))];
      } else {
        ClosedSkips(dtab[..n], w, recno);
      }
      ClosedSkips(dtab[..|dtab| - 1], w, recno + 1);
    }

    /** `scanfile` */
    method ScanFile() returns (ok: bool)
      requires Valid()
      modifies this
      ensures ok <==> Paired(w, |w|)
      ensures ok ==> Valid() && recno == |w|
    {
      while recno < |w|
        invariant Valid()
        decreases |w| - recno
      {
        ok := Turn();
        if !ok {
          return;
        }
      }
      ok := true;
    }

    /** `adjust` */
    method Adjust(p: nat, ut: Utmp) returns (r: Utmp)
      ensures r == ut.(time := ut.time + Added(dtab, p))
    {
      r := ut;
      for i := 0 to |dtab|
        invariant r == ut.(time := ut.time + Added(dtab[..i], p))
      {
        AddedNext(dtab[..i], dtab[i], p);
        assert dtab[..i] + [dtab[i]] == dtab[..i + 1];
        if dtab[i].adj == 0 {
          continue;
        }
        if p >= dtab[i].off1 && p < dtab[i].off2 {
          r := r.(time := r.time + dtab[i].adj);
        }
      }
      assert dtab[..|dtab|] == dtab;
    }

    /** `main`: reads the records, and writes them with their times corrected. */
    method Fix() returns (ok: bool, out: seq<Utmp>)
      requires Valid()
      modifies this
      ensures ok <==> Paired(w, |w|)
      ensures ok ==> |out| == |w| && forall i :: 0 <= i < |w| ==> out[i] == w[i].(time := Adjusted(w, i))
    {
      out := [];
      ok := ScanFile();
      if !ok {
        return;
      }
      for p := 0 to |temp|
        invariant Valid() && recno == |w| && |out| == p
        invariant forall i :: 0 <= i < p ==> out[i] == w[i].(time := Adjusted(w, i))
      {
        AllClosed(dtab, w, p);
        var ut := Adjust(p, temp[p]);
        out := out + [ut];
      }
    }
  }

  /** The last interval adds nothing yet and begins with the epoch of record n. */
  ghost predicate Open(d: seq<Dtab>, w: seq<Utmp>, n: nat)
    requires n < |w|
  {
    d != [] && d[|d| - 1] == Dtab(Epoch(w, n), 0, 0)
  }

  lemma AllClosed(d: seq<Dtab>, w: seq<Utmp>, i: nat)
    requires i < |w| && Open(d, w, |w| - 1) && Closed(d[..|d| - 1], w, |w|)
    ensures w[i].time + Added(d, i) == Adjusted(w, i)
  {
    AddedNext(d[..|d| - 1], d[|d| - 1], i);
    assert d[..|d| - 1] + [d[|d| - 1]] == d;
  }

  // ---------- clocks ----------

  /** The time of record i on the clock that its epoch ends with: record i was written after the
      changes before it and before its own and the later ones. */
  function OnFinalClock(w: seq<Utmp>, i: nat): int
    requires i < |w|
  {
    w[i].time + Shifts(w, Epoch(w, i), 0, |w|) - Shifts(w, Epoch(w, i), 0, i)
  }

  lemma {:induction false} ShiftsSplit(w: seq<Utmp>, e: nat, a: nat, b: nat, c: nat)
    requires a <= b <= c <= |w|
    ensures Shifts(w, e, a, c) == Shifts(w, e, a, b) + Shifts(w, e, b, c)
    decreases c - b
  {
    if b < c { ShiftsSplit(w, e, a, b, c - 1); }
  }

  /** Every record ends on the final clock of its epoch, except the old date of a change: it is
      left out of its own interval. */
  lemma {:induction false} FinalClockExactly(w: seq<Utmp>, i: nat)
    requires i < |w|
    ensures Adjusted(w, i) == OnFinalClock(w, i) - Shift(w, i)
    ensures Adjusted(w, i) == OnFinalClock(w, i) <==> !IsChange(w, i) || w[i + 1].time == w[i].time
  {
    var e := Epoch(w, i);
    ShiftsSplit(w, e, 0, i, |w|);
    ShiftsSplit(w, e, i, i + 1, |w|);
    assert Shifts(w, e, i, i) == 0;
  }

  /** Multiuser mode at 90, and at 100 the clock is set to 160. */
  function ClockSet(): seq<Utmp> {
    [Utmp(RunLevel2, 90), Utmp(OLD_TIME, 100), Utmp(NEW_TIME, 160)]
  }

  /** The earlier record is put on the new clock, the old date is not: the file then says that
      the clock was set at 100, before the mode was entered at 150. */
  lemma {:induction false} OldDateStays()
    ensures Adjusted(ClockSet(), 0) == OnFinalClock(ClockSet(), 0) == 150
    ensures Adjusted(ClockSet(), 1) == 100 && OnFinalClock(ClockSet(), 1) == 160
  {
    var w := ClockSet();
    assert Multi(w, 1) == 1 && Epoch(w, 0) == Epoch(w, 1) == Epoch(w, 2) == 0;
    assert Shift(w, 0) == 0 && Shift(w, 1) == 60 && Shift(w, 2) == 0;
    assert Shifts(w, 0, 1, 3) == Shifts(w, 0, 1, 2) + Shift(w, 2)
      && Shifts(w, 0, 1, 2) == Shifts(w, 0, 1, 1) + Shift(w, 1);
    FinalClockExactly(w, 0);
    FinalClockExactly(w, 1);
  }
}
