/** When the file can still come through (cmd/bnu/gio.c, cmd/bnu/pk0.c, cmd/bnu/pk1.c): in
    whatever state the two ends and the line are, there is a way for the rest of the file to
    arrive, unless every input buffer of the reader has been lost with the body of a frame.
 */
module GioLive {
  import opened PkPack
  import opened PkRun
  import opened Gio

  /** The reader has nothing to deliver or to look at, and no buffer for another packet. */
  predicate Stuck(b: Pk) {
    b.pool == 0 && b.pending == 8 && b.rcount <= 0
  }

  // ---------- a reader without buffers ----------

  /** An end that only the writing half of `struct pack` and the flags tell from `b`. */
  predicate SameInput(b: Pk, r: Pk) {
    r.ins == b.ins && r.pr == b.pr && r.rcount == b.rcount && r.pool == b.pool && r.pending == b.pending
    && r.rsize == b.rsize && r.rwindow == b.rwindow
  }

  lemma {:induction false} SackInput(b: Pk, x: nat)
    requires b.Shaped() && x < 8
    ensures SameInput(b, SackFrom(b, x)) && SackFrom(b, x).rpr == b.rpr
    decreases Ahead(x, b.rpr)
  {
    if x != b.rpr {
      var y := Next(x);
      var p' := if b.os[y].Full? && b.os[y].sent
                then b.(os := b.os[y := Empty], xcount := b.xcount - 1, ps := y)
                else b;
      SackInput(p', y);
    }
  }

  lemma OutputInput(b: Pk)
    requires b.Shaped()
    ensures SameInput(b, Output(b).0) && Output(b).0.rpr == b.rpr
  {
  }

  lemma ControlInput(b: Pk, f: Frame)
    requires b.Shaped() && f.Ctl? && f.ack < 8
    ensures SameInput(b, ReceiveControl(b, f).0) && ReceiveControl(b, f).0.rpr == f.ack
  {
    hide SackFrom, Output;
    var p := (if f.kind == RJ then b.(rxmit := true, msgRR := true) else b).(rpr := f.ack);
    SackInput(p, p.ps);
    OutputInput(Sack(p));
  }

  /** The second scan finds nothing. */
  lemma {:induction false} SettleFree(b: Pk, k: nat, gap: bool, count: nat)
    requires b.Shaped() && 1 <= k && forall x :: 0 <= x < 8 ==> b.ins[x].Free?
    ensures Settle(b, k, gap, count) == b.(rcount := count)
    decreases if k <= b.rwindow then b.rwindow - k + 1 else 0
  {
    if k <= b.rwindow {
      SettleFree(b, k + 1, true, count);
    }
  }

  /** With nothing accepted and nothing pending, every input slot is free. */
  lemma OkFree(s: Sys)
    requires Ok(s) && s.b.pending == 8 && s.b.rcount <= 0
    ensures s.b.Shaped() && forall x :: 0 <= x < 8 ==> s.b.ins[x].Free?
  {
    var h :| Good(s, h);
    forall x | 0 <= x < 8
      ensures s.b.ins[x].Free?
    {
      var k := Distance(h.prn, x);
    }
  }

  /** No event gives the reader a buffer back. */
  lemma StuckStays(s: Sys, e: Event)
    requires Ok(s) && Wf(s) && Enabled(s, e) && !e.ReadB? && Stuck(s.b)
    ensures Stuck(Do(s, e).b)
  {
    hide Ok, Output, SackFrom, Settle;
    OkFree(s);
    match e
    case RecvB =>
      var f := s.ab[0];
      assert f in s.ab;
      if f.Data? { SackInput(s.b.(rpr := f.ack), s.b.ps); } else if f.Ctl? { ControlInput(s.b, f); }
    case LoseBodyB =>
      assert s.ab[0] in s.ab;
      SackInput(s.b.(rpr := s.ab[0].ack), s.b.ps);
    case TimeoutB => OutputInput(s.b.(msgRR := s.b.msgRR || !s.b.msgRJ, rxmit := true));
    case AcceptB => SettleFree(s.b.(pending := 8), 1, false, 0);
    case _ =>
  }

  lemma {:induction false} StuckWaits(x: Line, ticks: seq<Tick>)
    requires Live(x) && Stuck(x.s.b)
    ensures Stuck(Waited(x, ticks).s.b)
    decreases |ticks|
  {
    hide Ok, Do, Stuck;
    if ticks == [] {
      StuckStays(x.s, AcceptB);
    } else {
      match ticks[0] {
        case Push(junk) => if CanPush(x, junk) { PushedLive(x, junk); StuckStays(x.s, Write(x.outgoing[0], junk)); }
        case Wire(e) => if !e.Write? && !e.ReadB? && Enabled(x.s, e) { StuckStays(x.s, e); }
      }
      StuckWaits(Happened(x, ticks[0]), ticks[1..]);
    }
  }

  lemma StuckDead(x: Line, bufsiz: nat)
    requires Live(x) && bufsiz > 0 && Stuck(x.s.b)
    ensures Whole(x, bufsiz).1.Failed?
  {
    hide Ok, Wf, Waited, Delivered;
    if x.script == [] { StuckWaits(x, []); } else { StuckWaits(x.(script := x.script[1..]), x.script[0]); }
    assert Read(x, bufsiz).1.Dead?;
  }

  // ---------- the next packet can arrive ----------

  /** A reader that waits for a packet and has a buffer for it. */
  ghost predicate Waiting(x: Line) {
    Live(x) && x.s.b.pending == 8 && x.s.b.rcount <= 0 && x.s.b.pool > 0 && Front(x) != []
  }

  /** The frame that carries the packet the reader needs next. */
  predicate Needed(f: Frame, pr: nat) {
    f.Data? && f.num == Next(pr) && f.intact
  }

  lemma {:induction false} SettleCounts(b: Pk, k: nat, gap: bool, count: nat)
    requires b.Shaped() && 1 <= k
    ensures var r := Settle(b, k, gap, count); r.rcount >= count && r.pool >= b.pool
    decreases if k <= b.rwindow then b.rwindow - k + 1 else 0
  {
    if k <= b.rwindow {
      var x := (b.pr + k) % 8;
      if b.ins[x].Copy? {
        if gap {
          SettleCounts(b.(ins := b.ins[x := Free], pool := b.pool + 1, msgRR := true), k + 1, gap, count);
        } else {
          SettleCounts(b, k + 1, gap, count + 1);
        }
      } else {
        SettleCounts(b, k + 1, true, count);
      }
    }
  }

  /** The needed frame is stored and accepted. */
  lemma AcceptNeeded(b: Pk, f: Frame)
    requires b.Shaped() && b.pending == 8 && b.pool > 0 && forall x :: 0 <= x < 8 ==> b.ins[x].Free?
    requires Needed(f, b.pr) && f.ack < 8
    ensures var r := ReceiveData(b, f);
      r.pending < 8 && r.ins[r.pending].Raw? && r.ins[r.pending].num < 8 && Accept(r).rcount > 0
  {
    hide SackFrom, Settle;
    SackInput(b.(rpr := f.ack), b.ps);
    var p := Sack(b.(rpr := f.ack));
    assert FreeSlot(p.ins, p.pr, 0) == p.pr;
    var r := ReceiveData(b, f);
    assert r == p.(pool := p.pool - 1, ins := p.ins[p.pr := Raw(f.num, f.short, f.body, f.intact)], pending := p.pr);
    var e := Examine(r.(pending := 8), p.pr);
    assert e.ins[f.num].Copy? && f.num == (e.pr + 1) % 8;
    SettleStart(e);
  }

  lemma SettleStart(b: Pk)
    requires b.Shaped() && b.ins[(b.pr + 1) % 8].Copy?
    ensures Settle(b, 1, false, 0).rcount > 0
  {
    hide Settle;
    SettleCounted(b, 1, 0);
  }

  lemma SettleCounted(b: Pk, k: nat, count: nat)
    requires b.Shaped() && 1 <= k <= b.rwindow && b.ins[(b.pr + k) % 8].Copy?
    ensures Settle(b, k, false, count).rcount > count
  {
    SettleCounts(b, k + 1, false, count + 1);
  }

  /** The next event of a script. */
  lemma First(x: Line, t: Tick, ticks: seq<Tick>)
    requires Live(x)
    ensures Waited(x, [t] + ticks) == Waited(Happened(x, t), ticks)
  {
    hide Happened, Live, Stepped;
    assert ([t] + ticks)[0] == t && ([t] + ticks)[1..] == ticks;
  }

  /** An event that leaves the reader as it is. */
  lemma StillWaiting(x: Line, e: Event)
    requires Waiting(x) && Enabled(x.s, e) && (e.LoseAB? || e.LoseBA? || e.TimeoutA? || e.RecvA?)
    ensures var y := Happened(x, Wire(e)); Waiting(y) && y.s == Do(x.s, e) && y.s.b == x.s.b && y.outgoing == x.outgoing
  {
    hide Ok, Wf, Front, Output, ReceiveControl;
    HappenedKeeps(x, Wire(e));
  }

  lemma ReceiveIt(x: Line) returns (ticks: seq<Tick>)
    requires Waiting(x) && |x.s.ab| == 1 && Needed(x.s.ab[0], x.s.b.pr)
    ensures Waited(x, ticks).s.b.rcount > 0
  {
    hide Ok, Front, ReceiveData, Accept;
    var f := x.s.ab[0];
    assert f in x.s.ab;
    OkFree(x.s);
    AcceptNeeded(x.s.b, f);
    ticks := [Wire(RecvB)];
    First(x, Wire(RecvB), []);
    assert Happened(x, Wire(RecvB)).s.b == ReceiveData(x.s.b, f);
  }

  lemma LoseOne(x: Line)
    requires Waiting(x) && x.s.ab != []
    ensures var y := Happened(x, Wire(LoseAB(0))); Waiting(y) && y.s.b == x.s.b && y.s.ab == x.s.ab[1..]
  {
    hide Waiting, Happened, Wf, Ok;
    WaitingWf(x);
    StillWaiting(x, LoseAB(0));
    WithoutFirst(x.s.ab);
  }

  lemma WithoutFirst(fs: seq<Frame>)
    requires fs != []
    ensures Without(fs, 0) == fs[1..]
  {
  }

  /** What is in front of the needed frame gets lost. */
  lemma {:induction false} LoseOthers(x: Line) returns (ticks: seq<Tick>)
    requires Waiting(x) && x.s.ab != [] && Needed(x.s.ab[|x.s.ab| - 1], x.s.b.pr)
    ensures Waited(x, ticks).s.b.rcount > 0
    decreases |x.s.ab|
  {
    hide Waiting, Happened, Waited, Wf, Do, Needed, Live, Ok, Enabled;
    if |x.s.ab| == 1 {
      ticks := ReceiveIt(x);
    } else {
      WaitingWf(x);
      LoseOne(x);
      var y := Happened(x, Wire(LoseAB(0)));
      assert y.s.ab[|y.s.ab| - 1] == x.s.ab[|x.s.ab| - 1];
      var rest := LoseOthers(y);
      ticks := [Wire(LoseAB(0))] + rest;
      First(x, Wire(LoseAB(0)), rest);
    }
  }

  lemma WaitingWf(x: Line)
    requires Waiting(x)
    ensures Live(x) && Wf(x.s) && Ok(x.s)
  {
  }

  /** The oldest packet not acknowledged is the one that the reader needs. */
  ghost predicate Agreed(x: Line) {
    Waiting(x) && x.s.a.rpr == x.s.b.pr
  }

  /** The writer's timeout sends that packet, unless a reject is due. */
  lemma TimeoutSends(a: Pk)
    requires a.Shaped() && a.os[Next(a.rpr)].Full?
    ensures var o := Timeout(a);
      if a.msgRJ then !o.0.msgRJ && o.0.rpr == a.rpr && o.0.os == a.os
      else |o.1| == 1 && Needed(o.1[0], a.rpr)
  {
  }

  lemma TimedOut(x: Line)
    requires Waiting(x)
    ensures x.s.a.Shaped()
    ensures var y := Happened(x, Wire(TimeoutA));
      Waiting(y) && y.s.b == x.s.b && y.s.a == Timeout(x.s.a).0 && y.s.ab == x.s.ab + Timeout(x.s.a).1
  {
    hide Waiting, Happened, Timeout;
    WaitingWf(x);
    StillWaiting(x, TimeoutA);
  }

  lemma SendIt(x: Line) returns (ticks: seq<Tick>)
    requires Agreed(x) && x.s.a.os[Next(x.s.a.rpr)].Full? && !x.s.a.msgRJ
    ensures Waited(x, ticks).s.b.rcount > 0
  {
    hide Waiting, Happened, Waited, Timeout, Wf, Do;
    WaitingWf(x);
    TimedOut(x);
    TimeoutSends(x.s.a);
    var rest := LoseOthers(Happened(x, Wire(TimeoutA)));
    ticks := [Wire(TimeoutA)] + rest;
    First(x, Wire(TimeoutA), rest);
  }

  lemma SendAgain(x: Line) returns (ticks: seq<Tick>)
    requires Agreed(x) && x.s.a.os[Next(x.s.a.rpr)].Full?
    ensures Waited(x, ticks).s.b.rcount > 0
  {
    hide Waiting, Happened, Waited, Timeout, Wf, Do;
    if x.s.a.msgRJ {
      WaitingWf(x);
      TimedOut(x);
      TimeoutSends(x.s.a);
      var rest := SendIt(Happened(x, Wire(TimeoutA)));
      ticks := [Wire(TimeoutA)] + rest;
      First(x, Wire(TimeoutA), rest);
    } else {
      ticks := SendIt(x);
    }
  }

  /** When the ends agree, the packet is in its slot, or there is room for it. */
  lemma Oldest(s: Sys)
    requires Ok(s) && Wf(s) && s.a.rpr == s.b.pr
    ensures if s.a.xcount > 0 then s.a.os[Next(s.a.rpr)].Full? else CanPut(s.a) && Queue(s) == []
  {
    hide ForwardLink, BackwardLink, PendingFrame, CopyHolds, SentTo, Partial, Flat, Holds;
    var h :| Good(s, h);
    SameNumber(h.psn, h.prn);
    NextSlot(h.psn);
    assert Slot(h.psn, 1) == Next(s.a.rpr);
  }

  lemma SameNumber(m: nat, n: nat)
    requires m <= n < m + 8 && m % 8 == n % 8
    ensures m == n
  {
  }

  /** The writer's slots are full, or its next packet goes out. */
  lemma WriteIt(x: Line) returns (ticks: seq<Tick>)
    requires Agreed(x)
    ensures Waited(x, ticks).s.b.rcount > 0
  {
    hide Ok, Waited, Output;
    Oldest(x.s);
    if x.s.a.xcount > 0 {
      ticks := SendAgain(x);
    } else {
      var junk := seq(x.s.a.xsize, _ => 0);
      var y := Happened(x, Push(junk));
      assert CanPush(x, junk);
      PushedLive(x, junk);
      OutputInput(Put(x.s.a, x.outgoing[0], junk));
      PutCounts(x.s.a, x.outgoing[0], junk);
      Oldest(y.s);
      var rest := SendAgain(y);
      ticks := [Push(junk)] + rest;
      First(x, Push(junk), rest);
    }
  }

  lemma PutCounts(a: Pk, chunk: seq<nat>, junk: seq<nat>)
    requires a.Shaped() && CanPut(a) && |chunk| <= a.xsize && |junk| == a.xsize
    ensures Output(Put(a, chunk, junk)).0.xcount == a.xcount + 1
  {
  }

  /** The writer learns where the reader is. */
  lemma Learn(x: Line) returns (ticks: seq<Tick>)
    requires Waiting(x) && |x.s.ba| == 1 && x.s.ba[0].Ctl? && x.s.ba[0].ack == x.s.b.pr
    ensures Waited(x, ticks).s.b.rcount > 0
  {
    hide Waiting, Happened, Waited, ReceiveControl, ReadLoop;
    WaitingWf(x);
    assert x.s.ba[0] in x.s.ba;
    ControlInput(x.s.a, x.s.ba[0]);
    StillWaiting(x, RecvA);
    var rest := WriteIt(Happened(x, Wire(RecvA)));
    ticks := [Wire(RecvA)] + rest;
    First(x, Wire(RecvA), rest);
  }

  /** A reader that has timed out tells. */
  lemma TimeoutTells(b: Pk)
    requires b.Shaped() && forall x :: 0 <= x < 8 ==> b.os[x].Empty?
    ensures var o := Timeout(b);
      |o.1| == 1 && o.1[0].Ctl? && o.1[0].ack == b.pr && SameInput(b, o.0)
  {
  }

  lemma Tell(x: Line) returns (ticks: seq<Tick>)
    requires Waiting(x) && x.s.ba == []
    ensures Waited(x, ticks).s.b.rcount > 0
  {
    hide Ok, Waited, Timeout, Front;
    TimeoutTells(x.s.b);
    HappenedKeeps(x, Wire(TimeoutB));
    var rest := Learn(Happened(x, Wire(TimeoutB)));
    ticks := [Wire(TimeoutB)] + rest;
    First(x, Wire(TimeoutB), rest);
  }

  /** What is on its way back gets lost first. */
  lemma {:induction false} Recover(x: Line) returns (ticks: seq<Tick>)
    requires Waiting(x)
    ensures Waited(x, ticks).s.b.rcount > 0
    decreases |x.s.ba|
  {
    hide Waiting, Happened, Waited, Wf, Live, Ok;
    if x.s.ba == [] {
      ticks := Tell(x);
    } else {
      WaitingWf(x);
      StillWaiting(x, LoseBA(0));
      var rest := Recover(Happened(x, Wire(LoseBA(0))));
      ticks := [Wire(LoseBA(0))] + rest;
      First(x, Wire(LoseBA(0)), rest);
    }
  }

  /** After acceptance something is there, or there is a buffer. */
  lemma AcceptUnstuck(s: Sys)
    requires Ok(s) && Wf(s) && !Stuck(s.b)
    ensures !Stuck(Do(s, AcceptB).b)
  {
    hide Ok, Settle, Examine;
    AcceptLeavesNone(s);
    if s.b.pending == 8 {
      SettleUnstuck(s);
    } else {
      ExamineUnstuck(s.b.(pending := 8), s.b.pending);
    }
  }

  lemma SettleUnstuck(s: Sys)
    requires Ok(s) && s.b.pending == 8 && !Stuck(s.b)
    ensures s.b.Shaped() && var r := Settle(s.b, 1, false, 0); r.rcount > 0 || r.pool > 0
  {
    hide Settle, Sender, ForwardLink, BackwardLink, SentTo, Holds, Flat, Partial, PendingFrame;
    var h :| Good(s, h);
    SettleCounts(s.b, 1, false, 0);
    if s.b.rcount > 0 {
      NextSlot(h.prn);
      assert CopyHolds(s.b.ins[Slot(h.prn, 1)], h.w[h.prn], s.b.rptr, true);
      SettleStart(s.b);
    }
  }

  lemma ExamineUnstuck(b: Pk, x: nat)
    requires b.Shaped() && x < 8 && b.ins[x].Raw? && b.ins[x].num < 8
    ensures var r := Settle(Examine(b, x), 1, false, 0); r.rcount > 0 || r.pool > 0
  {
    hide Settle, Examine;
    var e := Examine(b, x);
    SettleCounts(e, 1, false, 0);
    if e.pool == 0 {
      ExamineCopies(b, x);
      SettleFinds(e, 1, false, 0, Ahead(e.pr, b.ins[x].num));
    }
  }

  /** A frame that gave no buffer back was accepted inside the window. */
  lemma ExamineCopies(b: Pk, x: nat)
    requires b.Shaped() && x < 8 && b.ins[x].Raw? && b.ins[x].num < 8 && Examine(b, x).pool == 0
    ensures var e, k := Examine(b, x), Ahead(b.pr, b.ins[x].num);
      e.pr == b.pr && e.rwindow == b.rwindow && 1 <= k <= b.rwindow && e.ins[(b.pr + k) % 8].Copy?
  {
  }

  /** An accepted packet is counted, or its buffer is given back. */
  lemma {:induction false} SettleFinds(b: Pk, k: nat, gap: bool, count: nat, j: nat)
    requires b.Shaped() && 1 <= k <= j <= b.rwindow && b.ins[(b.pr + j) % 8].Copy?
    ensures var r := Settle(b, k, gap, count); r.rcount > 0 || r.pool > b.pool
    decreases j - k
  {
    var x := (b.pr + k) % 8;
    if b.ins[x].Copy? {
      if gap {
        SettleCounts(b.(ins := b.ins[x := Free], pool := b.pool + 1, msgRR := true), k + 1, gap, count);
      } else {
        SettleCounts(b, k + 1, gap, count + 1);
      }
    } else {
      SettleFinds(b, k + 1, true, count, j);
    }
  }

  /** Whatever has happened, the next `pkread` can find a packet. */
  lemma CanReady(x: Line) returns (ticks: seq<Tick>)
    requires Live(x) && Front(x) != [] && !Stuck(x.s.b)
    ensures Waited(x, ticks).s.b.rcount > 0
  {
    hide Ok, Do, Front;
    var y := Happened(x, Wire(AcceptB));
    assert Waited(x, []) == y;
    if y.s.b.rcount > 0 {
      ticks := [];
    } else {
      AcceptUnstuck(x.s);
      WaitedKeeps(x, []);
      var rest := Recover(y);
      ticks := [Wire(AcceptB)] + rest;
      First(x, Wire(AcceptB), rest);
    }
  }

  // ---------- every buffer can be lost ----------

  /** The writer can send the packet that it will send first after a timeout, and nothing is
      on its way to the reader, which waits. */
  ghost predicate Sending(x: Line) {
    && Live(x) && x.s.ab == [] && x.s.b.pending == 8 && x.s.b.rcount <= 0
    && x.s.a.os[Next(x.s.a.rpr)].Full? && !x.s.a.msgRJ
  }

  lemma BodyLost(x: Line)
    requires Sending(x) && x.s.b.pool > 0
    ensures var y := Happened(Happened(x, Wire(TimeoutA)), Wire(LoseBodyB)); Sending(y) && y.s.b.pool == x.s.b.pool - 1
  {
    hide Ok, Timeout, SackFrom;
    TimeoutSends(x.s.a);
    TimeoutKeepsSlots(x.s.a);
    var y := Happened(x, Wire(TimeoutA));
    var f := y.s.ab[0];
    assert f in y.s.ab;
    LoseBodyInput(y.s.b, f);
  }

  lemma LoseBodyInput(b: Pk, f: Frame)
    requires b.Shaped() && f.Data? && f.num < 8 && f.ack < 8 && b.pool > 0
    ensures var r := LoseBody(b, f).0; r.pending == b.pending && r.rcount == b.rcount && r.pool == b.pool - 1
  {
    hide SackFrom, Output;
    var p := b.(rpr := f.ack);
    SackInput(p, p.ps);
    var q := Sack(p).(pool := b.pool - 1);
    OutputInput(q.(msgRR := q.msgRR || !q.msgRJ, rxmit := true));
  }

  lemma TimeoutKeepsSlots(a: Pk)
    requires a.Shaped() && a.os[Next(a.rpr)].Full?
    ensures var r := Timeout(a).0; r.rpr == a.rpr && r.os[Next(r.rpr)].Full? && (!a.msgRJ ==> !r.msgRJ)
  {
  }

  /** Body after body is lost, until no buffer is left. */
  lemma {:induction false} LoseBodies(x: Line) returns (ticks: seq<Tick>)
    requires Sending(x)
    ensures Stuck(Waited(x, ticks).s.b)
    decreases x.s.b.pool
  {
    hide Sending, Happened, Waited;
    if x.s.b.pool == 0 {
      ticks := [];
      SendingStuck(x);
      StuckWaits(x, []);
    } else {
      SendingLive(x);
      BodyLost(x);
      var y := Happened(x, Wire(TimeoutA));
      var rest := LoseBodies(Happened(y, Wire(LoseBodyB)));
      First(y, Wire(LoseBodyB), rest);
      First(x, Wire(TimeoutA), [Wire(LoseBodyB)] + rest);
      ticks := [Wire(TimeoutA)] + ([Wire(LoseBodyB)] + rest);
    }
  }

  lemma SendingLive(x: Line)
    requires Sending(x)
    ensures Live(x)
  {
  }

  lemma SendingStuck(x: Line)
    requires Sending(x) && x.s.b.pool == 0
    ensures Live(x) && Stuck(x.s.b)
  {
  }

  /** The writer has sent something, and it is lost. */
  lemma LoseFirstFrame(x: Line) returns (ticks: seq<Tick>)
    requires Agreed(x) && |x.s.ab| <= 1 && x.s.a.os[Next(x.s.a.rpr)].Full? && !x.s.a.msgRJ
    ensures Stuck(Waited(x, ticks).s.b)
  {
    hide Ok, Waited, Front;
    if x.s.ab == [] {
      ticks := LoseBodies(x);
    } else {
      LoseOne(x);
      var y := Happened(x, Wire(LoseAB(0)));
      var rest := LoseBodies(y);
      ticks := [Wire(LoseAB(0))] + rest;
      First(x, Wire(LoseAB(0)), rest);
    }
  }

  lemma PutSends(a: Pk, chunk: seq<nat>, junk: seq<nat>)
    requires a.Shaped() && CanPut(a) && |chunk| <= a.xsize && |junk| == a.xsize && !a.msgRJ
    ensures var o := Output(Put(a, chunk, junk));
      |o.1| <= 1 && !o.0.msgRJ && o.0.rpr == a.rpr && o.0.xcount == a.xcount + 1
  {
  }

  lemma LoseFromStart(x: Line) returns (ticks: seq<Tick>)
    requires Agreed(x) && x.s.ab == [] && x.s.a.xcount == 0 && !x.s.a.msgRJ
    ensures Stuck(Waited(x, ticks).s.b)
  {
    hide Ok, Waited, Output;
    Oldest(x.s);
    var junk := seq(x.s.a.xsize, _ => 0);
    var y := Happened(x, Push(junk));
    assert CanPush(x, junk);
    PushedLive(x, junk);
    PutSends(x.s.a, x.outgoing[0], junk);
    Oldest(y.s);
    var rest := LoseFirstFrame(y);
    ticks := [Push(junk)] + rest;
    First(x, Push(junk), rest);
  }

  /** A reject that is due goes out first. */
  lemma TimeoutRejects(a: Pk)
    requires a.Shaped() && a.msgRJ
    ensures var o := Timeout(a); |o.1| == 1 && !o.0.msgRJ && o.0.rpr == a.rpr && o.0.xcount == a.xcount
  {
  }

  /** The buffers can all be lost: before the first `pkread` of any transfer the line can
      damage frames in such a way that the reader is stuck for good. */
  lemma BuffersRunOut(s0: Sys, packets: seq<seq<nat>>) returns (ticks: seq<Tick>)
    requires Init(s0) && packets != [] && forall i :: 0 <= i < |packets| ==> |packets[i]| <= s0.a.xsize
    ensures Live(Line(s0, packets, [])) && Stuck(Waited(Line(s0, packets, []), ticks).s.b)
  {
    hide Ok, Waited, Timeout;
    InitOk(s0);
    OkWf(s0);
    var x := Line(s0, packets, []);
    assert Queue(s0) + packets == packets;
    if s0.b.pool == 0 {
      ticks := [];
      StuckWaits(x, []);
    } else if s0.a.msgRJ {
      TimedOut(x);
      TimeoutRejects(s0.a);
      var y := Happened(x, Wire(TimeoutA));
      LoseOne(y);
      var z := Happened(y, Wire(LoseAB(0)));
      StillWaiting(y, LoseAB(0));
      var rest := LoseFromStart(z);
      First(y, Wire(LoseAB(0)), rest);
      First(x, Wire(TimeoutA), [Wire(LoseAB(0))] + rest);
      ticks := [Wire(TimeoutA)] + ([Wire(LoseAB(0))] + rest);
    } else {
      ticks := LoseFromStart(x);
    }
  }

  // ---------- the file can arrive ----------

  /** Reading gives buffers back. */
  lemma {:induction false} ReadFrees(b: Pk, icount: nat, xfr: bool)
    requires b.Shaped()
    ensures var r := ReadLoop(b, icount, xfr).0;
      r.pending == b.pending && r.pool >= b.pool && (r.pool == b.pool ==> r.rcount == b.rcount)
    decreases icount
  {
    var x := Next(b.pr);
    if icount > 0 && b.ins[x].Copy? {
      var cc := if b.ins[x].left < icount then b.ins[x].left else icount;
      if cc > 0 { ReadFrees(OneRead(b, cc), icount - cc, true); }
    }
  }

  lemma DeliveredUnstuck(x: Line, icount: nat)
    requires Live(x) && x.s.b.pending == 8 && x.s.b.rcount > 0
    ensures !Stuck(Delivered(x, icount).0.s.b)
  {
    hide Ok, Output, ReadLoop, Front;
    ReadFrees(x.s.b, icount, false);
    OutputInput(ReadLoop(x.s.b, icount, false).0);
  }

  /** What is left of the script plays no part in a wait. */
  lemma {:induction false} WaitedScript(x: Line, ticks: seq<Tick>, script: seq<seq<Tick>>)
    requires Live(x)
    ensures Live(x.(script := script)) && Waited(x.(script := script), ticks) == Waited(x, ticks).(script := script)
    decreases |ticks|
  {
    hide Ok, Wf, Do;
    if ticks != [] {
      WaitedScript(Happened(x, ticks[0]), ticks[1..], script);
      assert Happened(x.(script := script), ticks[0]) == Happened(x, ticks[0]).(script := script);
    }
  }

  /** Whatever has happened, the next `pkread` can succeed, and leaves a reader for which the
      same is true. */
  lemma CanRead(x: Line, icount: nat) returns (ticks: seq<Tick>, y: Line, got: seq<nat>)
    requires Live(x) && Front(x) != [] && !Stuck(x.s.b)
    ensures Live(y) && !Stuck(y.s.b)
    ensures forall more ::
      Live(x.(script := [ticks] + more))
        && Read(x.(script := [ticks] + more), icount) == (y.(script := more), Bytes(got))
  {
    hide Ok, Wf, Waited, Front, Stuck, DoRead;
    ticks := CanReady(x);
    WaitedKeeps(x, ticks);
    var w := Waited(x, ticks);
    var r := Delivered(w, icount);
    DeliveredUnstuck(w, icount);
    y, got := r.0, r.1.b;
    forall more
      ensures Live(x.(script := [ticks] + more))
      ensures Read(x.(script := [ticks] + more), icount) == (y.(script := more), Bytes(got))
    {
      WaitedScript(x, ticks, more);
      var x' := x.(script := [ticks] + more);
      assert x'.script[1..] == more;
      assert x'.(script := more) == x.(script := more);
      assert Ready(x') == w.(script := more);
    }
  }

  /** The scripts that begin with `script` take the line from `x` to `y`, with `b` read. */
  ghost predicate Blocks(x: Line, len: nat, script: seq<seq<Tick>>, y: Line, b: seq<nat>)
    requires len > 0
  {
    forall more ::
      && Live(x.(script := script + more))
      && Block(x.(script := script + more), len) == (y.(script := more), Bytes(b))
  }

  lemma CanReadAll(x: Line, len: nat, body: seq<seq<nat>>, after: seq<seq<nat>>)
    returns (ticks: seq<Tick>, y: Line, b: seq<nat>, body': seq<seq<nat>>)
    requires Live(x) && len > 0 && Stream(Front(x), body, after) && !Stuck(x.s.b)
    ensures Live(y) && !Stuck(y.s.b)
    ensures forall more ::
      Live(x.(script := [ticks] + more)) && Read(x.(script := [ticks] + more), len) == (y.(script := more), Bytes(b))
    ensures b != [] ==> Part(Front(y), b, body, after, body') && |b| <= len
  {
    hide Live, Read, Stuck, Part;
    assert Front(x) != [];
    ticks, y, b := CanRead(x, len);
    var x0 := x.(script := [ticks] + []);
    SameFront(x, x0.script);
    body' := ReadStream(x0, len, body, after);
    assert Read(x0, len) == (y.(script := []), Bytes(b));
    SameFront(y, []);
  }

  lemma SameFront(x: Line, script: seq<seq<Tick>>)
    requires Live(x)
    ensures Live(x.(script := script)) && Front(x.(script := script)) == Front(x)
  {
    hide Ok, Wf, Queue;
  }

  lemma BlocksOne(x: Line, len: nat, ticks: seq<Tick>, y: Line, b: seq<nat>)
    requires len > 0 && (b == [] || len <= |b|)
    requires forall more ::
      Live(x.(script := [ticks] + more)) && Read(x.(script := [ticks] + more), len) == (y.(script := more), Bytes(b))
    ensures Blocks(x, len, [ticks], y, b)
  {
    hide Live, Read;
  }

  lemma BlocksMore(
      x: Line, len: nat, ticks: seq<Tick>, y: Line, b: seq<nat>, script: seq<seq<Tick>>, z: Line, rest: seq<nat>)
    requires 0 < |b| < len
    requires forall more ::
      Live(x.(script := [ticks] + more)) && Read(x.(script := [ticks] + more), len) == (y.(script := more), Bytes(b))
    requires Blocks(y, len - |b|, script, z, rest)
    ensures Blocks(x, len, [ticks] + script, z, b + rest)
  {
    hide Live, Read, Block;
    forall more
      ensures Live(x.(script := ([ticks] + script) + more))
      ensures Block(x.(script := ([ticks] + script) + more), len) == (z.(script := more), Bytes(b + rest))
    {
      assert ([ticks] + script) + more == [ticks] + (script + more);
      var x' := x.(script := [ticks] + (script + more));
      BlockReads(x', len, b, y.(script := script + more));
    }
  }

  lemma BlockReads(x: Line, len: nat, b: seq<nat>, y: Line)
    requires Live(x) && 0 < |b| < len && Read(x, len) == (y, Bytes(b))
    ensures Live(y) && Block(x, len) == Joined(b, Block(y, len - |b|))
  {
    hide Live, Read;
  }

  /** `grdblk` can get its next block. */
  lemma {:induction false} CanBlock(x: Line, len: nat, body: seq<seq<nat>>, after: seq<seq<nat>>)
    returns (script: seq<seq<Tick>>, y: Line, b: seq<nat>)
    requires Live(x) && len > 0 && Stream(Front(x), body, after) && !Stuck(x.s.b)
    ensures Live(y) && !Stuck(y.s.b) && Blocks(x, len, script, y, b)
    decreases len
  {
    hide Live, Stuck, Blocks, Front, Read, Stream;
    var ticks, y1, b1, body1 := CanReadAll(x, len, body, after);
    if b1 == [] || len <= |b1| {
      script, y, b := [ticks], y1, b1;
      BlocksOne(x, len, ticks, y1, b1);
    } else {
      var script2, b2;
      script2, y, b2 := CanBlock(y1, len - |b1|, body1, after);
      script, b := [ticks] + script2, b1 + b2;
      BlocksMore(x, len, ticks, y1, b1, script2, y, b2);
    }
  }

  /** `grddata` can get the rest of the file. */
  lemma {:induction false} CanWhole(x: Line, bufsiz: nat, body: seq<seq<nat>>, after: seq<seq<nat>>)
    returns (script: seq<seq<Tick>>)
    requires Live(x) && bufsiz > 0 && Stream(Front(x), body, after) && !Stuck(x.s.b)
    ensures Live(x.(script := script)) && Whole(x.(script := script), bufsiz).1.File?
    decreases |Cat(Front(x))|
  {
    hide Live, Stuck, Front, Block, Stream, Cat;
    var script1, y, b := CanBlock(x, bufsiz, body, after);
    assert script1 + [] == script1;
    var x1 := x.(script := script1);
    SameFront(x, script1);
    assert Block(x1, bufsiz) == (y.(script := []), Bytes(b));
    BlockConserves(x1, bufsiz);
    SameFront(y, []);
    var body' := BlockStream(x1, bufsiz, body, after);
    if |b| < bufsiz {
      script := script1;
    } else {
      var rest := CanWhole(y, bufsiz, body', after);
      script := script1 + rest;
      var x2 := x.(script := script);
      assert Block(x2, bufsiz) == (y.(script := rest), Bytes(b));
    }
  }

  /** In whatever state the two ends and the line are in the middle of a file, the rest of it
      can still arrive, exactly if the reader is not stuck. */
  lemma ArrivesExactly(x: Line, bufsiz: nat, body: seq<seq<nat>>, after: seq<seq<nat>>)
    requires Live(x) && bufsiz > 0 && Stream(Front(x), body, after)
    ensures (exists script ::
               Live(x.(script := script)) && Whole(x.(script := script), bufsiz).1 == File(Cat(body))) <==>
                 !Stuck(x.s.b)
  {
    hide Live, Stuck, Front, Whole, Stream, Cat;
    if Stuck(x.s.b) {
      forall script | Live(x.(script := script))
        ensures Whole(x.(script := script), bufsiz).1.Failed?
      {
        StuckDead(x.(script := script), bufsiz);
      }
    } else {
      var script := CanWhole(x, bufsiz, body, after);
      SameFront(x, script);
      WholeStream(x.(script := script), bufsiz, body, after);
    }
  }

  /** From the beginning: every file, packet size, window and pair of buffer sizes. */
  lemma FileArrivesExactly(s0: Sys, file: seq<nat>, wbuf: nat, rbuf: nat, after: seq<seq<nat>>)
    requires Init(s0) && wbuf > 0 && rbuf > 0 && forall i :: 0 <= i < |after| ==> |after[i]| <= s0.a.xsize
    ensures (exists script ::
               && Live(Start(s0, file, wbuf, after, script))
               && Whole(Start(s0, file, wbuf, after, script), rbuf).1 == File(file)) <==> s0.b.pool > 0
  {
    hide Live, Front, Whole, Stream, Cat, FilePackets;
    InitParts(s0);
    var x := Start(s0, file, wbuf, after, []);
    StartLive(s0, file, wbuf, after, []);
    ArrivesExactly(x, rbuf, FilePackets(file, s0.a.xsize, wbuf), after);
    assert forall script :: Start(s0, file, wbuf, after, script) == x.(script := script);
  }
}
