/** The sender's window in every run of the 'g' protocol, and where the transmit pointer
    p_nxtps may be.
 */
module PkWindow {
  import opened PkPack
  import opened PkRun

  /** The filled output slots are exactly the `xcount` slots behind `ps`, the newest of them
      is `pscopy`, and there are at most 7. */
  ghost predicate Interval(p: Pk) {
    && p.Shaped()
    && 0 <= p.xcount <= p.swindow
    && p.pscopy == (p.ps + p.xcount) % 8
    && forall k {:trigger Slot(p.ps, k)} :: 1 <= k <= 8 ==> (p.os[Slot(p.ps, k)].Full? <==> k <= p.xcount)
  }

  lemma SenderIsInterval(a: Pk, w: seq<Packet>, psn: nat)
    requires Sender(a, w, psn)
    ensures Interval(a)
  {
    SlotsOfMod(psn, a.ps);
    assert |w| == psn + a.xcount;
    ModSum(psn, a.xcount);
  }

  lemma ModSum(n: nat, m: nat)
    ensures (n % 8 + m) % 8 == (n + m) % 8
  {
  }

  /** In every state of every run the writing end's slots form that interval. */
  lemma WindowInvariant(states: seq<Sys>, events: seq<Event>, i: nat)
    requires IsRun(states, events) && i < |states|
    ensures Interval(states[i].a)
  {
    RunKeeps(states, events, i);
    var h :| Good(states[i], h);
    SenderIsInterval(states[i].a, h.w, h.psn);
  }

  /** In every run, an acknowledgement that reaches the writing end names a sent packet of
      the window or the one in front of it, and frees exactly the packets up to it. */
  lemma AckFreesExactly(states: seq<Sys>, events: seq<Event>, i: nat)
    requires IsRun(states, events) && i < |states| && states[i].ba != [] && states[i].ba[0].Ctl?
    ensures var a, ack := states[i].a, states[i].ba[0].ack;
      && a.Shaped() && ack < 8
      && Ahead(a.ps, ack) <= a.xcount
      && Freed(a, Sack(a.(rpr := ack)), ack)
  {
    RunKeeps(states, events, i);
    var h :| Good(states[i], h);
    AckFreed(states[i], h);
  }

  /** `r` is `a` with the packets up to `ack` freed and the others untouched. */
  ghost predicate Freed(a: Pk, r: Pk, ack: nat)
    requires a.Shaped() && ack < 8
  {
    && r == a.(os := r.os, ps := ack, rpr := ack, xcount := a.xcount - Ahead(a.ps, ack))
    && |r.os| == 8
    && forall k {:trigger Slot(a.ps, k)} :: 1 <= k <= 8 ==>
         r.os[Slot(a.ps, k)] == if k <= Ahead(a.ps, ack) then Empty else a.os[Slot(a.ps, k)]
  }

  lemma AheadOfMod(m: nat, n: nat)
    requires m <= n <= m + 7
    ensures Ahead(m % 8, n % 8) == n - m
  {
  }

  lemma AckFreed(s: Sys, h: Hist)
    requires Good(s, h) && s.ba != [] && s.ba[0].Ctl?
    ensures s.ba[0].ack < 8 && Ahead(s.a.ps, s.ba[0].ack) <= s.a.xcount
    ensures Freed(s.a, Sack(s.a.(rpr := s.ba[0].ack)), s.ba[0].ack)
  {
    assert s.ba[0] in s.ba;
    SackFreed(s.a.(rpr := s.ba[0].ack), h.w, h.psn, h.nba[0]);
  }

  lemma SackFreed(a: Pk, w: seq<Packet>, psn: nat, n: nat)
    requires Sender(a, w, psn) && psn <= n <= |w| && a.rpr == n % 8 && SentTo(a.os, psn, n)
    ensures Ahead(a.ps, a.rpr) == n - psn && Freed(a, Sack(a), a.rpr)
  {
    SackAdvances(a, w, psn, n);
    AheadOfMod(psn, n);
    SlotsOfMod(psn, a.ps);
    var r := Sack(a);
    forall k {:trigger Slot(a.ps, k)} | 1 <= k <= 8
      ensures r.os[Slot(a.ps, k)] == if k <= n - psn then Empty else a.os[Slot(a.ps, k)]
    {
      assert Slot(a.ps, k) == Slot(psn, k);
      if k <= n - psn {
        SlotBack(psn, n, k);
      } else {
        SlotFrom(psn, n, k);
      }
    }
  }

  /** Slots up to `n` lie at the far end of the window behind `n`. */
  lemma SlotBack(psn: nat, n: nat, k: nat)
    requires psn + k <= n <= psn + 7 && 1 <= k
    ensures Slot(psn, k) == Slot(n, psn + k + 8 - n)
  {
  }

  lemma SlotFrom(psn: nat, n: nat, k: nat)
    requires psn <= n < psn + k
    ensures Slot(psn, k) == Slot(n, psn + k - n)
  {
  }

  // ---------- the transmit pointer ----------

  /** How many places slot `x` lies behind slot `n`, from 1 to 8. */
  function Places(n: nat, x: nat): int {
    if n < x then x - n else x + 8 - n
  }

  /** p_nxtps names a packet of the window or the slot just past it. */
  predicate PointerInWindow(p: Pk) {
    Places(p.ps, p.nxtps) <= p.xcount + 1
  }

  /** `pkoutput` leaves the pointer in the window exactly if it was there or goes back. */
  lemma OutputPointer(p: Pk)
    requires Interval(p) && p.rpr == p.ps
    ensures PointerInWindow(Output(p).0) <==> PointerInWindow(p) || p.rxmit
  {
    var x := if p.rxmit then Next(p.rpr) else p.nxtps;
    var k := Places(p.ps, x);
    PlacesSlot(p.ps, x);
    assert p.os[x].Full? <==> k <= p.xcount;
  }

  lemma PlacesSlot(n: nat, x: nat)
    requires n < 8 && x < 8
    ensures 1 <= Places(n, x) <= 8 && Slot(n, Places(n, x)) == x
  {
  }

  /** `pksack` leaves it there exactly if it was there and not among the packets freed. */
  lemma SackPointer(p: Pk, ack: nat)
    requires Interval(p) && ack < 8 && Ahead(p.ps, ack) <= p.xcount
    requires Freed(p, Sack(p.(rpr := ack)), ack)
    ensures PointerInWindow(Sack(p.(rpr := ack))) <==> PointerInWindow(p) && Places(p.ps, p.nxtps) > Ahead(p.ps, ack)
  {
    PlacesSlot(p.ps, p.nxtps);
    AheadPlaces(p.ps, ack, p.nxtps);
  }

  lemma AheadPlaces(n: nat, ack: nat, x: nat)
    requires n < 8 && ack < 8 && x < 8
    ensures Ahead(n, ack) <= 7
    ensures Places(ack, x) == if Places(n, x) > Ahead(n, ack) then Places(n, x) - Ahead(n, ack)
      else Places(n, x) + 8 - Ahead(n, ack)
  {
  }

  /** Where the pointer is after an event: `pkoutput` with RXMIT set puts it back, one more
      packet in the window may reach it, and an acknowledgement may pass it. */
  predicate PointerAfter(s: Sys, e: Event)
    requires Wf(s) && Enabled(s, e)
  {
    match e
    case Write(_, _) => Places(s.a.ps, s.a.nxtps) <= s.a.xcount + 2 || s.a.rxmit
    case SendA => PointerInWindow(s.a) || s.a.rxmit
    case TimeoutA => true
    case RecvA => if s.ba[0].Ctl? then PointerAfterAck(s.a, s.ba[0]) else PointerInWindow(s.a)
    case _ => PointerInWindow(s.a)
  }

  predicate PointerAfterAck(p: Pk, f: Frame)
    requires f.Ctl?
  {
    || (PointerInWindow(p) && Places(p.ps, p.nxtps) > Ahead(p.ps, f.ack))
    || f.kind == RJ
    || (p.rxmit && (p.msgRR || p.msgRJ))
  }

  /** In a state of a run the window is an interval and the last acknowledgement is p_ps. */
  lemma OkInterval(s: Sys)
    requires Ok(s)
    ensures Interval(s.a) && s.a.rpr == s.a.ps
  {
    var h :| Good(s, h);
    SenderIsInterval(s.a, h.w, h.psn);
  }

  lemma WritePointer(s: Sys, chunk: seq<nat>, junk: seq<nat>)
    requires Ok(s) && Wf(s) && Enabled(s, Write(chunk, junk))
    ensures PointerInWindow(Do(s, Write(chunk, junk)).a) <==> Places(s.a.ps, s.a.nxtps) <= s.a.xcount + 2 || s.a.rxmit
  {
    OkPut(s, chunk, junk);
    var s1 := s.(a := Put(s.a, chunk, junk), given := s.given + chunk, chunks := s.chunks + [chunk]);
    OkInterval(s1);
    OutputPointer(s1.a);
  }

  lemma OkPut(s: Sys, chunk: seq<nat>, junk: seq<nat>)
    requires Ok(s) && Wf(s) && Enabled(s, Write(chunk, junk))
    ensures Ok(s.(a := Put(s.a, chunk, junk), given := s.given + chunk, chunks := s.chunks + [chunk]))
  {
    var h :| Good(s, h);
    var h' := PutA(s, h, chunk, junk);
  }

  lemma TimeoutPointer(s: Sys)
    requires Ok(s) && Wf(s)
    ensures PointerInWindow(Do(s, TimeoutA).a)
  {
    hide Output, Ok, PointerInWindow;
    OkInterval(s);
    OutputPointer(s.a.(msgRR := s.a.msgRR || !s.a.msgRJ, rxmit := true));
  }

  lemma AckPointer(s: Sys)
    requires Ok(s) && Wf(s) && s.ba != [] && s.ba[0].Ctl?
    ensures PointerInWindow(DoRecvA(s).a) <==> PointerAfterAck(s.a, s.ba[0])
  {
    var f := s.ba[0];
    var a1 := if f.kind == RJ then s.a.(rxmit := true, msgRR := true) else s.a;
    var s1 := s.(a := a1);
    OkFlagsA(s, a1);
    OkInterval(s1);
    OkAckFreed(s1);
    SackPointer(a1, f.ack);
    OkSackA(s1);
    var s2 := s1.(a := Sack(a1.(rpr := f.ack)), ba := s.ba[1..]);
    OkInterval(s2);
    OutputPointer(s2.a);
  }

  lemma OkAckFreed(s: Sys)
    requires Ok(s) && s.ba != [] && s.ba[0].Ctl?
    ensures s.a.Shaped() && s.ba[0].ack < 8 && Ahead(s.a.ps, s.ba[0].ack) <= s.a.xcount
    ensures Freed(s.a, Sack(s.a.(rpr := s.ba[0].ack)), s.ba[0].ack)
  {
    var h :| Good(s, h);
    AckFreed(s, h);
  }

  /** Sending an event's frame is all that other events do to the writing half. */
  lemma OtherPointer(s: Sys, e: Event)
    requires Wf(s) && Enabled(s, e) && !e.Write? && !e.SendA? && !e.TimeoutA? && (e.RecvA? ==> !s.ba[0].Ctl?)
    ensures PointerInWindow(Do(s, e).a) <==> PointerInWindow(s.a)
  {
  }

  lemma SendPointer(s: Sys)
    requires Ok(s) && Wf(s)
    ensures PointerInWindow(Do(s, SendA).a) <==> PointerInWindow(s.a) || s.a.rxmit
  {
    OkInterval(s);
    OutputPointer(s.a);
  }

  lemma PointerEvent(s: Sys, e: Event)
    requires Ok(s) && Wf(s) && Enabled(s, e)
    ensures PointerInWindow(Do(s, e).a) <==> PointerAfter(s, e)
  {
    hide PointerInWindow, Places, PointerAfterAck, Ok;
    if e.Write? {
      WritePointer(s, e.chunk, e.junk);
    } else if e.SendA? {
      SendPointer(s);
    } else if e.TimeoutA? {
      TimeoutPointer(s);
    } else if e.RecvA? && s.ba[0].Ctl? {
      AckPointer(s);
    } else {
      OtherPointer(s, e);
    }
  }

  /** Every event of every run leaves the pointer in the window exactly as `PointerAfter`
      says. */
  lemma PointerExactly(states: seq<Sys>, events: seq<Event>, i: nat)
    requires IsRun(states, events) && i < |events|
    ensures PointerInWindow(states[i + 1].a) <==> PointerAfter(states[i], events[i])
  {
    hide PointerInWindow, PointerAfter, Do, Wf, Enabled, Ok;
    RunKeeps(states, events, i);
    PointerEvent(states[i], events[i]);
  }

  /** An acknowledgement (not a rejection) passes the pointer and nothing sends it back. */
  predicate Passes(s: Sys, e: Event)
    requires Wf(s) && Enabled(s, e)
  {
    && e.RecvA? && s.ba[0].Ctl? && s.ba[0].kind == RR
    && Places(s.a.ps, s.a.nxtps) <= Ahead(s.a.ps, s.ba[0].ack)
    && !(s.a.rxmit && (s.a.msgRR || s.a.msgRJ))
  }

  /** In every run the pointer leaves the window exactly when an acknowledgement passes it. */
  lemma PointerLeavesExactly(states: seq<Sys>, events: seq<Event>, i: nat)
    requires IsRun(states, events) && i < |events| && PointerInWindow(states[i].a)
    ensures !PointerInWindow(states[i + 1].a) <==> Passes(states[i], events[i])
  {
    PointerExactly(states, events, i);
  }

  /** As long as none does, the pointer is in the window. */
  lemma {:induction false} PointerUntilPassed(states: seq<Sys>, events: seq<Event>, i: nat)
    requires IsRun(states, events) && i < |states|
    requires forall j :: 0 <= j < i ==> !Passes(states[j], events[j])
    ensures PointerInWindow(states[i].a)
  {
    if i > 0 {
      PointerUntilPassed(states, events, i - 1);
      PointerLeavesExactly(states, events, i - 1);
    }
  }

  /** And out of the window it comes back exactly when pkoutput goes back to the oldest
      packet, or when the window grows up to it. */
  predicate Returns(s: Sys, e: Event)
    requires Wf(s) && Enabled(s, e)
  {
    || e.TimeoutA?
    || (e.SendA? && s.a.rxmit)
    || (e.Write? && (s.a.rxmit || Places(s.a.ps, s.a.nxtps) == s.a.xcount + 2))
    || (e.RecvA? && s.ba[0].Ctl? && (s.ba[0].kind == RJ || (s.a.rxmit && (s.a.msgRR || s.a.msgRJ))))
  }

  lemma PointerReturnsExactly(states: seq<Sys>, events: seq<Event>, i: nat)
    requires IsRun(states, events) && i < |events| && !PointerInWindow(states[i].a)
    ensures PointerInWindow(states[i + 1].a) <==> Returns(states[i], events[i])
  {
    PointerExactly(states, events, i);
  }

  // ---------- a run in which the pointer falls behind ----------

  /** The end that writes: packets [7] and [8] behind p_ps = 0. */
  function Writer(n: nat, sent: nat, rr: bool): Pk {
    var first := if n < 1 then Empty else Full(true, false, [7]);
    var second := if n < 2 then Empty else Full(true, false, [8]);
    Pk(0, 0, 0, sent, n, n, 0, 2, 2, 1, 1, [Empty, first, second, Empty, Empty, Empty, Empty, Empty],
       [Free, Free, Free, Free, Free, Free, Free, Free], 8, 0, 2, rr, false, false)
  }

  /** The end that reads: what is in slots 0, 1 and 2. */
  function Reader(pr: nat, count: int, slot0: InSlot, slot1: InSlot, slot2: InSlot, pending: nat, pool: nat): Pk {
    Pk(0, pr, 0, 1, 0, 0, count, 2, 2, 1, 1, [Empty, Empty, Empty, Empty, Empty, Empty, Empty, Empty],
       [slot0, slot1, slot2, Free, Free, Free, Free, Free], pending, 0, pool, false, false, false)
  }

  function Got(x: nat): InSlot { Copy(false, [x], 1, false) }

  function Frames(n: nat): seq<Frame> {
    if n == 1 then [Data(1, 0, false, [7], true)] else [Data(1, 0, false, [7], true), Data(2, 0, false, [8], true)]
  }

  /** Two packets are sent, taken and read; the first goes out again before the
      acknowledgement of both arrives. */
  function Story(i: nat): Sys
    requires i <= 8
  {
    var last := Data(2, 0, false, [8], true);
    if i == 0 then Sys(Writer(0, 1, false), Reader(0, 0, Free, Free, Free, 8, 2), [], [], [], [], [], 0)
    else if i == 1 then Sys(Writer(1, 2, false), Reader(0, 0, Free, Free, Free, 8, 2), Frames(1), [], [7], [[7]], [], 0)
    else if i == 2 then Sys(Writer(2, 3, false), Reader(0, 0, Free, Free, Free, 8, 2), Frames(2), [], [7, 8],
      [[7], [8]], [], 0)
    else if i == 3 then Sys(Writer(2, 3, false), Reader(0, 0, Raw(1, false, [7], true), Free, Free, 0, 1), [last], [],
      [7, 8], [[7], [8]], [], 0)
    else if i == 4 then Sys(Writer(2, 3, false), Reader(0, 1, Free, Got(7), Free, 8, 1), [last], [], [7, 8], [[7], [8]],
      [], 0)
    else if i == 5 then Sys(Writer(2, 3, false), Reader(0, 1, Raw(2, false, [8], true), Got(7), Free, 0, 0), [], [],
      [7, 8], [[7], [8]], [], 0)
    else if i == 6 then Sys(Writer(2, 3, false), Reader(0, 2, Free, Got(7), Got(8), 8, 0), [], [], [7, 8], [[7], [8]],
      [], 0)
    else if i == 7 then Sys(Writer(2, 3, false), Reader(2, 0, Free, Free, Free, 8, 2), [], [Ctl(RR, 2)], [7, 8],
      [[7], [8]], [7, 8], 2)
    else Sys(Writer(2, 2, true), Reader(2, 0, Free, Free, Free, 8, 2), Frames(1), [Ctl(RR, 2)], [7, 8], [[7], [8]],
      [7, 8], 2)
  }

  function Plot(i: nat): Event
    requires i <= 8
  {
    if i == 0 then Write([7], [0]) else if i == 1 then Write([8], [0])
    else if i == 2 || i == 4 then RecvB else if i == 3 || i == 5 then AcceptB
    else if i == 6 then ReadB(2) else if i == 7 then TimeoutA else RecvA
  }

  ghost predicate Follows(i: nat)
    requires i < 8
  {
    Wf(Story(i)) && Enabled(Story(i), Plot(i)) && Do(Story(i), Plot(i)) == Story(i + 1)
  }

  lemma PlotWrite()
    ensures Follows(0)
  {
  }

  lemma PlotWriteAgain()
    ensures Follows(1)
  {
  }

  /** The second scan in a window of two. */
  lemma SettleTwo(p: Pk)
    requires p.Shaped() && p.pr == 0 && p.rwindow == 2 && p.ins[1].Copy? && (p.ins[2].Copy? || p.ins[2].Free?)
    ensures Settle(p, 1, false, 0) == p.(rcount := if p.ins[2].Copy? then 2 else 1)
  {
    assert Settle(p, 2, false, 1) == if p.ins[2].Copy? then Settle(p, 3, false, 2) else Settle(p, 3, true, 1);
  }

  lemma TakesFrame(b: Pk, f: Frame)
    requires b.Shaped() && f.Data? && f.num < 8 && f.ack == b.rpr == b.ps && b.pr == 0 && b.pending == 8 && b.pool > 0
      && b.ins[0].Free?
    ensures ReceiveData(b, f) ==
      b.(pool := b.pool - 1, ins := b.ins[0 := Raw(f.num, f.short, f.body, f.intact)], pending := 0)
  {
    SackNothing(b);
    assert b.(rpr := f.ack) == b;
    assert FreeSlot(b.ins, b.pr, 0) == 0;
  }

  lemma PlotFirst()
    ensures Follows(2)
  {
    hide ReceiveData;
    TakesFrame(Story(2).b, Frames(2)[0]);
    assert Story(2).ab[1..] == Story(3).ab;
  }

  lemma PlotSecond()
    ensures Follows(4)
  {
    hide ReceiveData;
    TakesFrame(Story(4).b, Story(4).ab[0]);
    assert Story(4).ab[1..] == [];
  }

  lemma PlotAccepts(i: nat, q: Pk)
    requires i == 3 || i == 5
    requires q == Reader(
      0, if i == 3 then 0 else 1, Free, Got(7), if i == 3 then Free else Got(8), 8, if i == 3 then 1 else 0)
    ensures Examine(Story(i).b.(pending := 8), 0) == q && Accept(Story(i).b) == Story(i + 1).b
  {
    hide Settle;
    assert Examine(Story(i).b.(pending := 8), 0) == q;
    SettleTwo(q);
  }

  lemma PlotAccept()
    ensures Follows(3)
  {
    hide Accept;
    PlotAccepts(3, Reader(0, 0, Free, Got(7), Free, 8, 1));
  }

  lemma PlotAcceptAgain()
    ensures Follows(5)
  {
    hide Accept;
    PlotAccepts(5, Reader(0, 1, Free, Got(7), Got(8), 8, 0));
  }

  /** Reading a packet of one byte. */
  lemma ReadUnit(p: Pk, n: nat, xfr: bool, x: nat, p1: Pk, rest: (Pk, seq<nat>))
    requires p.Shaped() && p.ins[Next(p.pr)] == Got(x) && n > 0 && p1 == OneRead(p, 1)
      && rest == ReadLoop(p1, n - 1, true)
    ensures ReadLoop(p, n, xfr) == (rest.0, [x] + rest.1)
  {
    assert PartRead(p, 1) == [x];
  }

  lemma TakesUnit(p: Pk, x: nat)
    requires p.Shaped() && p.ins[Next(p.pr)] == Got(x)
    ensures OneRead(p, 1) == p.(
      pr := Next(p.pr), ins := p.ins[Next(p.pr) := Free], pool := p.pool + 1, rcount := p.rcount - 1, msgRR := true)
  {
  }

  lemma SendsAck(p: Pk)
    requires p.Shaped() && p.msgRR && !p.msgRJ && !p.rxmit && p.os[p.nxtps].Empty?
    ensures Output(p) == (p.(msgRR := false), [Ctl(RR, p.pr)])
  {
  }

  lemma PlotTakes(b: Pk, b1: Pk, b2: Pk)
    requires b == Reader(0, 2, Free, Got(7), Got(8), 8, 0)
      && b1 == Reader(1, 1, Free, Free, Got(8), 8, 1).(msgRR := true)
    requires b2 == Reader(2, 0, Free, Free, Free, 8, 2).(msgRR := true)
    ensures OneRead(b, 1) == b1 && OneRead(b1, 1) == b2 && Output(b2) == (b2.(msgRR := false), [Ctl(RR, 2)])
  {
    hide OneRead, Output;
    TakesUnit(b, 7);
    assert b.ins[1 := Free] == b1.ins;
    TakesUnit(b1, 8);
    assert b1.ins[2 := Free] == b2.ins;
    SendsAck(b2);
  }

  lemma PlotReads()
    ensures Follows(6)
  {
    hide ReadLoop, OneRead, Output;
    var b := Story(6).b;
    var b1, b2 := Reader(1, 1, Free, Free, Got(8), 8, 1).(msgRR := true),
      Reader(2, 0, Free, Free, Free, 8, 2).(msgRR := true);
    PlotTakes(b, b1, b2);
    NothingWanted(b2, true);
    ReadUnit(b1, 1, true, 8, b2, (b2, []));
    ReadUnit(b, 2, false, 7, b1, (b2, [8] + []));
  }

  lemma NothingWanted(p: Pk, xfr: bool)
    requires p.Shaped()
    ensures ReadLoop(p, 0, xfr) == (p, [])
  {
  }

  lemma PlotAgain()
    ensures Follows(7)
  {
  }

  lemma PlotEnds()
    ensures Init(Story(0)) && Wf(Story(8)) && Enabled(Story(8), Plot(8))
    ensures PointerInWindow(Story(8).a) && Passes(Story(8), Plot(8))
  {
  }

  lemma PlotFollows(i: nat)
    requires i < 8
    ensures Follows(i)
  {
    hide Follows;
    PlotWrite();
    PlotWriteAgain();
    PlotFirst();
    PlotSecond();
    PlotAccept();
    PlotAcceptAgain();
    PlotReads();
    PlotAgain();
  }

  /** So the pointer does leave the window, in a run without a lost or damaged frame. */
  lemma PointerFallsBehind() returns (states: seq<Sys>, events: seq<Event>)
    ensures IsRun(states, events) && |events| == 9
    ensures PointerInWindow(states[8].a) && !PointerInWindow(states[9].a)
  {
    hide Do, Story, Plot, Init, Wf, Enabled, PointerInWindow, Passes;
    PlotEnds();
    states, events := seq(10, i requires 0 <= i < 10 => Scene(i)), seq(9, i requires 0 <= i < 9 => Plot(i));
    forall i | 0 <= i < 9
      ensures Wf(states[i]) && Enabled(states[i], events[i]) && states[i + 1] == Do(states[i], events[i])
    {
      if i < 8 { PlotFollows(i); }
    }
    PointerLeavesExactly(states, events, 8);
  }

  function Scene(i: nat): Sys
    requires i <= 9
  {
    if i <= 8 then Story(i) else if Wf(Story(8)) && Enabled(Story(8), Plot(8)) then Do(Story(8), Plot(8)) else Story(8)
  }
}
