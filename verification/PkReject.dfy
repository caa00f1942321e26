/** What a rejection is for (cmd/bnu/pk0.c, cmd/bnu/pk1.c): in every run, a frame whose body does
    not check out makes the reader send RJ, and RJ makes the writer go back to the oldest packet
    that has not been acknowledged.
 */
module PkReject {
  import opened PkPack
  import opened PkRun
  import opened PkWindow

  // ---------- what an event puts on a link ----------

  /** The frames that the reader sends in event `e`. */
  function SentBack(s: Sys, e: Event): seq<Frame>
    requires Wf(s) && Enabled(s, e)
  {
    var ba := Do(s, e).ba;
    if e.RecvA? || e.LoseBA? || e.DamageBA? || |ba| < |s.ba| then [] else ba[|s.ba|..]
  }

  /** The frames that the writer sends in event `e`. */
  function SentForth(s: Sys, e: Event): seq<Frame>
    requires Wf(s) && Enabled(s, e)
  {
    var ab := Do(s, e).ab;
    if e.RecvB? || e.LoseBodyB? || e.LoseAB? || e.DamageAB? || |ab| < |s.ab| then [] else ab[|s.ab|..]
  }

  lemma {:induction false} SackKeeps(p: Pk, x: nat)
    requires p.Shaped() && x < 8
    ensures var r := SackFrom(p, x); r == p.(os := r.os, xcount := r.xcount, ps := r.ps)
    decreases Ahead(x, p.rpr)
  {
    if x != p.rpr {
      var y := Next(x);
      var p' := if p.os[y].Full? && p.os[y].sent
                then p.(os := p.os[y := Empty], xcount := p.xcount - 1, ps := y)
                else p;
      SackKeeps(p', y);
    }
  }

  lemma {:induction false} SettleKeepsFlags(p: Pk, k: nat, gap: bool, count: nat)
    requires p.Shaped() && 1 <= k
    ensures var r := Settle(p, k, gap, count); r.msgRJ == p.msgRJ && r.rxmit == p.rxmit
    decreases if k <= p.rwindow then p.rwindow - k + 1 else 0
  {
    if k <= p.rwindow {
      var x := (p.pr + k) % 8;
      if p.ins[x].Copy? && gap {
        SettleKeepsFlags(p.(ins := p.ins[x := Free], pool := p.pool + 1, msgRR := true), k + 1, gap, count);
      } else {
        SettleKeepsFlags(p, k + 1, gap || !p.ins[x].Copy?, if p.ins[x].Copy? then count + 1 else count);
      }
    }
  }

  lemma {:induction false} ReadKeepsFlags(p: Pk, icount: nat, xfr: bool)
    requires p.Shaped()
    ensures var r := ReadLoop(p, icount, xfr).0; r.msgRJ == p.msgRJ && r.os == p.os
    decreases icount
  {
    var x := Next(p.pr);
    if icount > 0 && p.ins[x].Copy? {
      var cc := if p.ins[x].left < icount then p.ins[x].left else icount;
      if cc > 0 { ReadKeepsFlags(OneRead(p, cc), icount - cc, true); }
    }
  }

  // ---------- the reader ----------

  /** A rejection is due, and it goes out before anything else. */
  predicate Rejecting(b: Pk, r: Pk, sent: seq<Frame>) {
    if sent == [] then r.msgRJ else sent == [Ctl(RJ, r.pr)] && !r.msgRJ
  }

  lemma OutputRejects(b: Pk)
    requires b.Shaped() && b.msgRJ
    ensures Output(b).1 == [Ctl(RJ, b.pr)] && !Output(b).0.msgRJ && Output(b).0.pr == b.pr
  {
  }

  lemma ControlRejects(b: Pk, f: Frame)
    requires b.Shaped() && f.Ctl? && f.ack < 8 && b.msgRJ
    ensures var o := ReceiveControl(b, f); o.1 == [Ctl(RJ, o.0.pr)] && !o.0.msgRJ
  {
    hide SackFrom, Output;
    var p := (if f.kind == RJ then b.(rxmit := true, msgRR := true) else b).(rpr := f.ack);
    SackKeeps(p, p.ps);
    OutputRejects(Sack(p));
  }

  lemma LoseBodyRejects(b: Pk, f: Frame)
    requires b.Shaped() && f.Data? && f.num < 8 && f.ack < 8 && b.msgRJ
    ensures var o := LoseBody(b, f); Rejecting(b, o.0, o.1)
  {
    hide SackFrom, Output;
    var p := b.(rpr := f.ack);
    SackKeeps(p, p.ps);
    var q := Sack(p);
    if q.pool > 0 {
      var u := q.(pool := q.pool - 1);
      OutputRejects(u.(msgRR := u.msgRR || !u.msgRJ, rxmit := true));
    }
  }

  lemma AcceptRejects(b: Pk)
    requires b.Shaped() && (b.pending < 8 ==> b.ins[b.pending].Raw? && b.ins[b.pending].num < 8)
    ensures Accept(b).msgRJ <==> b.msgRJ || (b.pending < 8 && !b.ins[b.pending].intact)
  {
    hide Settle;
    var q := b.(pending := 8);
    SettleKeepsFlags(if b.pending == 8 then q else Examine(q, b.pending), 1, false, 0);
  }

  /** As long as a rejection is due, nothing else is sent. */
  lemma DueStep(s: Sys, e: Event)
    requires Wf(s) && Enabled(s, e) && s.b.msgRJ
    ensures Rejecting(s.b, Do(s, e).b, SentBack(s, e))
  {
    hide Output, SackFrom, ReadLoop, Settle, Timeout, ReceiveControl, LoseBody, Accept;
    match e
    case RecvB =>
      var f := s.ab[0];
      assert f in s.ab;
      if f.Ctl? {
        ControlRejects(s.b, f);
        assert (s.ba + ReceiveControl(s.b, f).1)[|s.ba|..] == ReceiveControl(s.b, f).1;
      } else if f.Data? {
        SackKeeps(s.b.(rpr := f.ack), s.b.ps);
      }
    case LoseBodyB =>
      assert s.ab[0] in s.ab;
      LoseBodyRejects(s.b, s.ab[0]);
      assert (s.ba + LoseBody(s.b, s.ab[0]).1)[|s.ba|..] == LoseBody(s.b, s.ab[0]).1;
    case TimeoutB =>
      TimeoutRejects(s.b);
      assert (s.ba + Timeout(s.b).1)[|s.ba|..] == Timeout(s.b).1;
    case AcceptB => AcceptRejects(s.b);
    case ReadB(icount) =>
      var r := ReadLoop(s.b, icount, false).0;
      ReadKeepsFlags(s.b, icount, false);
      OutputRejects(r);
      assert (s.ba + Output(r).1)[|s.ba|..] == Output(r).1;
    case _ =>
  }

  lemma TimeoutRejects(b: Pk)
    requires b.Shaped() && b.msgRJ
    ensures var o := Timeout(b); o.1 == [Ctl(RJ, o.0.pr)] && !o.0.msgRJ
  {
    OutputRejects(b.(msgRR := b.msgRR || !b.msgRJ, rxmit := true));
  }

  /** `pkaccept` looks at a frame whose body did not check out. */
  predicate MeetsDamage(s: Sys, e: Event) {
    e.AcceptB? && s.b.Shaped() && s.b.pending < 8 && s.b.ins[s.b.pending].Raw? && !s.b.ins[s.b.pending].intact
  }

  /** What is sent while no rejection is due. */
  predicate Peaceful(r: Pk, sent: seq<Frame>) {
    !r.msgRJ && Rejections(sent) == 0
  }

  function Rejections(fs: seq<Frame>): nat {
    if fs == [] then 0 else (if fs[0].Ctl? && fs[0].kind == RJ then 1 else 0) + Rejections(fs[1..])
  }

  lemma OutputPeaceful(b: Pk)
    requires b.Shaped() && !b.msgRJ
    ensures Peaceful(Output(b).0, Output(b).1) && |Output(b).1| <= 1
  {
    var sent := Output(b).1;
    if sent != [] { assert sent[1..] == []; }
  }

  lemma ControlPeaceful(b: Pk, f: Frame)
    requires b.Shaped() && f.Ctl? && f.ack < 8 && !b.msgRJ
    ensures var o := ReceiveControl(b, f); Peaceful(o.0, o.1)
  {
    hide SackFrom, Output;
    var p := (if f.kind == RJ then b.(rxmit := true, msgRR := true) else b).(rpr := f.ack);
    SackKeeps(p, p.ps);
    OutputPeaceful(Sack(p));
  }

  lemma LoseBodyPeaceful(b: Pk, f: Frame)
    requires b.Shaped() && f.Data? && f.num < 8 && f.ack < 8 && !b.msgRJ
    ensures var o := LoseBody(b, f); Peaceful(o.0, o.1)
  {
    hide SackFrom, Output;
    var p := b.(rpr := f.ack);
    SackKeeps(p, p.ps);
    var q := Sack(p);
    if q.pool > 0 {
      var u := q.(pool := q.pool - 1);
      OutputPeaceful(u.(msgRR := u.msgRR || !u.msgRJ, rxmit := true));
    }
  }

  /** Only a damaged frame makes a rejection due. */
  lemma PeacefulStep(s: Sys, e: Event)
    requires Wf(s) && Enabled(s, e) && !s.b.msgRJ
    ensures Rejections(SentBack(s, e)) == 0 && (Do(s, e).b.msgRJ <==> MeetsDamage(s, e))
  {
    hide Output, SackFrom, ReadLoop, Settle, Timeout, ReceiveControl, LoseBody, Accept;
    match e
    case RecvB =>
      var f := s.ab[0];
      assert f in s.ab;
      if f.Ctl? {
        ControlPeaceful(s.b, f);
        assert (s.ba + ReceiveControl(s.b, f).1)[|s.ba|..] == ReceiveControl(s.b, f).1;
      } else if f.Data? {
        SackKeeps(s.b.(rpr := f.ack), s.b.ps);
      }
    case LoseBodyB =>
      assert s.ab[0] in s.ab;
      LoseBodyPeaceful(s.b, s.ab[0]);
      assert (s.ba + LoseBody(s.b, s.ab[0]).1)[|s.ba|..] == LoseBody(s.b, s.ab[0]).1;
    case TimeoutB =>
      TimeoutPeaceful(s.b);
      assert (s.ba + Timeout(s.b).1)[|s.ba|..] == Timeout(s.b).1;
    case AcceptB => AcceptRejects(s.b);
    case ReadB(icount) =>
      var r := ReadLoop(s.b, icount, false).0;
      ReadKeepsFlags(s.b, icount, false);
      OutputPeaceful(r);
      assert (s.ba + Output(r).1)[|s.ba|..] == Output(r).1;
    case _ =>
  }

  lemma TimeoutPeaceful(b: Pk)
    requires b.Shaped() && !b.msgRJ
    ensures var o := Timeout(b); Peaceful(o.0, o.1)
  {
    OutputPeaceful(b.(msgRR := b.msgRR || !b.msgRJ, rxmit := true));
  }

  /** The receiver's number is that of the last packet read. */
  lemma NumberRead(s: Sys)
    requires Ok(s)
    ensures s.finished >= 0 && s.b.pr == s.finished % 8
  {
    hide Sender, ForwardLink, BackwardLink, PendingFrame, SentTo, Holds, Flat, Partial;
    var h :| Good(s, h);
  }

  // ---------- over runs ----------

  lemma {:induction false} StaysDue(states: seq<Sys>, events: seq<Event>, i: nat, j: nat)
    requires IsRun(states, events) && i < j <= |events| && MeetsDamage(states[i], events[i])
    requires forall k :: i < k < j ==> SentBack(states[k], events[k]) == []
    ensures states[j].b.msgRJ
  {
    assert Wf(states[i]) && Enabled(states[i], events[i]);
    if j == i + 1 {
      AcceptRejects(states[i].b);
    } else {
      StaysDue(states, events, i, j - 1);
      assert Wf(states[j - 1]) && Enabled(states[j - 1], events[j - 1]);
      assert states[j] == Do(states[j - 1], events[j - 1]);
      DueStep(states[j - 1], events[j - 1]);
    }
  }

  /** In every run: the next frame that the reader sends after it has looked at a damaged one is
      RJ, with the number of the last packet read. */
  lemma DamageIsRejected(states: seq<Sys>, events: seq<Event>, i: nat, j: nat)
    requires IsRun(states, events) && i < j < |events| && MeetsDamage(states[i], events[i])
    requires forall k :: i < k < j ==> SentBack(states[k], events[k]) == []
    requires Wf(states[j]) && Enabled(states[j], events[j]) && SentBack(states[j], events[j]) != []
    ensures states[j + 1].finished >= 0
    ensures SentBack(states[j], events[j]) == [Ctl(RJ, states[j + 1].finished % 8)]
  {
    StaysDue(states, events, i, j);
    DueStep(states[j], events[j]);
    RunKeeps(states, events, j + 1);
    NumberRead(states[j + 1]);
  }

  /** Rejections sent, and damaged frames looked at, in the first n events. */
  function RejectionsSent(states: seq<Sys>, events: seq<Event>, n: nat): nat
    requires |states| == |events| + 1 && n <= |events|
    requires forall k :: 0 <= k < |events| ==> Wf(states[k]) && Enabled(states[k], events[k])
  {
    if n == 0 then 0
    else RejectionsSent(states, events, n - 1) + Rejections(SentBack(states[n - 1], events[n - 1]))
  }

  function DamageMet(states: seq<Sys>, events: seq<Event>, n: nat): nat
    requires |states| == |events| + 1 && n <= |events|
  {
    if n == 0 then 0
    else DamageMet(states, events, n - 1) + if MeetsDamage(states[n - 1], events[n - 1]) then 1 else 0
  }

  function Pending(due: bool): nat {
    if due then 1 else 0
  }

  lemma RejectionsOne(ack: nat)
    ensures Rejections([Ctl(RJ, ack)]) == 1
  {
    assert [Ctl(RJ, ack)][1..] == [];
  }

  /** Every rejection has a damaged frame of its own before it, but for one that is due from the
      beginning. */
  lemma {:induction false} RejectionsAreDue(states: seq<Sys>, events: seq<Event>, n: nat)
    requires IsRun(states, events) && n <= |events|
    ensures RejectionsSent(states, events, n) + Pending(states[n].b.msgRJ)
      <= DamageMet(states, events, n) + Pending(states[0].b.msgRJ)
  {
    if n > 0 {
      RejectionsAreDue(states, events, n - 1);
      var s, e := states[n - 1], events[n - 1];
      if s.b.msgRJ {
        DueStep(s, e);
        RejectionsOne(Do(s, e).b.pr);
      } else {
        PeacefulStep(s, e);
      }
    }
  }

  lemma {:induction false} RejectionsConcat(p: seq<Frame>, q: seq<Frame>)
    ensures Rejections(p + q) == Rejections(p) + Rejections(q)
  {
    if p == [] {
      assert p + q == q;
    } else {
      assert (p + q)[1..] == p[1..] + q;
      RejectionsConcat(p[1..], q);
    }
  }

  /** A link gains no rejection but those sent. */
  lemma LinkStep(s: Sys, e: Event)
    requires Wf(s) && Enabled(s, e)
    ensures Rejections(Do(s, e).ba) <= Rejections(s.ba) + Rejections(SentBack(s, e))
  {
    hide Output, SackFrom, ReadLoop, Settle, Timeout, ReceiveControl, LoseBody, Accept;
    var ba := Do(s, e).ba;
    match e
    case RecvA => RejectionsSplit(s.ba, 0);
    case LoseBA(i) =>
      RejectionsSplit(s.ba, i);
      RejectionsConcat(s.ba[..i], s.ba[i + 1..]);
    case DamageBA(i) =>
      RejectionsSplit(s.ba, i);
      RejectionsSplit(ba, i);
      assert ba[..i] == s.ba[..i] && ba[i + 1..] == s.ba[i + 1..];
    case _ =>
      Appended(s, e);
      RejectionsConcat(s.ba, ba[|s.ba|..]);
  }

  lemma RejectionsSplit(fs: seq<Frame>, i: nat)
    requires i < |fs|
    ensures Rejections(fs) == Rejections(fs[..i]) + Rejections([fs[i]]) + Rejections(fs[i + 1..])
    ensures fs[i] == Noise ==> Rejections([fs[i]]) == 0
    ensures i == 0 ==> Rejections(fs[..i]) == 0
  {
    RejectionsConcat(fs[..i], [fs[i]]);
    RejectionsConcat(fs[..i] + [fs[i]], fs[i + 1..]);
    assert fs[..i] + [fs[i]] + fs[i + 1..] == fs;
    assert [fs[i]][1..] == [];
  }

  lemma Appended(s: Sys, e: Event)
    requires Wf(s) && Enabled(s, e) && !e.RecvA? && !e.LoseBA? && !e.DamageBA?
    ensures s.ba <= Do(s, e).ba && Do(s, e).ba == s.ba + Do(s, e).ba[|s.ba|..]
  {
    hide Output, SackFrom, ReadLoop, Settle, Timeout, ReceiveControl, LoseBody, Accept, ReceiveData;
    assert s.ba + [] == s.ba;
  }

  lemma {:induction false} RejectionsWereSent(states: seq<Sys>, events: seq<Event>, n: nat)
    requires IsRun(states, events) && n <= |events|
    ensures Rejections(states[n].ba) <= RejectionsSent(states, events, n)
  {
    if n > 0 {
      RejectionsWereSent(states, events, n - 1);
      LinkStep(states[n - 1], events[n - 1]);
    }
  }

  lemma {:induction false} SomeRejection(fs: seq<Frame>, j: nat)
    requires j < |fs| && fs[j].Ctl? && fs[j].kind == RJ
    ensures Rejections(fs) > 0
  {
    if j > 0 { SomeRejection(fs[1..], j - 1); }
  }

  lemma {:induction false} SomeDamage(states: seq<Sys>, events: seq<Event>, n: nat) returns (i: nat)
    requires |states| == |events| + 1 && n <= |events| && DamageMet(states, events, n) > 0
    ensures i < n && MeetsDamage(states[i], events[i])
  {
    if MeetsDamage(states[n - 1], events[n - 1]) {
      i := n - 1;
    } else {
      i := SomeDamage(states, events, n - 1);
    }
  }

  /** In every run: RJ on its way back means that the reader has looked at a damaged frame before,
      unless one was due from the beginning. */
  lemma RejectionNeedsDamage(states: seq<Sys>, events: seq<Event>, n: nat, j: nat) returns (i: nat)
    requires IsRun(states, events) && n <= |events|
    requires j < |states[n].ba| && states[n].ba[j].Ctl? && states[n].ba[j].kind == RJ
    ensures states[0].b.msgRJ || (i < n && MeetsDamage(states[i], events[i]))
  {
    i := 0;
    if !states[0].b.msgRJ {
      SomeRejection(states[n].ba, j);
      RejectionsWereSent(states, events, n);
      RejectionsAreDue(states, events, n);
      i := SomeDamage(states, events, n);
    }
  }

  // ---------- acknowledgements ----------

  /** An end without data to send answers with what is due. */
  lemma OutputAnswers(b: Pk)
    requires b.Shaped() && (b.msgRR || b.msgRJ) && forall x :: 0 <= x < 8 ==> b.os[x].Empty?
    ensures Output(b).1 == [Ctl(if b.msgRJ then RJ else RR, b.pr)] && Output(b).0.pr == b.pr
  {
  }

  /** A packet finished makes an acknowledgement due. */
  lemma {:induction false} ReadMakesDue(p: Pk, icount: nat, xfr: bool)
    requires p.Shaped()
    ensures var r := ReadLoop(p, icount, xfr).0; (r.rcount < p.rcount ==> r.msgRR) && (p.msgRR ==> r.msgRR)
    decreases icount
  {
    var x := Next(p.pr);
    if icount > 0 && p.ins[x].Copy? {
      var cc := if p.ins[x].left < icount then p.ins[x].left else icount;
      if cc > 0 { ReadMakesDue(OneRead(p, cc), icount - cc, true); }
    }
  }

  /** In every state of every run: a `pkread` that finishes a packet acknowledges the last one that
      it finished before it returns, with RJ if a rejection is due. */
  lemma ReadAcknowledges(s: Sys, icount: nat)
    requires Ok(s) && Wf(s) && Enabled(s, ReadB(icount)) && Do(s, ReadB(icount)).finished > s.finished
    ensures var s' := Do(s, ReadB(icount));
      s'.finished >= 0 && SentBack(s, ReadB(icount)) == [Ctl(if s.b.msgRJ then RJ else RR, s'.finished % 8)]
  {
    hide Output, ReadLoop, Ok;
    var r := ReadLoop(s.b, icount, false).0;
    ReadKeepsFlags(s.b, icount, false);
    ReadMakesDue(s.b, icount, false);
    OutputAnswers(r);
    StepKeeps(s, ReadB(icount));
    NumberRead(Do(s, ReadB(icount)));
    assert (s.ba + Output(r).1)[|s.ba|..] == Output(r).1;
  }

  /** And a reader that has waited in vain says where it is. */
  lemma TimeoutAnswers(s: Sys)
    requires Ok(s) && Wf(s)
    ensures s.finished >= 0 && SentBack(s, TimeoutB) == [Ctl(if s.b.msgRJ then RJ else RR, s.finished % 8)]
  {
    hide Output, Ok;
    OutputAnswers(s.b.(msgRR := s.b.msgRR || !s.b.msgRJ, rxmit := true));
    NumberRead(s);
    assert (s.ba + Timeout(s.b).1)[|s.ba|..] == Timeout(s.b).1;
  }

  // ---------- frames that are not taken ----------

  predicate Owing(b: Pk) {
    b.msgRR || b.msgRJ
  }

  /** The pending frame carries the packet behind those accepted, and the window has room for it. */
  predicate IsNext(b: Pk) {
    && b.Shaped() && b.pending < 8 && b.ins[b.pending].Raw? && b.ins[b.pending].intact
    && b.rcount < b.rwindow && b.ins[b.pending].num == (b.pr + b.rcount + 1) % 8
  }

  lemma {:induction false} SettleStaysOwing(p: Pk, k: nat, gap: bool, count: nat)
    requires p.Shaped() && 1 <= k && Owing(p)
    ensures Owing(Settle(p, k, gap, count))
    decreases if k <= p.rwindow then p.rwindow - k + 1 else 0
  {
    if k <= p.rwindow {
      var x := (p.pr + k) % 8;
      if p.ins[x].Copy? && gap {
        SettleStaysOwing(p.(ins := p.ins[x := Free], pool := p.pool + 1, msgRR := true), k + 1, gap, count);
      } else {
        SettleStaysOwing(p, k + 1, gap || !p.ins[x].Copy?, if p.ins[x].Copy? then count + 1 else count);
      }
    }
  }

  /** A packet behind a gap makes an answer due. */
  lemma {:induction false} SettleOwes(p: Pk, k: nat, count: nat, j: nat)
    requires p.Shaped() && 1 <= k <= j <= p.rwindow && p.ins[Slot(p.pr, j)].Copy?
    ensures Owing(Settle(p, k, true, count))
    decreases j - k
  {
    var x := Slot(p.pr, k);
    if p.ins[x].Copy? {
      SettleStaysOwing(p.(ins := p.ins[x := Free], pool := p.pool + 1, msgRR := true), k + 1, true, count);
    } else {
      SettleOwes(p, k + 1, count, j);
    }
  }

  lemma {:induction false} SettleGap(p: Pk, k: nat, c: nat, j: nat)
    requires p.Shaped() && 1 <= k <= c + 1 < j <= p.rwindow && p.ins[Slot(p.pr, j)].Copy?
    requires forall i {:trigger Slot(p.pr, i)} :: k <= i <= c ==> p.ins[Slot(p.pr, i)].Copy?
    requires !p.ins[Slot(p.pr, c + 1)].Copy?
    ensures Owing(Settle(p, k, false, k - 1))
    decreases c + 1 - k
  {
    if k <= c {
      assert p.ins[Slot(p.pr, k)].Copy?;
      SettleGap(p, k + 1, c, j);
    } else {
      SettleOwes(p, c + 2, c, j);
    }
  }

  /** A frame beyond a gap is given back, and an answer is due. */
  lemma BeyondOwes(b: Pk, w: seq<Packet>, prn: nat, k: nat, got: InSlot, b': Pk)
    requires Receiver(b, w, prn) && b.pending < 8 && b.ins[b.pending].Raw? && b.rcount + 1 < k <= b.rwindow && got.Copy?
    requires b' == b.(ins := Taken(b.ins, b.pending, Slot(prn, k), got), pending := 8)
    ensures b'.Shaped()
    ensures var r := Settle(b', 1, false, 0); r.rcount == b.rcount && Owing(r)
  {
    TakenBeyond(b, w, prn, k, got, b');
    hide Settle, Holds;
    TakenSlots(b, w, prn, k, got);
    SlotsOfMod(prn, b.pr);
    SettleGap(b', 1, b.rcount, k);
  }

  lemma SlotsDiffer(pr: nat, j: nat, k: nat)
    requires pr < 8 && 1 <= j <= 8 && 1 <= k <= 8 && (pr + j) % 8 == (pr + k) % 8
    ensures j == k
  {
    if j != k { SlotApart(pr, j, k); }
  }

  lemma NextIsAhead(pr: nat, k: nat)
    requires pr < 8 && 1 <= k <= 7
    ensures Ahead(pr, (pr + k) % 8) == k
  {
  }

  lemma TakenAnswers(s: Sys, h: Hist, got: InSlot, k: nat)
    requires Good(s, h) && s.b.pending < 8 && s.b.rcount < k <= s.b.rwindow && got.Copy?
    requires Slot(h.prn, k) == s.b.ins[s.b.pending].num && s.b.ins[s.b.pending].intact
    ensures var b' := s.b.(ins := Taken(s.b.ins, s.b.pending, Slot(h.prn, k), got), pending := 8);
      b'.Shaped() && var r := Settle(b', 1, false, 0);
      if IsNext(s.b) then r.rcount == s.b.rcount + 1 else r.rcount == s.b.rcount && Owing(r)
  {
    hide Settle, Holds, Taken, Sender, ForwardLink, BackwardLink, PendingFrame, SentTo, Flat, Partial;
    var b' := s.b.(ins := Taken(s.b.ins, s.b.pending, Slot(h.prn, k), got), pending := 8);
    SlotOfMod(h.prn, k);
    assert s.b.ins[s.b.pending].Raw?;
    if k == s.b.rcount + 1 {
      TakenNextSlots(s.b, h.w, h.prn, got, b');
    } else {
      BeyondOwes(s.b, h.w, h.prn, k, got, b');
      if IsNext(s.b) { SlotsDiffer(s.b.pr, k, s.b.rcount + 1); }
    }
  }

  /** The slot behind the accepted packets is in the window and free, or that of the pending frame. */
  lemma NextIsFree(b: Pk, w: seq<Packet>, prn: nat)
    requires Receiver(b, w, prn) && b.rcount < b.rwindow
    ensures var x := (b.pr + b.rcount + 1) % 8; InWindow(b, x) && !b.ins[x].Copy?
  {
    NextIsAhead(b.pr, b.rcount + 1);
    ReceiverSlots(b, w, prn);
    assert Slot(b.pr, b.rcount + 1) == (b.pr + b.rcount + 1) % 8;
  }

  lemma NotTakenAnswers(s: Sys, h: Hist)
    requires Good(s, h) && s.b.pending < 8
    requires var f := s.b.ins[s.b.pending];
      f.Raw? && f.num < 8 && !(f.intact && InWindow(s.b, f.num) && (f.num == s.b.pending || !s.b.ins[f.num].Copy?))
    ensures var r := Accept(s.b); !IsNext(s.b) && r.rcount == s.b.rcount && Owing(r)
  {
    hide Settle, Sender, ForwardLink, BackwardLink, PendingFrame, SentTo, Flat, Partial, Holds;
    var e := Examine(s.b.(pending := 8), s.b.pending);
    FreedReceiver(s.b, h.w, h.prn, e);
    SettleKeeps(e, h.w, h.prn);
    SettleStaysOwing(e, 1, false, 0);
    if s.b.rcount < s.b.rwindow { NextIsFree(s.b, h.w, h.prn); }
  }

  /** In every state of every run: `pkaccept` takes the frame it looks at exactly if that carries the
      next packet, and if not, an answer is due. */
  lemma AcceptAnswers(s: Sys)
    requires Ok(s) && Wf(s) && s.b.pending < 8
    ensures var r := Accept(s.b);
      if IsNext(s.b) then r.rcount == s.b.rcount + 1 else r.rcount == s.b.rcount && Owing(r)
  {
    hide Settle, Examine, Inv;
    var h :| Good(s, h);
    var taken, got := ExamineIs(s.b);
    if taken {
      PendingFacts(s, h);
      var k := WhichPacket(s.b, h.w, h.prn, h.rawn, got);
      TakenAnswers(s, h, got, k);
    } else {
      NotTakenAnswers(s, h);
    }
  }

  /** What is due is the next frame to be sent. */
  predicate Answers(r: Pk, sent: seq<Frame>) {
    if sent == [] then Owing(r) else sent == [Ctl(RR, r.pr)] || sent == [Ctl(RJ, r.pr)]
  }

  lemma {:induction false} SackEmpty(p: Pk, x: nat)
    requires p.Shaped() && x < 8 && forall y :: 0 <= y < 8 ==> p.os[y].Empty?
    ensures SackFrom(p, x) == p
    decreases Ahead(x, p.rpr)
  {
    if x != p.rpr { SackEmpty(p, Next(x)); }
  }

  lemma ControlAnswers(b: Pk, f: Frame)
    requires b.Shaped() && f.Ctl? && f.ack < 8 && Owing(b) && forall x :: 0 <= x < 8 ==> b.os[x].Empty?
    ensures var o := ReceiveControl(b, f); Answers(o.0, o.1)
  {
    hide SackFrom, Output;
    var p := (if f.kind == RJ then b.(rxmit := true, msgRR := true) else b).(rpr := f.ack);
    SackKeeps(p, p.ps);
    SackEmpty(p, p.ps);
    OutputAnswers(Sack(p));
  }

  lemma LoseBodyAnswers(b: Pk, f: Frame)
    requires b.Shaped() && f.Data? && f.num < 8 && f.ack < 8 && Owing(b) && forall x :: 0 <= x < 8 ==> b.os[x].Empty?
    ensures var o := LoseBody(b, f); Answers(o.0, o.1)
  {
    hide SackFrom, Output;
    var p := b.(rpr := f.ack);
    SackKeeps(p, p.ps);
    SackEmpty(p, p.ps);
    var q := Sack(p);
    if q.pool > 0 {
      var u := q.(pool := q.pool - 1);
      OutputAnswers(u.(msgRR := u.msgRR || !u.msgRJ, rxmit := true));
    }
  }

  lemma AcceptStaysOwing(b: Pk)
    requires b.Shaped() && Owing(b) && (b.pending < 8 ==> b.ins[b.pending].Raw? && b.ins[b.pending].num < 8)
    ensures Owing(Accept(b))
  {
    hide Settle;
    var q := b.(pending := 8);
    SettleStaysOwing(if b.pending == 8 then q else Examine(q, b.pending), 1, false, 0);
  }

  lemma OwingStep(s: Sys, e: Event)
    requires Wf(s) && Enabled(s, e) && Owing(s.b)
    ensures Answers(Do(s, e).b, SentBack(s, e))
  {
    hide Output, SackFrom, ReadLoop, Settle, Timeout, ReceiveControl, LoseBody, Accept;
    match e
    case RecvB =>
      var f := s.ab[0];
      assert f in s.ab;
      if f.Ctl? {
        ControlAnswers(s.b, f);
        assert (s.ba + ReceiveControl(s.b, f).1)[|s.ba|..] == ReceiveControl(s.b, f).1;
      } else if f.Data? {
        SackKeeps(s.b.(rpr := f.ack), s.b.ps);
      }
    case LoseBodyB =>
      assert s.ab[0] in s.ab;
      LoseBodyAnswers(s.b, s.ab[0]);
      assert (s.ba + LoseBody(s.b, s.ab[0]).1)[|s.ba|..] == LoseBody(s.b, s.ab[0]).1;
    case TimeoutB =>
      TimeoutTells(s.b);
      assert (s.ba + Timeout(s.b).1)[|s.ba|..] == Timeout(s.b).1;
    case AcceptB => AcceptStaysOwing(s.b);
    case ReadB(icount) =>
      var r := ReadLoop(s.b, icount, false).0;
      ReadKeepsFlags(s.b, icount, false);
      ReadMakesDue(s.b, icount, false);
      OutputAnswers(r);
      assert (s.ba + Output(r).1)[|s.ba|..] == Output(r).1;
    case _ =>
  }

  lemma TimeoutTells(b: Pk)
    requires b.Shaped() && forall x :: 0 <= x < 8 ==> b.os[x].Empty?
    ensures var o := Timeout(b); Answers(o.0, o.1)
  {
    hide Output;
    OutputAnswers(b.(msgRR := b.msgRR || !b.msgRJ, rxmit := true));
  }

  lemma {:induction false} StaysOwing(states: seq<Sys>, events: seq<Event>, i: nat, j: nat)
    requires IsRun(states, events) && i < j <= |events| && Owing(states[i + 1].b)
    requires forall k :: i < k < j ==> SentBack(states[k], events[k]) == []
    ensures Owing(states[j].b)
  {
    hide Do, SentBack, Init;
    if i + 1 < j {
      StaysOwing(states, events, i, j - 1);
      assert Wf(states[j - 1]) && Enabled(states[j - 1], events[j - 1]);
      assert states[j] == Do(states[j - 1], events[j - 1]);
      OwingStep(states[j - 1], events[j - 1]);
    }
  }

  /** In every run: after the reader has looked at a frame that it cannot take, be it damaged, a
      duplicate, or beyond a gap, the next frame that it sends has the number of the last packet
      read. */
  lemma EveryFrameIsAnswered(states: seq<Sys>, events: seq<Event>, i: nat, j: nat)
    requires IsRun(states, events) && i < j < |events|
    requires events[i].AcceptB? && states[i].b.pending < 8 && !IsNext(states[i].b)
    requires forall k :: i < k < j ==> SentBack(states[k], events[k]) == []
    requires Wf(states[j]) && Enabled(states[j], events[j]) && SentBack(states[j], events[j]) != []
    ensures states[j + 1].finished >= 0
    ensures SentBack(states[j], events[j]) == [Ctl(RR, states[j + 1].finished % 8)]
      || SentBack(states[j], events[j]) == [Ctl(RJ, states[j + 1].finished % 8)]
  {
    hide SentBack, Accept, Init, IsNext;
    RunKeeps(states, events, i);
    assert Wf(states[i]) && states[i + 1] == Do(states[i], events[i]);
    AcceptAnswers(states[i]);
    StaysOwing(states, events, i, j);
    OwingStep(states[j], events[j]);
    RunKeeps(states, events, j + 1);
    NumberRead(states[j + 1]);
  }

  lemma LoseBodyTells(b: Pk, f: Frame)
    requires b.Shaped() && f.Data? && f.num < 8 && f.ack < 8 && forall x :: 0 <= x < 8 ==> b.os[x].Empty?
    ensures LoseBody(b, f).1 == if b.pool == 0 then [] else [Ctl(if b.msgRJ then RJ else RR, b.pr)]
  {
    hide SackFrom, Output;
    var p := b.(rpr := f.ack);
    SackEmpty(p, p.ps);
    if b.pool > 0 {
      var u := p.(pool := p.pool - 1);
      OutputAnswers(u.(msgRR := u.msgRR || !u.msgRJ, rxmit := true));
    }
  }

  /** So does a reader that gets the header of a frame without its body; without an input buffer it
      does not even wait for the body. */
  lemma LostBodyAnswers(s: Sys)
    requires Ok(s) && Wf(s) && Enabled(s, LoseBodyB)
    ensures s.finished >= 0
    ensures SentBack(s, LoseBodyB) == if s.b.pool == 0 then [] else [Ctl(if s.b.msgRJ then RJ else RR, s.finished % 8)]
  {
    hide LoseBody, Ok;
    assert s.ab[0] in s.ab;
    LoseBodyTells(s.b, s.ab[0]);
    NumberRead(s);
    assert (s.ba + LoseBody(s.b, s.ab[0]).1)[|s.ba|..] == LoseBody(s.b, s.ab[0]).1;
  }

  // ---------- the writer ----------

  predicate NoData(fs: seq<Frame>) {
    forall i :: 0 <= i < |fs| ==> !fs[i].Data?
  }

  /** Going back is due: no data frame is sent, or the first one is that behind the acknowledged. */
  predicate GoesBack(r: Pk, sent: seq<Frame>)
    requires r.Shaped()
  {
    if NoData(sent) then r.rxmit
    else
      var x := Next(r.rpr);
      |sent| == 1 && r.os[x].Full? && r.os[x].sent && sent[0] == Data(x, r.pr, r.os[x].short, r.os[x].buf, true)
  }

  lemma OutputGoesBack(a: Pk)
    requires a.Shaped() && a.rxmit
    ensures GoesBack(Output(a).0, Output(a).1)
  {
    var sent := Output(a).1;
    if sent != [] && sent[0].Data? { assert !NoData(sent); }
  }

  lemma ControlGoesBack(a: Pk, f: Frame)
    requires a.Shaped() && f.Ctl? && f.ack < 8 && (a.rxmit || f.kind == RJ)
    ensures var o := ReceiveControl(a, f); GoesBack(o.0, o.1)
  {
    hide SackFrom, Output;
    var p := (if f.kind == RJ then a.(rxmit := true, msgRR := true) else a).(rpr := f.ack);
    SackKeeps(p, p.ps);
    OutputGoesBack(Sack(p));
  }

  /** As long as going back is due, no other data frame is sent. */
  lemma BackStep(s: Sys, e: Event)
    requires Wf(s) && Enabled(s, e) && (s.a.rxmit || (e.RecvA? && s.ba[0].Ctl? && s.ba[0].kind == RJ))
    ensures Do(s, e).a.Shaped() && GoesBack(Do(s, e).a, SentForth(s, e))
  {
    hide Output, SackFrom, ReadLoop, Settle, Timeout, ReceiveControl, LoseBody, Accept, ReceiveData, Put, GoesBack;
    NothingSent(s.a);
    match e
    case Write(chunk, junk) =>
      var p := Put(s.a, chunk, junk);
      PutKeeps(s.a, chunk, junk);
      OutputGoesBack(p);
      assert (s.ab + Output(p).1)[|s.ab|..] == Output(p).1;
    case SendA =>
      OutputGoesBack(s.a);
      assert (s.ab + Output(s.a).1)[|s.ab|..] == Output(s.a).1;
    case TimeoutA =>
      TimeoutGoesBack(s.a);
      assert (s.ab + Timeout(s.a).1)[|s.ab|..] == Timeout(s.a).1;
    case RecvA =>
      assert s.ba[0] in s.ba;
      if s.ba[0].Ctl? {
        ControlGoesBack(s.a, s.ba[0]);
        assert (s.ab + ReceiveControl(s.a, s.ba[0]).1)[|s.ab|..] == ReceiveControl(s.a, s.ba[0]).1;
      } else {
        assert s.ab[|s.ab|..] == [];
      }
    case _ =>
  }

  lemma NothingSent(a: Pk)
    requires a.Shaped()
    ensures a.rxmit ==> GoesBack(a, [])
  {
  }

  lemma PutKeeps(a: Pk, chunk: seq<nat>, junk: seq<nat>)
    requires a.Shaped() && CanPut(a) && |chunk| <= a.xsize && |junk| == a.xsize
    ensures Put(a, chunk, junk).rxmit == a.rxmit
  {
  }

  lemma TimeoutGoesBack(a: Pk)
    requires a.Shaped()
    ensures GoesBack(Timeout(a).0, Timeout(a).1)
  {
    OutputGoesBack(a.(msgRR := a.msgRR || !a.msgRJ, rxmit := true));
  }

  lemma {:induction false} StaysBack(states: seq<Sys>, events: seq<Event>, i: nat, j: nat)
    requires IsRun(states, events) && i < j <= |events|
    requires events[i].RecvA? && states[i].ba != [] && states[i].ba[0].Ctl? && states[i].ba[0].kind == RJ
    requires forall k :: i <= k < j ==> NoData(SentForth(states[k], events[k]))
    ensures states[j].a.rxmit
  {
    hide GoesBack, NoData, Do, SentForth, Init;
    assert Wf(states[j - 1]) && Enabled(states[j - 1], events[j - 1]) && states[j] == Do(states[j - 1], events[j - 1]);
    hide Wf, Enabled;
    if i < j - 1 { StaysBack(states, events, i, j - 1); }
    BackStep(states[j - 1], events[j - 1]);
    StillBack(states[j].a, SentForth(states[j - 1], events[j - 1]));
  }

  lemma StillBack(r: Pk, sent: seq<Frame>)
    requires r.Shaped() && GoesBack(r, sent) && NoData(sent)
    ensures r.rxmit
  {
  }

  /** The data frame that carries the oldest packet not acknowledged: |chunks| - xcount packets are. */
  ghost predicate CarriesOldest(s: Sys, f: Frame) {
    && f.Data? && f.intact && s.a.Shaped() && f.num == Next(s.a.rpr)
    && 0 < s.a.xcount <= |s.chunks|
    && Holds(f.short, f.body, s.chunks[|s.chunks| - s.a.xcount], s.a.xsize)
  }

  lemma OldestCarried(s: Sys, sent: seq<Frame>)
    requires Ok(s) && s.a.Shaped() && GoesBack(s.a, sent) && !NoData(sent)
    ensures |sent| == 1 && CarriesOldest(s, sent[0])
  {
    hide ForwardLink, BackwardLink, PendingFrame, Receiver, SentTo, Partial, Flat, Holds;
    var h :| Good(s, h);
    NextSlot(h.psn);
    assert Slot(h.psn, 1) == Next(s.a.rpr);
    assert OutHolds(s.a.os[Slot(h.psn, 1)], h.w[h.psn]);
  }

  /** In every run: the first data frame that the writer sends from the arrival of RJ on carries the
      oldest packet that has not been acknowledged. */
  lemma RejectionIsObeyed(states: seq<Sys>, events: seq<Event>, i: nat, j: nat)
    requires IsRun(states, events) && i <= j < |events|
    requires events[i].RecvA? && states[i].ba != [] && states[i].ba[0].Ctl? && states[i].ba[0].kind == RJ
    requires forall k :: i <= k < j ==> NoData(SentForth(states[k], events[k]))
    requires !NoData(SentForth(states[j], events[j]))
    ensures |SentForth(states[j], events[j])| == 1 && CarriesOldest(states[j + 1], SentForth(states[j], events[j])[0])
  {
    hide GoesBack, NoData;
    assert Wf(states[j]) && Enabled(states[j], events[j]) && states[j + 1] == Do(states[j], events[j]);
    if i < j { StaysBack(states, events, i, j); }
    BackStep(states[j], events[j]);
    RunKeeps(states, events, j + 1);
    OldestCarried(states[j + 1], SentForth(states[j], events[j]));
  }

  // ---------- the writer answers at once ----------

  /** One frame is sent: RJ if that is due, else the data frame behind the acknowledged, and without
      one RR. */
  predicate Resends(r: Pk, rejects: bool, sent: seq<Frame>)
    requires r.Shaped()
  {
    && |sent| == 1
    && (rejects ==> sent[0] == Ctl(RJ, r.pr))
    && (!rejects && r.os[Next(r.rpr)].Empty? ==> sent[0] == Ctl(RR, r.pr))
    && (!rejects && r.os[Next(r.rpr)].Full? ==> sent[0].Data? && GoesBack(r, sent))
  }

  lemma OutputResends(a: Pk)
    requires a.Shaped() && a.rxmit && (a.msgRR || a.msgRJ)
    ensures Resends(Output(a).0, a.msgRJ, Output(a).1)
  {
    var sent := Output(a).1;
    if sent[0].Data? { assert !NoData(sent); }
  }

  lemma ControlResends(a: Pk, f: Frame)
    requires a.Shaped() && f.Ctl? && f.ack < 8 && f.kind == RJ
    ensures var o := ReceiveControl(a, f); Resends(o.0, a.msgRJ, o.1)
  {
    hide SackFrom, Output;
    var p := a.(rxmit := true, msgRR := true, rpr := f.ack);
    SackKeeps(p, p.ps);
    OutputResends(Sack(p));
  }

  lemma TimeoutResends(a: Pk)
    requires a.Shaped()
    ensures Resends(Timeout(a).0, a.msgRJ, Timeout(a).1)
  {
    hide Output;
    OutputResends(a.(msgRR := a.msgRR || !a.msgRJ, rxmit := true));
  }

  lemma OldestFull(s: Sys)
    requires Ok(s)
    ensures s.a.Shaped() && (s.a.os[Next(s.a.rpr)].Full? <==> s.a.xcount > 0)
  {
    hide ForwardLink, BackwardLink, PendingFrame, Receiver, SentTo, Partial, Flat, Holds;
    var h :| Good(s, h);
    NextSlot(h.psn);
    assert Slot(h.psn, 1) == Next(s.a.rpr);
  }

  /** In every state of every run: RJ from the reader, or waiting in vain, makes the writer send the
      oldest packet not acknowledged at once; if there is none it says where it is. */
  lemma ResendsAtOnce(s: Sys, e: Event)
    requires Ok(s) && Wf(s) && Enabled(s, e)
    requires e.TimeoutA? || (e.RecvA? && s.ba[0].Ctl? && s.ba[0].kind == RJ)
    ensures var s', sent := Do(s, e), SentForth(s, e);
      && |sent| == 1
      && if s.a.msgRJ then sent[0] == Ctl(RJ, s'.a.pr)
         else if s'.a.xcount > 0 then CarriesOldest(s', sent[0])
         else sent[0] == Ctl(RR, s'.a.pr)
  {
    hide Output, SackFrom, Timeout, ReceiveControl, GoesBack, Ok, CarriesOldest;
    if e.TimeoutA? {
      TimeoutResends(s.a);
      assert (s.ab + Timeout(s.a).1)[|s.ab|..] == Timeout(s.a).1;
    } else {
      assert s.ba[0] in s.ba;
      ControlResends(s.a, s.ba[0]);
      assert (s.ab + ReceiveControl(s.a, s.ba[0]).1)[|s.ab|..] == ReceiveControl(s.a, s.ba[0]).1;
    }
    var s', sent := Do(s, e), SentForth(s, e);
    StepKeeps(s, e);
    OldestFull(s');
    if !s.a.msgRJ && s'.a.xcount > 0 {
      assert !NoData(sent);
      OldestCarried(s', sent);
    }
  }

  // ---------- what is sent otherwise ----------

  /** The data frame with the packet of output slot x: xcount packets are not acknowledged, and x is
      Places(ps, x) behind the last one that is. */
  ghost predicate CarriesSlot(s: Sys, x: nat, f: Frame) {
    && s.a.Shaped() && x < 8 && 1 <= Places(s.a.ps, x) <= s.a.xcount <= |s.chunks|
    && f.Data? && f.intact && f.num == x
    && Holds(f.short, f.body, s.chunks[|s.chunks| - s.a.xcount + Places(s.a.ps, x) - 1], s.a.xsize)
  }

  lemma SlotHolds(s: Sys, x: nat)
    requires Ok(s) && x < 8
    ensures s.a.Shaped() && s.a.xcount <= |s.chunks|
    ensures s.a.os[x].Full? <==> Places(s.a.ps, x) <= s.a.xcount
    ensures s.a.os[x].Full? ==> CarriesSlot(s, x, Data(x, s.a.pr, s.a.os[x].short, s.a.os[x].buf, true))
  {
    hide ForwardLink, BackwardLink, PendingFrame, Receiver, SentTo, Partial, Flat, Holds;
    var h :| Good(s, h);
    var k := Places(s.a.ps, x);
    PlacesSlot(s.a.ps, x);
    SlotOfMod(h.psn, k);
    assert Slot(h.psn, k) == x;
    if k <= s.a.xcount { assert OutHolds(s.a.os[x], h.w[h.psn + k - 1]); }
  }

  /** What `pkoutput` sends if no rejection is due, from the pointer. */
  lemma OutputSends(p: Pk)
    requires p.Shaped() && !p.msgRJ
    ensures var x, r, sent := if p.rxmit then Next(p.rpr) else p.nxtps, Output(p).0, Output(p).1;
      if p.os[x].Full? then
        && r.os[x].Full? && sent == [Data(x, r.pr, r.os[x].short, r.os[x].buf, true)]
        && r.nxtps == Next(x) && !r.rxmit
      else sent == if p.msgRR then [Ctl(RR, p.pr)] else []
  {
  }

  lemma OutputKeeps(p: Pk)
    requires p.Shaped()
    ensures var r := Output(p).0; r.ps == p.ps && r.xcount == p.xcount && r.pr == p.pr
    ensures var r := Output(p).0; forall x :: 0 <= x < 8 ==> (r.os[x].Full? <==> p.os[x].Full?)
  {
  }

  /** In every state of every run: `pkoutput` sends the packet at the pointer and moves the pointer to
      the next one; at the end of the window it sends an acknowledgement if one is due. */
  lemma SendsInOrder(s: Sys, e: Event)
    requires Ok(s) && Wf(s) && Enabled(s, e) && (e.SendA? || e.Write?) && !s.a.msgRJ
    ensures var s', sent := Do(s, e), SentForth(s, e);
      var x := if s.a.rxmit then Next(s.a.rpr) else s.a.nxtps;
      if Places(s.a.ps, x) <= s.a.xcount + (if e.Write? then 1 else 0) then
        |sent| == 1 && CarriesSlot(s', x, sent[0]) && s'.a.nxtps == Next(x) && !s'.a.rxmit
      else sent == if s.a.msgRR then [Ctl(RR, s.a.pr)] else []
  {
    hide Output, Ok, CarriesSlot, Places;
    var p := if e.Write? then Put(s.a, e.chunk, e.junk) else s.a;
    var x := if s.a.rxmit then Next(s.a.rpr) else s.a.nxtps;
    PutPointer(s, e);
    OutputSends(p);
    OutputKeeps(p);
    assert (s.ab + Output(p).1)[|s.ab|..] == Output(p).1;
    StepKeeps(s, e);
    SlotHolds(Do(s, e), x);
  }

  lemma PutPointer(s: Sys, e: Event)
    requires Wf(s) && Enabled(s, e)
    ensures e.Write? ==> var p := Put(s.a, e.chunk, e.junk);
      && p.msgRJ == s.a.msgRJ && p.msgRR == s.a.msgRR && p.rxmit == s.a.rxmit && p.rpr == s.a.rpr
      && p.nxtps == s.a.nxtps && p.ps == s.a.ps && p.pr == s.a.pr && p.xcount == s.a.xcount + 1
  {
  }
}
