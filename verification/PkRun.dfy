/** Whole runs of the 'g' protocol in one direction: a writing end, a reading end driven by
    `pkread`, and two FIFO links that may lose frames or damage them detectably.
 */
module PkRun {
  import opened PkPack

  /** `given` collects the bytes that `pkwrite` has put into packets and `chunks` what each
      packet got, `taken` collects the bytes that `pkread` has returned and `finished` counts
      the packets it is through with. */
  datatype Sys = Sys(a: Pk, b: Pk, ab: seq<Frame>, ba: seq<Frame>,
    given: seq<nat>, chunks: seq<seq<nat>>, taken: seq<nat>, finished: int)

  datatype Event =
    | Write(chunk: seq<nat>, junk: seq<nat>)
    | SendA
    | RecvA
    | TimeoutA
    | RecvB
    | LoseBodyB
    | TimeoutB
    | AcceptB
    | ReadB(icount: nat)
    | LoseAB(i: nat)
    | LoseBA(i: nat)
    | DamageAB(i: nat, f: Frame)
    | DamageBA(i: nat)

  predicate GoodFrame(f: Frame) {
    match f
    case Data(num, ack, _, _, _) => num < 8 && ack < 8
    case Ctl(_, ack) => ack < 8
    case Noise => true
  }

  /** Data flows one way only: `b` has no packets to send and nothing but control frames
      comes back. */
  predicate Wf(s: Sys) {
    && s.a.Shaped() && s.b.Shaped()
    && s.a.pending == 8
    && (s.b.pending < 8 ==> s.b.ins[s.b.pending].Raw? && s.b.ins[s.b.pending].num < 8)
    && (forall x :: 0 <= x < 8 ==> s.b.os[x].Empty?)
    && (forall f :: f in s.ab ==> GoodFrame(f))
    && (forall f :: f in s.ba ==> GoodFrame(f) && !f.Data?)
  }

  /** A damaged frame has lost its header, or kept it and lost its body. */
  predicate Damaged(f: Frame, f': Frame) {
    f' == Noise || (f.Data? && f'.Data? && f' == f.(body := f'.body, intact := false))
  }

  predicate Enabled(s: Sys, e: Event)
    requires Wf(s)
  {
    match e
    case Write(chunk, junk) => CanPut(s.a) && |chunk| <= s.a.xsize && |junk| == s.a.xsize
    case SendA => true
    case RecvA => s.ba != []
    case TimeoutA => true
    case RecvB => s.ab != [] && s.b.pending == 8
    case LoseBodyB => s.ab != [] && s.ab[0].Data? && s.b.pending == 8
    case TimeoutB => true
    case AcceptB => true
    case ReadB(_) => s.b.pending == 8 && s.b.rcount > 0
    case LoseAB(i) => i < |s.ab|
    case LoseBA(i) => i < |s.ba|
    case DamageAB(i, f) => i < |s.ab| && Damaged(s.ab[i], f)
    case DamageBA(i) => i < |s.ba|
  }

  function Without(fs: seq<Frame>, i: nat): seq<Frame>
    requires i < |fs|
  {
    fs[..i] + fs[i + 1..]
  }

  /** `pkread`'s delivery and the `pkoutput` behind it. */
  function DoRead(s: Sys, icount: nat): Sys
    requires Wf(s)
  {
    var r := ReadLoop(s.b, icount, false);
    var o := Output(r.0);
    s.(b := o.0, ba := s.ba + o.1, taken := s.taken + r.1, finished := s.finished + s.b.rcount - r.0.rcount)
  }

  function DoRecvB(s: Sys): Sys
    requires Wf(s) && s.ab != [] && s.b.pending == 8
  {
    var f := s.ab[0];
    assert f in s.ab;
    match f
    case Data(_, _, _, _, _) => s.(b := ReceiveData(s.b, f), ab := s.ab[1..])
    case Ctl(_, _) => var o := ReceiveControl(s.b, f); s.(b := o.0, ba := s.ba + o.1, ab := s.ab[1..])
    case Noise => s.(ab := s.ab[1..])
  }

  function DoLoseBodyB(s: Sys): Sys
    requires Wf(s) && s.ab != [] && s.ab[0].Data?
  {
    assert s.ab[0] in s.ab;
    var o := LoseBody(s.b, s.ab[0]);
    s.(b := o.0, ba := s.ba + o.1, ab := s.ab[1..])
  }

  function DoRecvA(s: Sys): Sys
    requires Wf(s) && s.ba != []
  {
    var f := s.ba[0];
    assert f in s.ba;
    if f.Ctl? then var o := ReceiveControl(s.a, f); s.(a := o.0, ab := s.ab + o.1, ba := s.ba[1..])
    else s.(ba := s.ba[1..])
  }

  function Do(s: Sys, e: Event): Sys
    requires Wf(s) && Enabled(s, e)
  {
    match e
    case Write(chunk, junk) =>
      var o := Output(Put(s.a, chunk, junk));
      s.(a := o.0, ab := s.ab + o.1, given := s.given + chunk, chunks := s.chunks + [chunk])
    case SendA => var o := Output(s.a); s.(a := o.0, ab := s.ab + o.1)
    case RecvA => DoRecvA(s)
    case TimeoutA => var o := Timeout(s.a); s.(a := o.0, ab := s.ab + o.1)
    case RecvB => DoRecvB(s)
    case LoseBodyB => DoLoseBodyB(s)
    case TimeoutB => var o := Timeout(s.b); s.(b := o.0, ba := s.ba + o.1)
    case AcceptB => s.(b := Accept(s.b))
    case ReadB(icount) => DoRead(s, icount)
    case LoseAB(i) => s.(ab := Without(s.ab, i))
    case LoseBA(i) => s.(ba := Without(s.ba, i))
    case DamageAB(i, f) => s.(ab := s.ab[i := f])
    case DamageBA(i) => s.(ba := s.ba[i := Noise])
  }

  /** After `pkreset`: equal packet sizes, windows of at most 7, nothing in transit. */
  predicate Init(s: Sys) {
    && s.a.Shaped() && s.b.Shaped()
    && s.a.xsize == s.b.rsize && s.a.xsize > 0
    && Reset(s.a) && Reset(s.b)
    && s.ab == [] && s.ba == [] && s.given == [] && s.chunks == [] && s.taken == [] && s.finished == 0
  }

  predicate Reset(p: Pk)
    requires p.Shaped()
  {
    && p.ps == p.pr == p.rpr == p.pscopy == 0 && p.nxtps == 1
    && p.xcount == 0 && p.rcount == 0 && p.pending == 8
    && forall x :: 0 <= x < 8 ==> p.os[x].Empty? && p.ins[x].Free?
  }

  // ---------- history and invariant ----------

  datatype Packet = Packet(chunk: seq<nat>, short: bool, buf: seq<nat>)

  /** What is remembered beside the state, with numbers that do not wrap: the packets
      written, how many of them are acknowledged and how many read, the number of each
      data frame in transit, the number each returning frame acknowledges, and the number
      of the frame not yet examined. */
  datatype Hist = Hist(w: seq<Packet>, psn: nat, prn: nat, nab: seq<nat>, nba: seq<nat>, rawn: nat)

  /** The slot `k` places behind number `n`. */
  function Slot(n: nat, k: nat): nat {
    (n + k) % 8
  }

  function Flat(w: seq<Packet>): seq<nat> {
    if w == [] then [] else Flat(w[..|w| - 1]) + w[|w| - 1].chunk
  }

  /** What each of the packets got. */
  function Chunks(w: seq<Packet>): (q: seq<seq<nat>>)
    ensures |q| == |w| && forall i :: 0 <= i < |w| ==> q[i] == w[i].chunk
  {
    seq(|w|, i requires 0 <= i < |w| => w[i].chunk)
  }

  predicate OutHolds(o: OutSlot, p: Packet) {
    o.Full? && o.short == p.short && o.buf == p.buf
  }

  /** The output slots hold exactly the packets psn + 1 .. |w|. */
  ghost predicate Window(os: seq<OutSlot>, w: seq<Packet>, psn: nat)
    requires |os| == 8
  {
    && psn <= |w|
    && forall k {:trigger Slot(psn, k)} :: 1 <= k <= 8 ==>
         if psn + k <= |w| then OutHolds(os[Slot(psn, k)], w[psn + k - 1]) else os[Slot(psn, k)].Empty?
  }

  ghost predicate Sender(a: Pk, w: seq<Packet>, psn: nat) {
    && a.Shaped()
    && Window(a.os, w, psn)
    && |w| <= psn + a.swindow
    && a.ps == psn % 8 && a.pscopy == |w| % 8 && a.xcount == |w| - psn
    && a.pr == 0
  }

  /** Every packet behind the acknowledged ones up to number `g` has been sent. */
  ghost predicate SentTo(os: seq<OutSlot>, psn: nat, g: int)
    requires |os| == 8
  {
    forall k {:trigger Slot(psn, k)} :: 1 <= k <= 8 && psn + k <= g ==> os[Slot(psn, k)].Full? && os[Slot(psn, k)].sent
  }

  /** Packet number `g` has been sent, and perhaps acknowledged. */
  ghost predicate Sent(os: seq<OutSlot>, psn: nat, g: nat)
    requires |os| == 8
  {
    psn < g <= psn + 8 ==> os[g % 8].Full? && os[g % 8].sent
  }

  predicate CopyHolds(s: InSlot, p: Packet, rptr: nat, first: bool) {
    && s.Copy? && s.short == p.short && s.buf == p.buf
    && if s.resid then first && 0 < s.left < |p.chunk| && rptr == Missing(p.short, p.buf).1 + |p.chunk| - s.left
       else s.left == |p.chunk|
  }

  /** The input slots hold exactly the packets prn + 1 .. prn + rcount, and perhaps one frame
      not yet examined. */
  ghost predicate Receiver(b: Pk, w: seq<Packet>, prn: nat) {
    && b.Shaped()
    && b.pr == prn % 8 && 0 <= b.rcount <= b.rwindow && prn + b.rcount <= |w|
    && (forall k {:trigger Slot(prn, k)} :: 1 <= k <= 8 ==>
         if k <= b.rcount then CopyHolds(b.ins[Slot(prn, k)], w[prn + k - 1], b.rptr, k == 1)
         else if Slot(prn, k) == b.pending then b.ins[Slot(prn, k)].Raw?
         else b.ins[Slot(prn, k)].Free?)
    && b.ps == 0 && b.rpr == 0 && forall x :: 0 <= x < 8 ==> b.os[x].Empty?
  }

  predicate CarriesNumber(num: nat, short: bool, body: seq<nat>, intact: bool, g: nat, w: seq<Packet>) {
    && 1 <= g <= |w| && num == g % 8
    && (intact ==> short == w[g - 1].short && body == w[g - 1].buf)
  }

  /** A frame on its way to the reader; `top` is the number of the last accepted packet. */
  ghost predicate Forward(f: Frame, g: nat, w: seq<Packet>, top: nat, os: seq<OutSlot>, psn: nat)
    requires |os| == 8
  {
    match f
    case Data(num, ack, short, body, intact) =>
      ack == 0 && CarriesNumber(num, short, body, intact, g, w) && top <= g + 6 && Sent(os, psn, g)
    case Ctl(_, ack) => ack == 0
    case Noise => true
  }

  ghost predicate ForwardLink(ab: seq<Frame>, nab: seq<nat>, w: seq<Packet>, top: nat, os: seq<OutSlot>, psn: nat)
    requires |os| == 8
  {
    && |nab| == |ab|
    && (forall j :: 0 <= j < |ab| ==> Forward(ab[j], nab[j], w, top, os, psn))
    && (forall i, j :: 0 <= i < j < |ab| && ab[i].Data? && ab[j].Data? ==> nab[i] <= nab[j] + 6)
  }

  /** The frame not yet examined is in front of all frames in transit. */
  ghost predicate PendingFrame(
      b: Pk, rawn: nat, ab: seq<Frame>, nab: seq<nat>, w: seq<Packet>, top: nat, os: seq<OutSlot>, psn: nat)
    requires |os| == 8 && b.Shaped() && |nab| == |ab|
  {
    b.pending < 8 ==>
      && b.ins[b.pending].Raw?
      && CarriesNumber(b.ins[b.pending].num, b.ins[b.pending].short, b.ins[b.pending].body, b.ins[b.pending].intact,
        rawn, w)
      && top <= rawn + 6 && Sent(os, psn, rawn)
      && forall j :: 0 <= j < |ab| && ab[j].Data? ==> rawn <= nab[j] + 6
  }

  /** Acknowledgements on their way back never go down. */
  ghost predicate BackwardLink(ba: seq<Frame>, nba: seq<nat>, psn: nat, prn: nat) {
    && |nba| == |ba|
    && (forall j :: 0 <= j < |ba| && ba[j].Ctl? ==> ba[j].ack == nba[j] % 8 && psn <= nba[j] <= prn)
    && (forall j :: 0 <= j < |ba| ==> !ba[j].Data?)
    && (forall i, j :: 0 <= i < j < |ba| && ba[i].Ctl? && ba[j].Ctl? ==> nba[i] <= nba[j])
  }

  /** Bytes of the packet being read that have been delivered. */
  function Partial(b: Pk, w: seq<Packet>, prn: nat): seq<nat>
    requires b.Shaped()
  {
    var s := b.ins[Slot(prn, 1)];
    if b.rcount > 0 && s.Copy? && s.resid && prn < |w| && s.left <= |w[prn].chunk|
    then w[prn].chunk[..|w[prn].chunk| - s.left]
    else []
  }

  ghost predicate Inv(s: Sys, h: Hist) {
    && Sender(s.a, h.w, h.psn) && s.a.rpr == h.psn % 8 && s.a.pending == 8
    && Receiver(s.b, h.w, h.prn)
    && s.a.xsize == s.b.rsize > 0
    && h.psn <= h.prn
    && SentTo(s.a.os, h.psn, h.prn + s.b.rcount)
    && (forall i :: 0 <= i < |h.w| ==> Holds(h.w[i].short, h.w[i].buf, h.w[i].chunk, s.a.xsize))
    && ForwardLink(s.ab, h.nab, h.w, h.prn + s.b.rcount, s.a.os, h.psn)
    && PendingFrame(s.b, h.rawn, s.ab, h.nab, h.w, h.prn + s.b.rcount, s.a.os, h.psn)
    && BackwardLink(s.ba, h.nba, h.psn, h.prn)
    && s.given == Flat(h.w) && s.chunks == Chunks(h.w) && s.finished == h.prn
    && s.taken == Flat(h.w[..h.prn]) + Partial(s.b, h.w, h.prn)
  }

  ghost predicate Good(s: Sys, h: Hist) {
    Wf(s) && Inv(s, h)
  }

  /** Some history explains the state. */
  ghost predicate Ok(s: Sys) {
    exists h :: Good(s, h)
  }

  // ---------- arithmetic of slots ----------

  lemma SlotApart(n: nat, j: nat, k: nat)
    requires 1 <= j <= 8 && 1 <= k <= 8 && Slot(n, j) == Slot(n, k)
    ensures j == k
  {
  }

  /** Every slot lies behind `n` by some distance from 1 to 8. */
  function Distance(n: nat, x: nat): (k: nat)
    requires x < 8
    ensures 1 <= k <= 8 && Slot(n, k) == x
  {
    (x + 7 - n % 8) % 8 + 1
  }

  lemma SlotWrap(n: nat)
    ensures Slot(n + 1, 8) == Slot(n, 1)
  {
  }

  lemma SlotShift(n: nat, k: nat)
    ensures Slot(n + 1, k) == Slot(n, k + 1)
  {
  }

  // ---------- the sending end ----------

  /** An acknowledgement of `n`: exactly the packets up to `n` are freed. */
  lemma {:induction false} SackAdvances(a: Pk, w: seq<Packet>, psn: nat, n: nat)
    requires a.Shaped() && Window(a.os, w, psn) && |w| <= psn + 7
    requires a.ps == psn % 8 && a.xcount == |w| - psn
    requires psn <= n <= |w| && a.rpr == n % 8 && SentTo(a.os, psn, n)
    ensures var r := Sack(a);
      && r == a.(os := r.os, ps := n % 8, xcount := |w| - n)
      && Window(r.os, w, n)
      && forall x :: 0 <= x < 8 && r.os[x].Full? ==> r.os[x] == a.os[x]
    decreases n - psn
  {
    if psn < n {
      var a' := SackOne(a, w, psn, n);
      SackAdvances(a', w, psn + 1, n);
    }
  }

  lemma SackOne(a: Pk, w: seq<Packet>, psn: nat, n: nat) returns (a': Pk)
    requires a.Shaped() && Window(a.os, w, psn) && |w| <= psn + 7
    requires a.ps == psn % 8 && a.xcount == |w| - psn
    requires psn < n <= |w| && a.rpr == n % 8 && SentTo(a.os, psn, n)
    ensures a'.Shaped() && Window(a'.os, w, psn + 1) && SentTo(a'.os, psn + 1, n)
    ensures a' == a.(os := a'.os, ps := (psn + 1) % 8, xcount := |w| - psn - 1)
    ensures Sack(a) == Sack(a')
    ensures forall x :: 0 <= x < 8 && a'.os[x].Full? ==> a'.os[x] == a.os[x]
  {
    NextSlot(psn);
    ModApart(psn, n);
    WindowShift(a.os, w, psn);
    SentShift(a.os, psn, n);
    assert a.os[Slot(psn, 1)].sent;
    SackStep(a);
    a' := a.(os := a.os[Slot(psn, 1) := Empty], xcount := a.xcount - 1, ps := Slot(psn, 1));
  }

  lemma NextSlot(n: nat)
    ensures Next(n % 8) == Slot(n, 1) == (n + 1) % 8
  {
    var q, r := n / 8, n % 8;
    assert n == 8 * q + r;
    if r == 7 {
      assert n + 1 == 8 * (q + 1);
    }
  }

  lemma ModApart(m: nat, n: nat)
    requires m < n < m + 8
    ensures m % 8 != n % 8
  {
  }

  lemma SackStep(a: Pk)
    requires a.Shaped() && a.ps != a.rpr && a.os[Next(a.ps)].Full? && a.os[Next(a.ps)].sent
    ensures Sack(a) == Sack(a.(os := a.os[Next(a.ps) := Empty], xcount := a.xcount - 1, ps := Next(a.ps)))
  {
  }

  lemma SentShift(os: seq<OutSlot>, psn: nat, n: nat)
    requires |os| == 8 && SentTo(os, psn, n) && n <= psn + 8
    ensures SentTo(os[Slot(psn, 1) := Empty], psn + 1, n)
  {
    var os' := os[Slot(psn, 1) := Empty];
    forall k {:trigger Slot(psn + 1, k)} | 1 <= k <= 8 && psn + 1 + k <= n
      ensures os'[Slot(psn + 1, k)].Full? && os'[Slot(psn + 1, k)].sent
    {
      SlotShift(psn, k);
      if Slot(psn, k + 1) == Slot(psn, 1) { SlotApart(psn, 1, k + 1); }
    }
  }

  lemma WindowShift(os: seq<OutSlot>, w: seq<Packet>, psn: nat)
    requires |os| == 8 && Window(os, w, psn) && psn < |w| <= psn + 8
    ensures Window(os[Slot(psn, 1) := Empty], w, psn + 1)
  {
    var os' := os[Slot(psn, 1) := Empty];
    forall k {:trigger Slot(psn + 1, k)} | 1 <= k <= 8
      ensures if psn + 1 + k <= |w| then OutHolds(os'[Slot(psn + 1, k)], w[psn + k]) else os'[Slot(psn + 1, k)].Empty?
    {
      SlotShift(psn, k);
      if k == 8 {
        SlotWrap(psn);
      } else if Slot(psn, k + 1) == Slot(psn, 1) {
        SlotApart(psn, 1, k + 1);
      }
    }
  }

  /** Marking a packet as sent changes nothing else. */
  lemma WindowMark(os: seq<OutSlot>, w: seq<Packet>, psn: nat, x: nat)
    requires |os| == 8 && Window(os, w, psn) && x < 8 && os[x].Full?
    ensures Window(os[x := os[x].(sent := true)], w, psn)
  {
  }

  /** Nothing that was sent is no longer sent. */
  ghost predicate KeepsSent(os: seq<OutSlot>, os': seq<OutSlot>)
    requires |os| == |os'| == 8
  {
    forall x :: 0 <= x < 8 && os[x].Full? && os[x].sent ==> os'[x].Full? && os'[x].sent
  }

  lemma ForwardKeeps(s: Sys, h: Hist, os': seq<OutSlot>)
    requires Inv(s, h) && |os'| == 8 && KeepsSent(s.a.os, os')
    ensures SentTo(os', h.psn, h.prn + s.b.rcount)
    ensures ForwardLink(s.ab, h.nab, h.w, h.prn + s.b.rcount, os', h.psn)
    ensures PendingFrame(s.b, h.rawn, s.ab, h.nab, h.w, h.prn + s.b.rcount, os', h.psn)
  {
  }

  lemma ForwardAppend(
      ab: seq<Frame>, nab: seq<nat>, f: Frame, g: nat, w: seq<Packet>, top: nat, os: seq<OutSlot>, psn: nat)
    requires |os| == 8 && ForwardLink(ab, nab, w, top, os, psn) && Forward(f, g, w, top, os, psn)
    requires |w| <= g + 6 || !f.Data?
    ensures ForwardLink(ab + [f], nab + [g], w, top, os, psn)
  {
  }

  lemma PendingAppend(
      b: Pk, rawn: nat, ab: seq<Frame>, nab: seq<nat>, f: Frame, g: nat, w: seq<Packet>, top: nat, os: seq<OutSlot>,
      psn: nat)
    requires |os| == 8 && b.Shaped() && |nab| == |ab| && PendingFrame(b, rawn, ab, nab, w, top, os, psn)
    requires |w| <= g + 6 || !f.Data?
    ensures PendingFrame(b, rawn, ab + [f], nab + [g], w, top, os, psn)
  {
  }

  /** State after the writing end has sent what `Output` gives. */
  function SentByA(s: Sys): Sys
    requires s.a.Shaped()
  {
    s.(a := Output(s.a).0, ab := s.ab + Output(s.a).1)
  }

  /** The three things `pkoutput` can do. */
  lemma OutputIs(p: Pk) returns (x: nat)
    requires p.Shaped()
    ensures x < 8
    ensures var o := Output(p);
      || (o.1 == [] && o.0 == p.(nxtps := o.0.nxtps))
      || (|o.1| == 1 && o.1[0].Ctl? && o.1[0].ack == p.pr
        && o.0 == p.(nxtps := o.0.nxtps, msgRR := o.0.msgRR, msgRJ := o.0.msgRJ))
      || (p.os[x].Full? && o.1 == [Data(x, p.pr, p.os[x].short, p.os[x].buf, true)]
          && o.0 == p.(nxtps := o.0.nxtps, os := p.os[x := p.os[x].(sent := true)], rxmit := false))
  {
    x := if p.rxmit then Next(p.rpr) else p.nxtps;
  }

  lemma OutputA(s: Sys)
    requires Ok(s)
    ensures s.a.Shaped() && Ok(SentByA(s))
  {
    hide Wf, Flat, Output, Partial;
    var h :| Good(s, h);
    var o := Output(s.a);
    var x := OutputIs(s.a);
    if o.1 == [] {
      assert s.ab + o.1 == s.ab;
      FlagsA(s, h, o.0);
    } else if o.1[0].Ctl? {
      FlagsA(s, h, o.0);
      ControlA(s.(a := o.0), h, o.1[0]);
      assert o.1 == [o.1[0]];
    } else {
      OutputDataA(s, h, x);
    }
  }

  lemma OutputDataA(s: Sys, h: Hist, x: nat)
    requires Good(s, h) && x < 8 && s.a.os[x].Full?
    requires var o := Output(s.a);
      && o.1 == [Data(x, s.a.pr, s.a.os[x].short, s.a.os[x].buf, true)]
      && o.0 == s.a.(nxtps := o.0.nxtps, os := s.a.os[x := s.a.os[x].(sent := true)], rxmit := false)
    ensures Ok(SentByA(s))
  {
    var h' := DataA(s, h, x);
    var o := s.a.os[x];
    var s1 := s.(a := s.a.(os := s.a.os[x := o.(sent := true)]), ab := s.ab + [Data(x, 0, o.short, o.buf, true)]);
    OkFlagsA(s1, Output(s.a).0);
    assert SentByA(s) == s1.(a := Output(s.a).0);
  }

  /** Flags and the transmit pointer of the writing end do not matter. */
  lemma FlagsA(s: Sys, h: Hist, a': Pk)
    requires Good(s, h) && a'.nxtps < 8
    requires a' == s.a.(nxtps := a'.nxtps, msgRR := a'.msgRR, msgRJ := a'.msgRJ, rxmit := a'.rxmit)
    ensures Good(s.(a := a'), h)
  {
  }

  lemma ControlA(s: Sys, h: Hist, f: Frame)
    requires Good(s, h) && f.Ctl? && f.ack == 0
    ensures var s', h' := s.(ab := s.ab + [f]), h.(nab := h.nab + [0]); Good(s', h')
  {
    ForwardAppend(s.ab, h.nab, f, 0, h.w, h.prn + s.b.rcount, s.a.os, h.psn);
    PendingAppend(s.b, h.rawn, s.ab, h.nab, f, 0, h.w, h.prn + s.b.rcount, s.a.os, h.psn);
  }

  /** The number of the packet in slot `x`. */
  lemma NumberOf(a: Pk, w: seq<Packet>, psn: nat, x: nat) returns (g: nat)
    requires Sender(a, w, psn) && x < 8 && a.os[x].Full?
    ensures psn < g <= |w| && g % 8 == x && |w| <= g + 6 && OutHolds(a.os[x], w[g - 1])
  {
    var k := Distance(psn, x);
    g := psn + k;
    assert Slot(psn, k) == x;
  }

  /** The writing end sends the packet in slot `x`. */
  lemma DataA(s: Sys, h: Hist, x: nat) returns (h': Hist)
    requires Good(s, h) && x < 8 && s.a.os[x].Full?
    ensures var o := s.a.os[x];
      var s' := s.(a := s.a.(os := s.a.os[x := o.(sent := true)]), ab := s.ab + [Data(x, 0, o.short, o.buf, true)]);
      Good(s', h')
  {
    hide Flat, Chunks, Holds, CopyHolds;
    var os' := s.a.os[x := s.a.os[x].(sent := true)];
    var g := NumberOf(s.a, h.w, h.psn, x);
    var f := Data(x, 0, s.a.os[x].short, s.a.os[x].buf, true);
    WindowMark(s.a.os, h.w, h.psn, x);
    ForwardKeeps(s, h, os');
    assert Forward(f, g, h.w, h.prn + s.b.rcount, os', h.psn);
    ForwardAppend(s.ab, h.nab, f, g, h.w, h.prn + s.b.rcount, os', h.psn);
    PendingAppend(s.b, h.rawn, s.ab, h.nab, f, g, h.w, h.prn + s.b.rcount, os', h.psn);
    h' := h.(nab := h.nab + [g]);
  }

  lemma FlatAppend(w: seq<Packet>, p: Packet)
    ensures Flat(w + [p]) == Flat(w) + p.chunk
  {
    assert (w + [p])[..|w|] == w;
  }

  lemma ChunksAppend(w: seq<Packet>, p: Packet)
    ensures Chunks(w + [p]) == Chunks(w) + [p.chunk]
  {
  }

  lemma WindowPut(os: seq<OutSlot>, w: seq<Packet>, psn: nat, p: Packet)
    requires |os| == 8 && Window(os, w, psn) && |w| < psn + 7
    ensures os[Slot(|w|, 1)].Empty?
    ensures Window(os[Slot(|w|, 1) := Full(false, p.short, p.buf)], w + [p], psn)
  {
    var n := |w| - psn + 1;
    var x := Slot(psn, n);
    assert Slot(|w|, 1) == x;
    var os', w' := os[x := Full(false, p.short, p.buf)], w + [p];
    forall k {:trigger Slot(psn, k)} | 1 <= k <= 8
      ensures if psn + k <= |w'| then OutHolds(os'[Slot(psn, k)], w'[psn + k - 1]) else os'[Slot(psn, k)].Empty?
    {
      if k != n && Slot(psn, k) == x { SlotApart(psn, k, n); }
    }
  }

  /** Everything said about frames stays true when one more packet is written. */
  lemma ForwardGrows(s: Sys, h: Hist, p: Packet, os': seq<OutSlot>)
    requires Inv(s, h) && |os'| == 8 && KeepsSent(s.a.os, os')
    ensures var w' := h.w + [p];
      && SentTo(os', h.psn, h.prn + s.b.rcount)
      && ForwardLink(s.ab, h.nab, w', h.prn + s.b.rcount, os', h.psn)
      && PendingFrame(s.b, h.rawn, s.ab, h.nab, w', h.prn + s.b.rcount, os', h.psn)
      && Receiver(s.b, w', h.prn)
      && Partial(s.b, w', h.prn) == Partial(s.b, h.w, h.prn)
      && w'[..h.prn] == h.w[..h.prn]
  {
    ForwardKeeps(s, h, os');
    var w' := h.w + [p];
    forall j | 0 <= j < |s.ab|
      ensures Forward(s.ab[j], h.nab[j], w', h.prn + s.b.rcount, os', h.psn)
    {
      assert Forward(s.ab[j], h.nab[j], h.w, h.prn + s.b.rcount, os', h.psn);
    }
  }

  lemma PutA(s: Sys, h: Hist, chunk: seq<nat>, junk: seq<nat>) returns (h': Hist)
    requires Good(s, h) && Enabled(s, Write(chunk, junk))
    ensures var s' := s.(a := Put(s.a, chunk, junk), given := s.given + chunk, chunks := s.chunks + [chunk]);
      Good(s', h')
  {
    hide Flat, Holds, Partial, CopyHolds, CarriesNumber;
    var f := Filled(chunk, s.a.xsize, junk);
    var p := Packet(chunk, f.0, f.1);
    NextSlot(|h.w|);
    WindowPut(s.a.os, h.w, h.psn, p);
    ForwardGrows(s, h, p, Put(s.a, chunk, junk).os);
    FlatAppend(h.w, p);
    ChunksAppend(h.w, p);
    h' := h.(w := h.w + [p]);
  }

  lemma AfterSack(s: Sys, h: Hist, n: nat, os': seq<OutSlot>)
    requires Inv(s, h) && h.psn <= n <= |h.w| && |os'| == 8 && Window(os', h.w, n)
    requires forall x :: 0 <= x < 8 && os'[x].Full? ==> os'[x] == s.a.os[x]
    ensures SentTo(os', n, h.prn + s.b.rcount)
    ensures forall g :: 1 <= g <= |h.w| && Sent(s.a.os, h.psn, g) ==> Sent(os', n, g)
  {
    hide Holds, Flat, Chunks, Partial, PendingFrame, CopyHolds;
    forall k {:trigger Slot(n, k)} | 1 <= k <= 8 && n + k <= h.prn + s.b.rcount
      ensures os'[Slot(n, k)].Full? && os'[Slot(n, k)].sent
    {
      assert Slot(n, k) == Slot(h.psn, n + k - h.psn);
    }
    forall g | 1 <= g <= |h.w| && Sent(s.a.os, h.psn, g)
      ensures Sent(os', n, g)
    {
      if n < g <= n + 8 {
        assert Slot(n, g - n) == g % 8;
      }
    }
  }

  /** An acknowledgement reaches the writing end. */
  lemma SackA(s: Sys, h: Hist) returns (h': Hist)
    requires Good(s, h) && s.ba != [] && s.ba[0].Ctl?
    ensures s.ba[0].ack < 8
    ensures var s' := s.(a := Sack(s.a.(rpr := s.ba[0].ack)), ba := s.ba[1..]); Good(s', h')
  {
    assert s.ba[0] in s.ba;
    var n := h.nba[0];
    var a1 := s.a.(rpr := s.ba[0].ack);
    SackAdvances(a1, h.w, h.psn, n);
    AfterSack(s, h, n, Sack(a1).os);
    h' := h.(psn := n, nba := h.nba[1..]);
  }

  lemma RecvAKeeps(s: Sys)
    requires Ok(s) && Wf(s) && s.ba != []
    ensures Ok(DoRecvA(s))
  {
    hide Good;
    var f := s.ba[0];
    if f.Ctl? {
      var a1 := if f.kind == RJ then s.a.(rxmit := true, msgRR := true) else s.a;
      var s1 := s.(a := a1);
      OkFlagsA(s, a1);
      OkSackA(s1);
      var s2 := s1.(a := Sack(s1.a.(rpr := f.ack)), ba := s.ba[1..]);
      if s2.a.msgRR || s2.a.msgRJ {
        OutputA(s2);
        assert DoRecvA(s) == SentByA(s2);
      } else {
        assert s.ab + [] == s.ab;
        assert DoRecvA(s) == s2;
      }
    } else {
      OkDropAck(s);
    }
  }

  lemma OkSackA(s: Sys)
    requires Ok(s) && s.ba != [] && s.ba[0].Ctl?
    ensures s.a.Shaped() && s.ba[0].ack < 8 && Ok(s.(a := Sack(s.a.(rpr := s.ba[0].ack)), ba := s.ba[1..]))
  {
    var h :| Good(s, h);
    var h' := SackA(s, h);
  }

  lemma DropAck(s: Sys, h: Hist)
    requires Good(s, h) && s.ba != []
    ensures var s', h' := s.(ba := s.ba[1..]), h.(nba := h.nba[1..]); Good(s', h')
  {
    assert BackwardLink(s.ba[1..], h.nba[1..], h.psn, h.prn);
  }

  lemma OkDropAck(s: Sys)
    requires Ok(s) && s.ba != []
    ensures Ok(s.(ba := s.ba[1..]))
  {
    var h :| Good(s, h);
    DropAck(s, h);
  }

  // ---------- the reading end ----------

  function SentByB(s: Sys): Sys
    requires s.b.Shaped()
  {
    s.(b := Output(s.b).0, ba := s.ba + Output(s.b).1)
  }

  /** Flags, counters of free buffers and the transmit pointer of the reading end do not
      matter. */
  lemma FlagsB(s: Sys, h: Hist, b': Pk)
    requires Good(s, h) && b'.nxtps < 8
    requires b' == s.b.(nxtps := b'.nxtps, msgRR := b'.msgRR, msgRJ := b'.msgRJ, rxmit := b'.rxmit, pool := b'.pool)
    ensures Good(s.(b := b'), h)
  {
    hide Flat, Chunks, Holds, Sender;
    assert Receiver(b', h.w, h.prn);
  }

  /** The reading end acknowledges what has been read. */
  lemma AckB(s: Sys, h: Hist, kind: Control)
    requires Good(s, h)
    ensures var s', h' := s.(ba := s.ba + [Ctl(kind, s.b.pr)]), h.(nba := h.nba + [h.prn]); Good(s', h')
  {
    var ba', nba' := s.ba + [Ctl(kind, s.b.pr)], h.nba + [h.prn];
    assert BackwardLink(ba', nba', h.psn, h.prn);
    assert Good(s.(ba := ba'), h.(nba := nba'));
  }

  /** The oldest frame to the reading end is gone. */
  lemma DropFirst(s: Sys, h: Hist)
    requires Good(s, h) && s.ab != []
    ensures var s', h' := s.(ab := s.ab[1..]), h.(nab := h.nab[1..]); Good(s', h')
  {
    hide Sender, Flat, Chunks, Holds, BackwardLink, CopyHolds;
    assert ForwardLink(s.ab[1..], h.nab[1..], h.w, h.prn + s.b.rcount, s.a.os, h.psn);
    assert PendingFrame(s.b, h.rawn, s.ab[1..], h.nab[1..], h.w, h.prn + s.b.rcount, s.a.os, h.psn);
  }

  lemma OkFlagsB(s: Sys, b': Pk)
    requires Ok(s) && b'.nxtps < 8
    requires b' == s.b.(nxtps := b'.nxtps, msgRR := b'.msgRR, msgRJ := b'.msgRJ, rxmit := b'.rxmit, pool := b'.pool)
    ensures Ok(s.(b := b'))
  {
    var h :| Good(s, h);
    FlagsB(s, h, b');
  }

  lemma OkFlagsA(s: Sys, a': Pk)
    requires Ok(s) && a'.nxtps < 8
    requires a' == s.a.(nxtps := a'.nxtps, msgRR := a'.msgRR, msgRJ := a'.msgRJ, rxmit := a'.rxmit)
    ensures Ok(s.(a := a'))
  {
    var h :| Good(s, h);
    FlagsA(s, h, a');
  }

  /** The oldest frame to the reader: it acknowledges nothing, and it may be dropped. */
  lemma OkFirst(s: Sys)
    requires Ok(s) && s.ab != []
    ensures GoodFrame(s.ab[0]) && s.b.Shaped()
    ensures !s.ab[0].Noise? ==> s.ab[0].ack == 0 && s.b.ps == s.b.rpr == 0 && Sack(s.b) == s.b
    ensures Ok(s.(ab := s.ab[1..]))
  {
    var h :| Good(s, h);
    FirstFrame(s, h);
    DropFirst(s, h);
  }

  lemma OutputB(s: Sys)
    requires Ok(s)
    ensures s.b.Shaped() && Ok(SentByB(s))
  {
    var h :| Good(s, h);
    var o := Output(s.b);
    OutputOfReader(s.b);
    FlagsB(s, h, o.0);
    if o.1 == [] {
      assert s.ba + o.1 == s.ba;
    } else {
      AckB(s.(b := o.0), h, o.1[0].kind);
    }
  }

  lemma OutputOfReader(b: Pk)
    requires b.Shaped() && forall x :: 0 <= x < 8 ==> b.os[x].Empty?
    ensures var o := Output(b);
      && o.0 == b.(nxtps := o.0.nxtps, msgRR := o.0.msgRR, msgRJ := o.0.msgRJ)
      && (o.1 == [] || (|o.1| == 1 && o.1[0].Ctl? && o.1 == [Ctl(o.1[0].kind, b.pr)]))
  {
  }

  /** The reading end has nothing to free. */
  lemma SackNothing(b: Pk)
    requires b.Shaped() && b.ps == b.rpr
    ensures Sack(b) == b
  {
  }

  /** What is known of the oldest frame. */
  lemma FirstFrame(s: Sys, h: Hist)
    requires Good(s, h) && s.ab != []
    ensures GoodFrame(s.ab[0]) && Forward(s.ab[0], h.nab[0], h.w, h.prn + s.b.rcount, s.a.os, h.psn)
    ensures !s.ab[0].Noise? ==> s.b.(rpr := s.ab[0].ack) == s.b && Sack(s.b) == s.b
  {
    assert s.ab[0] in s.ab;
    SackNothing(s.b);
  }

  lemma RecvBKeeps(s: Sys)
    requires Ok(s) && Wf(s) && s.ab != [] && s.b.pending == 8
    ensures Ok(DoRecvB(s))
  {
    OkFirst(s);
    match s.ab[0]
    case Data(_, _, _, _, _) =>
      var h :| Good(s, h);
      RecvDataB(s, h);
    case Ctl(kind, _) => RecvControlB(s);
    case Noise =>
  }

  lemma RecvControlB(s: Sys)
    requires Ok(s) && Wf(s) && s.ab != [] && s.b.pending == 8 && s.ab[0].Ctl?
    ensures Ok(DoRecvB(s))
  {
    hide Good;
    var f := s.ab[0];
    OkFirst(s);
    var s1 := s.(ab := s.ab[1..]);
    var b2 := if f.kind == RJ then s.b.(rxmit := true, msgRR := true) else s.b;
    OkFlagsB(s1, b2);
    var s2 := s1.(b := b2);
    assert b2 == b2.(rpr := f.ack);
    SackNothing(b2);
    if b2.msgRR || b2.msgRJ {
      OutputB(s2);
      assert DoRecvB(s) == SentByB(s2);
    } else {
      assert s.ba + [] == s.ba;
      assert DoRecvB(s) == s2;
    }
  }

  lemma RecvDataB(s: Sys, h: Hist)
    requires Good(s, h) && s.ab != [] && s.b.pending == 8 && s.ab[0].Data?
    ensures Ok(DoRecvB(s))
  {
    hide Flat, Chunks, Holds, Sender, Receiver, Forward, BackwardLink;
    var f := s.ab[0];
    FirstFrame(s, h);
    var x := ReceiveDataIs(s.b, f);
    if s.b.pool == 0 || x == 8 {
      DropFirst(s, h);
      assert DoRecvB(s) == s.(ab := s.ab[1..]);
    } else {
      StoreRaw(s, h, x);
    }
  }

  lemma ReceiveDataIs(b: Pk, f: Frame) returns (x: nat)
    requires b.Shaped() && f.Data? && GoodFrame(f) && b.pending == 8 && Sack(b.(rpr := f.ack)) == b
    ensures x == 8 || (x < 8 && b.ins[x].Free?)
    ensures ReceiveData(b, f) ==
      if b.pool == 0 || x == 8 then b
      else b.(pool := b.pool - 1, ins := b.ins[x := Raw(f.num, f.short, f.body, f.intact)], pending := x)
  {
    x := FreeSlot(b.ins, b.pr, 0);
  }

  /** The reader after it lost a body: one buffer less, and a request to send again. */
  function Repeating(b: Pk): Pk
    requires b.pool > 0
  {
    b.(pool := b.pool - 1, msgRR := b.msgRR || !b.msgRJ, rxmit := true)
  }

  lemma LoseBodyIs(s: Sys)
    requires Wf(s) && s.ab != [] && s.ab[0].Data? && GoodFrame(s.ab[0]) && s.b.(rpr := s.ab[0].ack) == s.b
      && Sack(s.b) == s.b
    ensures DoLoseBodyB(s) ==
      if s.b.pool == 0 then s.(ab := s.ab[1..]) else SentByB(s.(ab := s.ab[1..], b := Repeating(s.b)))
  {
    assert s.ba + [] == s.ba;
  }

  lemma StoreRaw(s: Sys, h: Hist, x: nat)
    requires Good(s, h) && s.ab != [] && s.b.pending == 8 && s.ab[0].Data? && x < 8 && s.b.ins[x].Free? && s.b.pool > 0
    ensures var f := s.ab[0];
      var b' := s.b.(pool := s.b.pool - 1, ins := s.b.ins[x := Raw(f.num, f.short, f.body, f.intact)], pending := x);
      var s', h' := s.(b := b', ab := s.ab[1..]), h.(nab := h.nab[1..], rawn := h.nab[0]);
      Good(s', h')
  {
    FirstFrame(s, h);
    DropFirst(s, h);
    var f := s.ab[0];
    var b' := s.b.(pool := s.b.pool - 1, ins := s.b.ins[x := Raw(f.num, f.short, f.body, f.intact)], pending := x);
    StoredReceiver(s.b, h.w, h.prn, x, b');
    assert PendingFrame(b', h.nab[0], s.ab[1..], h.nab[1..], h.w, h.prn + b'.rcount, s.a.os, h.psn);
  }

  lemma StoredReceiver(b: Pk, w: seq<Packet>, prn: nat, x: nat, b': Pk)
    requires Receiver(b, w, prn) && b.pending == 8 && x < 8 && b.ins[x].Free?
    requires b' == b.(pool := b'.pool, ins := b'.ins, pending := x) && |b'.ins| == 8 && b'.ins[x].Raw?
    requires b'.ins == b.ins[x := b'.ins[x]]
    ensures Receiver(b', w, prn) && Partial(b', w, prn) == Partial(b, w, prn)
  {
  }

  lemma LoseBodyBKeeps(s: Sys)
    requires Ok(s) && Wf(s) && s.ab != [] && s.ab[0].Data?
    ensures Ok(DoLoseBodyB(s))
  {
    OkFirst(s);
    LoseBodyIs(s);
    if s.b.pool > 0 {
      OkFlagsB(s.(ab := s.ab[1..]), Repeating(s.b));
      OutputB(s.(ab := s.ab[1..], b := Repeating(s.b)));
    }
  }

  // pkaccept

  /** Behind a gap every accepted packet is given back, the rest stays. */
  ghost predicate Tidied(p: Pk, r: Pk, from: nat)
    requires |p.ins| == |r.ins| == 8
  {
    forall k {:trigger Slot(p.pr, k)} :: 1 <= k <= 8 ==>
      r.ins[Slot(p.pr, k)] ==
        if from <= k <= p.rwindow && p.ins[Slot(p.pr, k)].Copy? then Free else p.ins[Slot(p.pr, k)]
  }

  lemma {:induction false} SettleBeyond(p: Pk, k: nat, count: nat)
    requires p.Shaped() && 1 <= k
    ensures var r := Settle(p, k, true, count);
      r == p.(ins := r.ins, pool := r.pool, msgRR := r.msgRR, rcount := count) && Tidied(p, r, k)
    decreases if k <= p.rwindow then p.rwindow - k + 1 else 0
  {
    if k <= p.rwindow {
      var x := Slot(p.pr, k);
      var p' := if p.ins[x].Copy? then p.(ins := p.ins[x := Free], pool := p.pool + 1, msgRR := true) else p;
      SettleBeyond(p', k + 1, count);
      var r := Settle(p', k + 1, true, count);
      forall j {:trigger Slot(p.pr, j)} | 1 <= j <= 8
        ensures r.ins[Slot(p.pr, j)] ==
          if k <= j <= p.rwindow && p.ins[Slot(p.pr, j)].Copy? then Free else p.ins[Slot(p.pr, j)]
      {
        if j != k && Slot(p.pr, j) == x { SlotApart(p.pr, j, k); }
      }
    }
  }

  /** The scan counts the run of accepted packets in front of the first gap. */
  lemma {:induction false} SettleRun(p: Pk, k: nat, c: nat)
    requires p.Shaped() && 1 <= k <= c + 1 && c <= p.rwindow
    requires forall j {:trigger Slot(p.pr, j)} :: k <= j <= c ==> p.ins[Slot(p.pr, j)].Copy?
    requires c < p.rwindow ==> !p.ins[Slot(p.pr, c + 1)].Copy?
    ensures var r := Settle(p, k, false, k - 1);
      r == p.(ins := r.ins, pool := r.pool, msgRR := r.msgRR, rcount := c) && Tidied(p, r, c + 2)
    decreases c + 1 - k
  {
    if k <= c {
      assert p.ins[Slot(p.pr, k)].Copy?;
      SettleRun(p, k + 1, c);
    } else if c < p.rwindow {
      SettleBeyond(p, c + 2, c);
    }
  }

  lemma SlotOfMod(n: nat, k: nat)
    ensures Slot(n % 8, k) == Slot(n, k)
  {
  }

  lemma SlotsOfMod(n: nat, x: nat)
    requires x == n % 8
    ensures forall k {:trigger Slot(x, k)} {:trigger Slot(n, k)} :: 1 <= k ==> Slot(x, k) == Slot(n, k)
  {
    forall k {:trigger Slot(x, k)} {:trigger Slot(n, k)} | 1 <= k
      ensures Slot(x, k) == Slot(n, k)
    {
      SlotOfMod(n, k);
    }
  }

  /** A receiver without an unexamined frame, as `Settle` sees it. */
  lemma SettleKeeps(b: Pk, w: seq<Packet>, prn: nat)
    requires Receiver(b, w, prn) && b.pending == 8
    ensures var r := Settle(b, 1, false, 0);
      Receiver(r, w, prn) && r == b.(ins := r.ins, pool := r.pool, msgRR := r.msgRR) && r.ins == b.ins
  {
    ReceiverSlots(b, w, prn);
    SettleRun(b, 1, b.rcount);
    var r := Settle(b, 1, false, 0);
    forall x | 0 <= x < 8
      ensures r.ins[x] == b.ins[x]
    {
      var k := Distance(b.pr, x);
      assert Slot(b.pr, k) == x;
    }
  }

  lemma ReceiverSlots(b: Pk, w: seq<Packet>, prn: nat)
    requires Receiver(b, w, prn)
    ensures forall k {:trigger Slot(b.pr, k)} :: 1 <= k <= 8 ==>
      Slot(b.pr, k) == Slot(prn, k) && (b.ins[Slot(b.pr, k)].Copy? <==> k <= b.rcount)
      && (k > b.rcount && Slot(b.pr, k) != b.pending ==> b.ins[Slot(b.pr, k)].Free?)
  {
    forall k {:trigger Slot(b.pr, k)} | 1 <= k <= 8
      ensures Slot(b.pr, k) == Slot(prn, k) && (b.ins[Slot(b.pr, k)].Copy? <==> k <= b.rcount)
      ensures k > b.rcount && Slot(b.pr, k) != b.pending ==> b.ins[Slot(b.pr, k)].Free?
    {
      SlotOfMod(prn, k);
    }
  }

  /** Nothing pending, or the pending frame is not taken: the accepted packets stay. */
  lemma AcceptNothing(s: Sys, h: Hist, b': Pk)
    requires Good(s, h) && b'.Shaped() && b'.pending == 8
    requires b' == s.b.(ins := b'.ins, pool := b'.pool, msgRR := b'.msgRR, msgRJ := b'.msgRJ, pending := 8)
    requires b'.ins == if s.b.pending == 8 then s.b.ins else s.b.ins[s.b.pending := Free]
    ensures Ok(s.(b := Settle(b', 1, false, 0)))
  {
    FreedReceiver(s.b, h.w, h.prn, b');
    SettleKeeps(b', h.w, h.prn);
    PendingGone(s, h, b');
    OkFlagsB(s.(b := b'), Settle(b', 1, false, 0));
  }

  lemma PendingGone(s: Sys, h: Hist, b': Pk)
    requires Good(s, h) && b'.Shaped() && b'.pending == 8
    requires b' == s.b.(ins := b'.ins, pool := b'.pool, msgRR := b'.msgRR, msgRJ := b'.msgRJ, pending := 8)
    requires Receiver(b', h.w, h.prn) && Partial(b', h.w, h.prn) == Partial(s.b, h.w, h.prn)
    ensures Good(s.(b := b'), h)
  {
  }

  lemma FreedReceiver(b: Pk, w: seq<Packet>, prn: nat, b': Pk)
    requires Receiver(b, w, prn) && b'.Shaped() && b'.pending == 8
    requires b' == b.(ins := b'.ins, pool := b'.pool, msgRR := b'.msgRR, msgRJ := b'.msgRJ, pending := 8)
    requires b.pending < 8 ==> b.ins[b.pending].Raw?
    requires b'.ins == if b.pending == 8 then b.ins else b.ins[b.pending := Free]
    ensures Receiver(b', w, prn) && Partial(b', w, prn) == Partial(b, w, prn)
  {
  }

  /** The pending frame carries the next expected number exactly when it carries the next
      packet: its unbounded number is within 7 of the top. */
  lemma ExpectedNumber(g: nat, top: nat)
    requires top <= g + 6 && g <= top + 7 && g % 8 == (top + 1) % 8
    ensures g == top + 1
  {
  }

  /** Where an accepted frame goes, and that it is behind the accepted packets. */
  lemma PlaceOf(b: Pk, w: seq<Packet>, prn: nat, num: nat) returns (k: nat)
    requires Receiver(b, w, prn) && num < 8 && InWindow(b, num) && !b.ins[num].Copy?
    ensures b.rcount < k <= b.rwindow && Slot(prn, k) == num
  {
    k := Ahead(b.pr, num);
    AheadSlot(b.pr, num);
    SlotOfMod(prn, k);
  }

  lemma AheadSlot(x: nat, y: nat)
    requires x < 8 && y < 8
    ensures Slot(x, Ahead(x, y)) == y
  {
  }

  /** The input slots after a frame in slot `x` has been taken as number `num`. */
  function Taken(ins: seq<InSlot>, x: nat, num: nat, got: InSlot): seq<InSlot>
    requires |ins| == 8 && x < 8 && num < 8
  {
    (if num == x then ins else ins[x := ins[num]])[num := got]
  }

  /** What the slots hold then, seen from the last packet read. */
  lemma TakenSlots(b: Pk, w: seq<Packet>, prn: nat, k: nat, got: InSlot)
    requires Receiver(b, w, prn) && b.pending < 8 && b.ins[b.pending].Raw? && b.rcount < k <= b.rwindow && got.Copy?
    ensures var ins := Taken(b.ins, b.pending, Slot(prn, k), got);
      forall j {:trigger Slot(prn, j)} :: 1 <= j <= 8 ==>
        ins[Slot(prn, j)] == if j == k then got else if j <= b.rcount then b.ins[Slot(prn, j)] else Free
  {
    var x, num := b.pending, Slot(prn, k);
    var ins := Taken(b.ins, x, num, got);
    forall j {:trigger Slot(prn, j)} | 1 <= j <= 8
      ensures ins[Slot(prn, j)] == if j == k then got else if j <= b.rcount then b.ins[Slot(prn, j)] else Free
    {
      if j != k && Slot(prn, j) == num { SlotApart(prn, j, k); }
    }
  }

  /** A frame beyond a gap is given back. */
  lemma TakenBeyond(b: Pk, w: seq<Packet>, prn: nat, k: nat, got: InSlot, b': Pk)
    requires Receiver(b, w, prn) && b.pending < 8 && b.ins[b.pending].Raw? && b.rcount + 1 < k <= b.rwindow && got.Copy?
    requires b' == b.(ins := Taken(b.ins, b.pending, Slot(prn, k), got), pending := 8)
    ensures b'.Shaped()
    ensures var r := Settle(b', 1, false, 0);
      Receiver(r, w, prn) && r == b'.(ins := r.ins, pool := r.pool, msgRR := r.msgRR)
        && Partial(r, w, prn) == Partial(b, w, prn)
  {
    TakenSlots(b, w, prn, k, got);
    SlotsOfMod(prn, b.pr);
    SettleRun(b', 1, b.rcount);
    var r := Settle(b', 1, false, 0);
    forall j {:trigger Slot(prn, j)} | 1 <= j <= 8
      ensures r.ins[Slot(prn, j)] == if j <= b.rcount then b.ins[Slot(prn, j)] else Free
    {
      assert Slot(b.pr, j) == Slot(prn, j);
    }
  }

  /** The next expected frame is accepted. */
  lemma TakenNextSlots(b: Pk, w: seq<Packet>, prn: nat, got: InSlot, b': Pk)
    requires Receiver(b, w, prn) && b.pending < 8 && b.ins[b.pending].Raw? && b.rcount < b.rwindow && got.Copy?
    requires b' == b.(ins := Taken(b.ins, b.pending, Slot(prn, b.rcount + 1), got), pending := 8)
    ensures b'.Shaped()
    ensures var r := Settle(b', 1, false, 0);
      && r == b'.(ins := r.ins, pool := r.pool, msgRR := r.msgRR, rcount := b.rcount + 1)
      && forall j {:trigger Slot(prn, j)} :: 1 <= j <= 8 ==>
           r.ins[Slot(prn, j)] == if j <= b.rcount then b.ins[Slot(prn, j)] else if j == b.rcount + 1 then got else Free
  {
    hide Settle, Holds;
    TakenSlots(b, w, prn, b.rcount + 1, got);
    SlotsOfMod(prn, b.pr);
    SettleRun(b', 1, b.rcount + 1);
    var r := Settle(b', 1, false, 0);
    forall j {:trigger Slot(prn, j)} | 1 <= j <= 8
      ensures r.ins[Slot(prn, j)] ==
        if j <= b.rcount then b.ins[Slot(prn, j)] else if j == b.rcount + 1 then got else Free
    {
      assert Slot(b.pr, j) == Slot(prn, j);
    }
  }

  lemma TakenNext(b: Pk, w: seq<Packet>, prn: nat, got: InSlot, b': Pk)
    requires Receiver(b, w, prn) && b.pending < 8 && b.ins[b.pending].Raw? && b.rcount < b.rwindow
      && prn + b.rcount < |w|
    requires CopyHolds(got, w[prn + b.rcount], b.rptr, false)
    requires b' == b.(ins := Taken(b.ins, b.pending, Slot(prn, b.rcount + 1), got), pending := 8)
    ensures b'.Shaped()
    ensures var r := Settle(b', 1, false, 0);
      Receiver(r, w, prn) && r == b'.(ins := r.ins, pool := r.pool, msgRR := r.msgRR, rcount := b.rcount + 1)
      && Partial(r, w, prn) == Partial(b, w, prn)
  {
    hide Settle, Holds, Taken, Missing;
    TakenNextSlots(b, w, prn, got, b');
    assert Slot(prn, 1) < 8;
  }

  /** Parts of the invariant when the top moves to the pending frame's number. */
  lemma TopMoves(s: Sys, h: Hist)
    requires Good(s, h) && s.b.pending < 8 && h.rawn == h.prn + s.b.rcount + 1
    ensures SentTo(s.a.os, h.psn, h.rawn)
    ensures ForwardLink(s.ab, h.nab, h.w, h.rawn, s.a.os, h.psn)
  {
    forall k {:trigger Slot(h.psn, k)} | 1 <= k <= 8 && h.psn + k <= h.rawn
      ensures s.a.os[Slot(h.psn, k)].Full? && s.a.os[Slot(h.psn, k)].sent
    {
      if h.psn + k == h.rawn { assert Slot(h.psn, k) == h.rawn % 8; }
    }
    forall j | 0 <= j < |s.ab|
      ensures Forward(s.ab[j], h.nab[j], h.w, h.rawn, s.a.os, h.psn)
    {
      assert Forward(s.ab[j], h.nab[j], h.w, h.prn + s.b.rcount, s.a.os, h.psn);
    }
  }

  /** What `pkaccept` makes of an intact frame carrying packet `p`. */
  lemma GotHolds(f: InSlot, p: Packet, size: nat, rptr: nat, got: InSlot)
    requires f.Raw? && f.short == p.short && f.body == p.buf && Holds(p.short, p.buf, p.chunk, size)
    requires got == Copy(f.short, f.body,
        if Missing(f.short, f.body).0 <= size then size - Missing(f.short, f.body).0 else 0, false)
    ensures CopyHolds(got, p, rptr, false)
  {
    MissingOfHolds(p.short, p.buf, p.chunk, size);
  }

  lemma AcceptNext(s: Sys, h: Hist, got: InSlot)
    requires Good(s, h) && s.b.pending < 8 && s.b.rcount < s.b.rwindow
    requires h.rawn == h.prn + s.b.rcount + 1 && CopyHolds(got, h.w[h.rawn - 1], s.b.rptr, false)
    ensures var b' := s.b.(ins := Taken(s.b.ins, s.b.pending, h.rawn % 8, got), pending := 8);
      b'.Shaped() && Good(s.(b := Settle(b', 1, false, 0)), h)
  {
    hide Holds, Flat, Settle, Chunks;
    var b' := s.b.(ins := Taken(s.b.ins, s.b.pending, h.rawn % 8, got), pending := 8);
    assert Slot(h.prn, s.b.rcount + 1) == h.rawn % 8;
    TakenNext(s.b, h.w, h.prn, got, b');
    TopMoves(s, h);
  }

  lemma AcceptBeyond(s: Sys, h: Hist, k: nat, got: InSlot)
    requires Good(s, h) && s.b.pending < 8 && s.b.rcount + 1 < k <= s.b.rwindow && got.Copy?
    ensures var b' := s.b.(ins := Taken(s.b.ins, s.b.pending, Slot(h.prn, k), got), pending := 8);
      b'.Shaped() && Good(s.(b := Settle(b', 1, false, 0)), h)
  {
    var b' := s.b.(ins := Taken(s.b.ins, s.b.pending, Slot(h.prn, k), got), pending := 8);
    TakenBeyond(s.b, h.w, h.prn, k, got, b');
  }

  /** `Examine` frees the frame or takes it. */
  lemma ExamineIs(b: Pk) returns (taken: bool, got: InSlot)
    requires b.Shaped() && b.pending < 8 && b.ins[b.pending].Raw? && b.ins[b.pending].num < 8
    ensures var f, q, e := b.ins[b.pending], b.(pending := 8), Examine(b.(pending := 8), b.pending);
      && taken == (f.intact && InWindow(b, f.num) && (f.num == b.pending || !b.ins[f.num].Copy?))
      && (!taken ==> e == q.(ins := b.ins[b.pending := Free], pool := e.pool, msgRR := e.msgRR, msgRJ := e.msgRJ))
      && (taken ==> e == q.(ins := Taken(b.ins, b.pending, f.num, got)))
      && got == Copy(f.short, f.body,
        if Missing(f.short, f.body).0 <= b.rsize then b.rsize - Missing(f.short, f.body).0 else 0, false)
  {
    var f := b.ins[b.pending];
    taken := f.intact && InWindow(b, f.num) && (f.num == b.pending || !b.ins[f.num].Copy?);
    got := Copy(f.short, f.body,
        if Missing(f.short, f.body).0 <= b.rsize then b.rsize - Missing(f.short, f.body).0 else 0, false);
  }

  lemma AcceptBKeeps(s: Sys)
    requires Ok(s) && Wf(s)
    ensures Ok(s.(b := Accept(s.b)))
  {
    var h :| Good(s, h);
    if s.b.pending == 8 {
      AcceptNothing(s, h, s.b);
    } else {
      var taken, got := ExamineIs(s.b);
      var e := Examine(s.b.(pending := 8), s.b.pending);
      if taken {
        AcceptTaken(s, h, got);
      } else {
        AcceptNothing(s, h, e);
      }
    }
  }

  lemma AcceptTaken(s: Sys, h: Hist, got: InSlot)
    requires Good(s, h) && s.b.pending < 8
    requires var f := s.b.ins[s.b.pending];
      && f.intact && InWindow(s.b, f.num) && (f.num == s.b.pending || !s.b.ins[f.num].Copy?)
      && got == Copy(f.short, f.body,
        if Missing(f.short, f.body).0 <= s.b.rsize then s.b.rsize - Missing(f.short, f.body).0 else 0, false)
    ensures var f := s.b.ins[s.b.pending];
      var b' := s.b.(ins := Taken(s.b.ins, s.b.pending, f.num, got), pending := 8);
      b'.Shaped() && Ok(s.(b := Settle(b', 1, false, 0)))
  {
    hide Inv;
    var f := s.b.ins[s.b.pending];
    PendingFacts(s, h);
    var k := WhichPacket(s.b, h.w, h.prn, h.rawn, got);
    if k == s.b.rcount + 1 {
      AcceptNext(s, h, got);
    } else {
      AcceptBeyond(s, h, k, got);
    }
  }

  /** An intact frame in the window is the next packet, or lies beyond a gap. */
  lemma WhichPacket(b: Pk, w: seq<Packet>, prn: nat, rawn: nat, got: InSlot) returns (k: nat)
    requires Receiver(b, w, prn) && b.pending < 8 && b.ins[b.pending].Raw?
    requires 1 <= rawn <= |w| && prn + b.rcount <= rawn + 6 && rawn <= prn + b.rcount + 7
    requires Holds(w[rawn - 1].short, w[rawn - 1].buf, w[rawn - 1].chunk, b.rsize)
    requires var f := b.ins[b.pending];
      && f.intact && f.num == rawn % 8 && InWindow(b, f.num) && (f.num == b.pending || !b.ins[f.num].Copy?)
      && f.short == w[rawn - 1].short && f.body == w[rawn - 1].buf
      && got == Copy(f.short, f.body,
        if Missing(f.short, f.body).0 <= b.rsize then b.rsize - Missing(f.short, f.body).0 else 0, false)
    ensures b.rcount < k <= b.rwindow && Slot(prn, k) == b.ins[b.pending].num
    ensures k == b.rcount + 1 ==> rawn == prn + b.rcount + 1 && CopyHolds(got, w[rawn - 1], b.rptr, false)
  {
    k := PlaceOf(b, w, prn, b.ins[b.pending].num);
    if k == b.rcount + 1 {
      ExpectedNumber(rawn, prn + b.rcount);
      GotHolds(b.ins[b.pending], w[rawn - 1], b.rsize, b.rptr, got);
    }
  }

  /** How the pending frame's number relates to the last accepted packet. */
  lemma PendingFacts(s: Sys, h: Hist)
    requires Good(s, h) && s.b.pending < 8
    ensures var f, top := s.b.ins[s.b.pending], h.prn + s.b.rcount;
      && f.Raw? && f.num == h.rawn % 8 && 1 <= h.rawn <= |h.w|
      && top <= h.rawn + 6 && h.rawn <= top + 7
      && (f.intact ==> f.short == h.w[h.rawn - 1].short && f.body == h.w[h.rawn - 1].buf)
      && Holds(h.w[h.rawn - 1].short, h.w[h.rawn - 1].buf, h.w[h.rawn - 1].chunk, s.b.rsize)
      && Receiver(s.b, h.w, h.prn)
  {
  }

  // pkread

  /** The reading end together with the bytes it has delivered. */
  ghost predicate Reading(b: Pk, w: seq<Packet>, prn: nat, taken: seq<nat>) {
    && Receiver(b, w, prn) && b.pending == 8
    && (forall i :: 0 <= i < |w| ==> Holds(w[i].short, w[i].buf, w[i].chunk, b.rsize))
    && taken == Flat(w[..prn]) + Partial(b, w, prn)
  }

  /** Fields of the reading end that `pkread` does not touch. */
  predicate SameReader(b: Pk, r: Pk) {
    r == b.(pr := r.pr, ins := r.ins, pool := r.pool, rcount := r.rcount, msgRR := r.msgRR, rptr := r.rptr)
  }

  lemma FlatNext(w: seq<Packet>, n: nat)
    requires n < |w|
    ensures Flat(w[..n + 1]) == Flat(w[..n]) + w[n].chunk
  {
    assert w[..n + 1] == w[..n] + [w[n]];
    FlatAppend(w[..n], w[n]);
  }

  /** The bytes copied out of the first accepted packet are the next bytes of its chunk. */
  lemma FirstSlot(b: Pk, w: seq<Packet>, prn: nat, cc: nat) returns (d: nat, off: nat)
    requires Receiver(b, w, prn) && b.rcount > 0 && Holds(w[prn].short, w[prn].buf, w[prn].chunk, b.rsize)
    requires cc <= b.ins[Slot(prn, 1)].left
    ensures var sl := b.ins[Slot(prn, 1)];
      && sl.Copy?
      && Next(b.pr) == Slot(prn, 1) && off == ReadAt(b)
      && d + sl.left == |w[prn].chunk| && Partial(b, w, prn) == w[prn].chunk[..d]
      && off == Missing(sl.short, sl.buf).1 + d
      && off + cc <= |sl.buf| && sl.buf[off..off + cc] == w[prn].chunk[d..d + cc]
  {
    hide Flat, Chunks;
    var sl := b.ins[Slot(prn, 1)];
    NextSlot(prn);
    assert CopyHolds(sl, w[prn], b.rptr, true);
    off := if sl.resid then b.rptr else Missing(sl.short, sl.buf).1;
    d := |w[prn].chunk| - sl.left;
    InsideHolds(sl.short, sl.buf, w[prn].chunk, b.rsize, d, cc);
  }

  lemma InsideHolds(short: bool, buf: seq<nat>, chunk: seq<nat>, size: nat, d: nat, cc: nat)
    requires Holds(short, buf, chunk, size) && d + cc <= |chunk|
    ensures var m := Missing(short, buf).1; m + d + cc <= |buf| && buf[m + d..m + d + cc] == chunk[d..d + cc]
  {
    MissingOfHolds(short, buf, chunk, size);
    var m := Missing(short, buf).1;
    assert buf[m + d..m + d + cc] == buf[m..m + |chunk|][d..d + cc];
  }

  /** The first packet is finished: it is given back and acknowledged. */
  lemma FinishFirst(b: Pk, w: seq<Packet>, prn: nat, b': Pk)
    requires Receiver(b, w, prn) && b.rcount > 0 && b.pending == 8
    requires b' == b.(pr := Slot(prn, 1), ins := b.ins[Slot(prn, 1) := Free], pool := b'.pool, rcount := b.rcount - 1,
      msgRR := true)
    ensures Receiver(b', w, prn + 1) && Partial(b', w, prn + 1) == []
  {
    NextSlot(prn);
    SlotShift(prn, 1);
    assert b.rcount > 1 ==> CopyHolds(b.ins[Slot(prn, 2)], w[prn + 1], b.rptr, false);
    assert Slot(prn, 2) != Slot(prn, 1);
    forall k {:trigger Slot(prn + 1, k)} | 1 <= k <= 8
      ensures if k <= b'.rcount then CopyHolds(b'.ins[Slot(prn + 1, k)], w[prn + k], b'.rptr, k == 1)
        else b'.ins[Slot(prn + 1, k)].Free?
    {
      if k == 8 {
        SlotWrap(prn);
      } else {
        SlotShift(prn, k);
        if Slot(prn, k + 1) == Slot(prn, 1) { SlotApart(prn, 1, k + 1); }
      }
    }
  }

  /** Part of the first packet is delivered. */
  lemma AdvanceFirst(b: Pk, w: seq<Packet>, prn: nat, cc: nat, d: nat, b': Pk)
    requires Receiver(b, w, prn) && b.rcount > 0 && b.pending == 8
    requires 0 < cc < b.ins[Slot(prn, 1)].left && d + b.ins[Slot(prn, 1)].left == |w[prn].chunk|
    requires var sl := b.ins[Slot(prn, 1)];
      b' == b.(
        rptr := Missing(sl.short, sl.buf).1 + d + cc,
        ins := b.ins[Slot(prn, 1) := sl.(left := sl.left - cc, resid := true)])
    ensures Receiver(b', w, prn) && Partial(b', w, prn) == w[prn].chunk[..d + cc]
  {
    forall k {:trigger Slot(prn, k)} | 1 <= k <= 8
      ensures if k <= b'.rcount then CopyHolds(b'.ins[Slot(prn, k)], w[prn + k - 1], b'.rptr, k == 1)
        else b'.ins[Slot(prn, k)].Free?
    {
      if k > 1 && Slot(prn, k) == Slot(prn, 1) { SlotApart(prn, 1, k); }
    }
  }

  lemma SplitBytes(taken: seq<nat>, before: seq<nat>, chunk: seq<nat>, d: nat, cc: nat)
    requires d + cc <= |chunk| && taken == before + chunk[..d]
    ensures taken + chunk[d..d + cc] == before + chunk[..d + cc]
  {
    assert chunk[..d] + chunk[d..d + cc] == chunk[..d + cc];
  }

  /** The first packet of a reader, of which `d` bytes have been delivered. */
  predicate FirstIs(b: Pk, w: seq<Packet>, prn: nat, d: nat) {
    && b.Shaped() && b.rcount > 0 && Next(b.pr) == Slot(prn, 1) && prn < |w|
    && var sl := b.ins[Slot(prn, 1)];
       && sl.Copy?
       && d + sl.left == |w[prn].chunk| && Partial(b, w, prn) == w[prn].chunk[..d]
       && (if sl.resid then b.rptr else Missing(sl.short, sl.buf).1) == Missing(sl.short, sl.buf).1 + d
  }

  lemma ReadOne(b: Pk, w: seq<Packet>, prn: nat, taken: seq<nat>, cc: nat, d: nat) returns (n: nat)
    requires Reading(b, w, prn, taken) && FirstIs(b, w, prn, d)
    requires cc <= b.ins[Slot(prn, 1)].left && (cc > 0 || b.ins[Slot(prn, 1)].left == 0)
    ensures n == if cc == b.ins[Slot(prn, 1)].left then prn + 1 else prn
    ensures SameReader(b, OneRead(b, cc)) && DeliversTo(b, OneRead(b, cc), w, prn, taken + w[prn].chunk[d..d + cc], n)
  {
    if b.ins[Slot(prn, 1)].left == cc {
      n := prn + 1;
      ReadFinish(b, w, prn, taken, cc, d);
    } else {
      n := prn;
      ReadAdvance(b, w, prn, taken, cc, d);
    }
  }

  lemma ReadFinish(b: Pk, w: seq<Packet>, prn: nat, taken: seq<nat>, cc: nat, d: nat)
    requires Reading(b, w, prn, taken) && FirstIs(b, w, prn, d) && cc == b.ins[Slot(prn, 1)].left
    ensures DeliversTo(b, OneRead(b, cc), w, prn, taken + w[prn].chunk[d..d + cc], prn + 1)
  {
    SplitBytes(taken, Flat(w[..prn]), w[prn].chunk, d, cc);
    FinishFirst(b, w, prn, OneRead(b, cc));
    FlatNext(w, prn);
    WholeChunk(Flat(w[..prn]), w[prn].chunk, d + cc);
  }

  lemma ReadAdvance(b: Pk, w: seq<Packet>, prn: nat, taken: seq<nat>, cc: nat, d: nat)
    requires Reading(b, w, prn, taken) && FirstIs(b, w, prn, d) && 0 < cc < b.ins[Slot(prn, 1)].left
    ensures DeliversTo(b, OneRead(b, cc), w, prn, taken + w[prn].chunk[d..d + cc], prn)
  {
    SplitBytes(taken, Flat(w[..prn]), w[prn].chunk, d, cc);
    AdvanceFirst(b, w, prn, cc, d, OneRead(b, cc));
  }

  lemma WholeChunk(before: seq<nat>, chunk: seq<nat>, n: nat)
    requires n == |chunk|
    ensures before + chunk[..n] == before + chunk + []
  {
    assert chunk[..n] == chunk;
  }

  /** With nothing accepted there is nothing to deliver. */
  lemma NothingToRead(b: Pk, w: seq<Packet>, prn: nat)
    requires Receiver(b, w, prn) && b.pending == 8
    ensures Next(b.pr) == Slot(prn, 1) && (b.ins[Next(b.pr)].Copy? <==> b.rcount > 0)
  {
    NextSlot(prn);
  }

  /** The reader has gone from `b` to `r.0` and delivered `r.1` behind `taken`. */
  ghost predicate ReadOk(b: Pk, w: seq<Packet>, prn: nat, taken: seq<nat>, r: (Pk, seq<nat>)) {
    SameReader(b, r.0) && exists n :: DeliversTo(b, r.0, w, prn, taken + r.1, n)
  }

  ghost predicate DeliversTo(b: Pk, r: Pk, w: seq<Packet>, prn: nat, taken: seq<nat>, n: nat) {
    Reading(r, w, n, taken) && prn <= n && n + r.rcount == prn + b.rcount
  }

  lemma {:induction false} ReadKeeps(b: Pk, w: seq<Packet>, prn: nat, taken: seq<nat>, icount: nat, xfr: bool)
    requires Reading(b, w, prn, taken)
    ensures ReadOk(b, w, prn, taken, ReadLoop(b, icount, xfr))
    decreases icount
  {
    hide ReadLoop, OneRead, SameReader, CopyHolds, Holds, Flat, PartRead;
    var x := Next(b.pr);
    NothingToRead(b, w, prn);
    if icount == 0 || !b.ins[x].Copy? || (b.ins[x].left == 0 && xfr) {
      ReadStop(b, b, w, prn, prn, taken, []);
      NothingRead(b, icount, xfr);
    } else {
      var cc := if b.ins[x].left < icount then b.ins[x].left else icount;
      var n, got := ReadTurn(b, w, prn, taken, icount, xfr, cc);
      if cc == 0 {
        ReadStop(b, OneRead(b, cc), w, prn, n, taken, got);
      } else {
        var b1 := OneRead(b, cc);
        ReadKeeps(b1, w, n, taken + got, icount - cc, true);
        DeliversTwice(b, b1, w, prn, n, taken, got, ReadLoop(b1, icount - cc, true));
      }
    }
  }

  lemma NothingRead(b: Pk, icount: nat, xfr: bool)
    requires b.Shaped() && (icount == 0 || !b.ins[Next(b.pr)].Copy? || (b.ins[Next(b.pr)].left == 0 && xfr))
    ensures ReadLoop(b, icount, xfr) == (b, [])
  {
  }

  lemma ReadStop(b: Pk, b1: Pk, w: seq<Packet>, prn: nat, n: nat, taken: seq<nat>, got: seq<nat>)
    requires SameReader(b, b1)
      && (DeliversTo(b, b1, w, prn, taken + got, n) || (b == b1 && n == prn && got == [] && Reading(b, w, prn, taken)))
    ensures ReadOk(b, w, prn, taken, (b1, got))
  {
    if got == [] { assert taken + got == taken; }
    assert DeliversTo(b, b1, w, prn, taken + got, n);
  }

  lemma FirstTurn(b: Pk, icount: nat, xfr: bool, cc: nat)
    requires b.Shaped() && icount > 0 && b.ins[Next(b.pr)].Copy?
    requires cc == (if b.ins[Next(b.pr)].left < icount then b.ins[Next(b.pr)].left else icount) && !(cc == 0 && xfr)
    ensures ReadLoop(b, icount, xfr) ==
      if cc == 0 then (OneRead(b, cc), PartRead(b, cc))
      else (ReadLoop(OneRead(b, cc), icount - cc, true).0,
        PartRead(b, cc) + ReadLoop(OneRead(b, cc), icount - cc, true).1)
  {
    assert cc == 0 ==> PartRead(b, cc) == [];
  }

  /** One turn of the loop delivers the next bytes, and the rest of the loop follows. */
  lemma ReadTurn(b: Pk, w: seq<Packet>, prn: nat, taken: seq<nat>, icount: nat, xfr: bool, cc: nat)
    returns (n: nat, got: seq<nat>)
    requires Reading(b, w, prn, taken) && icount > 0 && b.ins[Next(b.pr)].Copy?
    requires cc == (if b.ins[Next(b.pr)].left < icount then b.ins[Next(b.pr)].left else icount) && !(cc == 0 && xfr)
    ensures got == PartRead(b, cc) && n == (if cc == b.ins[Next(b.pr)].left then prn + 1 else prn)
    ensures SameReader(b, OneRead(b, cc)) && DeliversTo(b, OneRead(b, cc), w, prn, taken + got, n)
    ensures ReadLoop(b, icount, xfr) ==
      if cc == 0 then (OneRead(b, cc), got)
      else (ReadLoop(OneRead(b, cc), icount - cc, true).0, got + ReadLoop(OneRead(b, cc), icount - cc, true).1)
  {
    hide ReadLoop;
    FirstTurn(b, icount, xfr, cc);
    NothingToRead(b, w, prn);
    var d, off := FirstSlot(b, w, prn, cc);
    got := w[prn].chunk[d..d + cc];
    assert PartRead(b, cc) == got;
    n := ReadOne(b, w, prn, taken, cc, d);
  }

  lemma DeliversTwice(
      b: Pk, b1: Pk, w: seq<Packet>, prn: nat, n: nat, taken: seq<nat>, got: seq<nat>, rest: (Pk, seq<nat>))
    requires DeliversTo(b, b1, w, prn, taken + got, n) && SameReader(b, b1)
    requires ReadOk(b1, w, n, taken + got, rest)
    ensures ReadOk(b, w, prn, taken, (rest.0, got + rest.1))
  {
    Regroup(taken, got, rest.1);
    var m :| DeliversTo(b1, rest.0, w, n, (taken + got) + rest.1, m);
    DeliversChain(b, b1, rest.0, w, prn, n, taken + got, (taken + got) + rest.1, m);
  }

  lemma Regroup(x: seq<nat>, y: seq<nat>, z: seq<nat>)
    ensures (x + y) + z == x + (y + z)
  {
  }

  lemma DeliversChain(b: Pk, b1: Pk, r: Pk, w: seq<Packet>, prn: nat, n: nat, t1: seq<nat>, t: seq<nat>, m: nat)
    requires DeliversTo(b, b1, w, prn, t1, n) && DeliversTo(b1, r, w, n, t, m)
    ensures DeliversTo(b, r, w, prn, t, m)
  {
  }

  lemma GoodReading(s: Sys, h: Hist)
    requires Good(s, h) && s.b.pending == 8
    ensures Reading(s.b, h.w, h.prn, s.taken)
  {
    hide Sender, ForwardLink, PendingFrame, BackwardLink, SentTo, Receiver, Holds;
  }

  lemma ReadBKeeps(s: Sys, icount: nat)
    requires Ok(s) && Wf(s) && s.b.pending == 8
    ensures Ok(DoRead(s, icount))
  {
    hide Good, Reading;
    var h :| Good(s, h);
    var r := ReadLoop(s.b, icount, false);
    GoodReading(s, h);
    ReadKeeps(s.b, h.w, h.prn, s.taken, icount, false);
    var n :| DeliversTo(s.b, r.0, h.w, h.prn, s.taken + r.1, n);
    var s1 := s.(b := r.0, taken := s.taken + r.1, finished := s.finished + s.b.rcount - r.0.rcount);
    AfterRead(s, h, r.0, r.1, n);
    OutputB(s1);
    assert DoRead(s, icount) == SentByB(s1);
  }

  lemma AfterRead(s: Sys, h: Hist, b': Pk, got: seq<nat>, n: nat)
    requires Good(s, h) && s.b.pending == 8 && SameReader(s.b, b') && h.prn <= n && n + b'.rcount == h.prn + s.b.rcount
    requires Reading(b', h.w, n, s.taken + got)
    ensures Good(s.(b := b', taken := s.taken + got, finished := s.finished + s.b.rcount - b'.rcount), h.(prn := n))
  {
  }

  // ---------- the links ----------

  lemma LoseAB(s: Sys, h: Hist, i: nat) returns (h': Hist)
    requires Good(s, h) && i < |s.ab|
    ensures Good(s.(ab := Without(s.ab, i)), h')
  {
    hide Flat, Slot, BackwardLink, Window, Partial, CopyHolds;
    var ab', nab' := Without(s.ab, i), h.nab[..i] + h.nab[i + 1..];
    forall j | 0 <= j < |ab'|
      ensures ab'[j] == s.ab[if j < i then j else j + 1] && nab'[j] == h.nab[if j < i then j else j + 1]
    {
    }
    assert ForwardLink(ab', nab', h.w, h.prn + s.b.rcount, s.a.os, h.psn);
    h' := h.(nab := nab');
  }

  lemma LoseBA(s: Sys, h: Hist, i: nat) returns (h': Hist)
    requires Good(s, h) && i < |s.ba|
    ensures Good(s.(ba := Without(s.ba, i)), h')
  {
    hide Flat, Slot, ForwardLink, PendingFrame, Window, Partial, CopyHolds;
    var ba', nba' := Without(s.ba, i), h.nba[..i] + h.nba[i + 1..];
    forall j | 0 <= j < |ba'|
      ensures ba'[j] == s.ba[if j < i then j else j + 1] && nba'[j] == h.nba[if j < i then j else j + 1]
    {
    }
    assert BackwardLink(ba', nba', h.psn, h.prn);
    h' := h.(nba := nba');
  }

  lemma DamageAB(s: Sys, h: Hist, i: nat, f: Frame)
    requires Good(s, h) && i < |s.ab| && Damaged(s.ab[i], f)
    ensures Good(s.(ab := s.ab[i := f]), h)
  {
    hide Flat, Chunks, Holds, Sender, CopyHolds;
    assert s.ab[i] in s.ab;
    assert Forward(s.ab[i], h.nab[i], h.w, h.prn + s.b.rcount, s.a.os, h.psn);
    assert ForwardLink(s.ab[i := f], h.nab, h.w, h.prn + s.b.rcount, s.a.os, h.psn);
    assert PendingFrame(s.b, h.rawn, s.ab[i := f], h.nab, h.w, h.prn + s.b.rcount, s.a.os, h.psn);
  }

  lemma DamageBA(s: Sys, h: Hist, i: nat)
    requires Good(s, h) && i < |s.ba|
    ensures Good(s.(ba := s.ba[i := Noise]), h)
  {
    assert BackwardLink(s.ba[i := Noise], h.nba, h.psn, h.prn);
  }

  lemma LoseABKeeps(s: Sys, i: nat)
    requires Ok(s) && i < |s.ab|
    ensures Ok(s.(ab := Without(s.ab, i)))
  {
    hide Good;
    var h :| Good(s, h);
    var h' := LoseAB(s, h, i);
  }

  lemma LoseBAKeeps(s: Sys, i: nat)
    requires Ok(s) && i < |s.ba|
    ensures Ok(s.(ba := Without(s.ba, i)))
  {
    hide Good;
    var h :| Good(s, h);
    var h' := LoseBA(s, h, i);
  }

  lemma DamageABKeeps(s: Sys, i: nat, f: Frame)
    requires Ok(s) && i < |s.ab| && Damaged(s.ab[i], f)
    ensures Ok(s.(ab := s.ab[i := f]))
  {
    var h :| Good(s, h);
    DamageAB(s, h, i, f);
  }

  lemma DamageBAKeeps(s: Sys, i: nat)
    requires Ok(s) && i < |s.ba|
    ensures Ok(s.(ba := s.ba[i := Noise]))
  {
    var h :| Good(s, h);
    DamageBA(s, h, i);
  }

  // ---------- whole runs ----------

  lemma InitOk(s: Sys)
    requires Init(s)
    ensures Ok(s)
  {
    var h := Hist([], 0, 0, [], [], 0);
    assert Good(s, h);
  }

  lemma OkWf(s: Sys)
    requires Ok(s)
    ensures Wf(s)
  {
    var h :| Good(s, h);
  }

  lemma WriteKeeps(s: Sys, chunk: seq<nat>, junk: seq<nat>)
    requires Ok(s) && Wf(s) && Enabled(s, Write(chunk, junk))
    ensures Ok(Do(s, Write(chunk, junk)))
  {
    var h :| Good(s, h);
    var h' := PutA(s, h, chunk, junk);
    var s1 := s.(a := Put(s.a, chunk, junk), given := s.given + chunk, chunks := s.chunks + [chunk]);
    OutputA(s1);
    assert Do(s, Write(chunk, junk)) == SentByA(s1);
  }

  lemma TimeoutKeeps(s: Sys)
    requires Ok(s) && Wf(s)
    ensures Ok(Do(s, TimeoutA)) && Ok(Do(s, TimeoutB))
  {
    var a1 := s.a.(msgRR := s.a.msgRR || !s.a.msgRJ, rxmit := true);
    OkFlagsA(s, a1);
    OutputA(s.(a := a1));
    assert Do(s, TimeoutA) == SentByA(s.(a := a1));
    var b1 := s.b.(msgRR := s.b.msgRR || !s.b.msgRJ, rxmit := true);
    OkFlagsB(s, b1);
    OutputB(s.(b := b1));
    assert Do(s, TimeoutB) == SentByB(s.(b := b1));
  }

  /** Every step keeps the invariant. */
  lemma StepKeeps(s: Sys, e: Event)
    requires Ok(s) && Wf(s) && Enabled(s, e)
    ensures Ok(Do(s, e))
  {
    match e
    case Write(chunk, junk) => WriteKeeps(s, chunk, junk);
    case SendA => OutputA(s);
    case RecvA => RecvAKeeps(s);
    case TimeoutA => TimeoutKeeps(s);
    case RecvB => RecvBKeeps(s);
    case LoseBodyB => LoseBodyBKeeps(s);
    case TimeoutB => TimeoutKeeps(s);
    case AcceptB => AcceptBKeeps(s);
    case ReadB(icount) => ReadBKeeps(s, icount);
    case LoseAB(i) => LoseABKeeps(s, i);
    case LoseBA(i) => LoseBAKeeps(s, i);
    case DamageAB(i, f) => DamageABKeeps(s, i, f);
    case DamageBA(i) => DamageBAKeeps(s, i);
  }

  /** A run: each state follows from the one before by an enabled event. */
  ghost predicate IsRun(states: seq<Sys>, events: seq<Event>) {
    && |states| == |events| + 1
    && Init(states[0])
    && forall i :: 0 <= i < |events| ==>
         Wf(states[i]) && Enabled(states[i], events[i]) && states[i + 1] == Do(states[i], events[i])
  }

  lemma {:induction false} RunKeeps(states: seq<Sys>, events: seq<Event>, i: nat)
    requires IsRun(states, events) && i < |states|
    ensures Ok(states[i])
  {
    if i == 0 {
      InitOk(states[0]);
    } else {
      RunKeeps(states, events, i - 1);
      StepKeeps(states[i - 1], events[i - 1]);
    }
  }

  lemma FlatPrefix(w: seq<Packet>, n: nat)
    requires n <= |w|
    ensures Flat(w[..n]) <= Flat(w)
    decreases |w| - n
  {
    if n < |w| {
      FlatNext(w, n);
      FlatPrefix(w, n + 1);
    } else {
      assert w[..n] == w;
    }
  }

  /** Safety: in every state of every run, what has been read is a prefix of what has been
      written; nothing is lost, repeated or reordered in between. */
  lemma DeliveredIsPrefix(states: seq<Sys>, events: seq<Event>, i: nat)
    requires IsRun(states, events) && i < |states|
    ensures states[i].taken <= states[i].given
  {
    RunKeeps(states, events, i);
    var h :| Good(states[i], h);
    OkPrefix(states[i], h);
  }

  lemma OkPrefix(s: Sys, h: Hist)
    requires Good(s, h)
    ensures s.taken <= s.given
  {
    hide Wf, Sender, ForwardLink, PendingFrame, BackwardLink, SentTo, Window, Chunks, Holds;
    if h.prn < |h.w| {
      FlatNext(h.w, h.prn);
      FlatPrefix(h.w, h.prn + 1);
      var part := Partial(s.b, h.w, h.prn);
      assert part <= h.w[h.prn].chunk;
      assert Flat(h.w[..h.prn]) + part <= Flat(h.w[..h.prn]) + h.w[h.prn].chunk;
    } else {
      FlatPrefix(h.w, h.prn);
    }
  }
}
