/** One end of the UUCP 'g' packet protocol (cmd/bnu/pk0.c, cmd/bnu/pk1.c): the fields of
    `struct pack` that data transfer uses, and what each function does to them.

    Sequence numbers are modulo 8. A frame whose header does not check out is `Noise`; a
    data frame whose body does not check out has `intact` false.
 */
module PkPack {
  const MAXWINDOWS: nat := 7

  datatype Control = RR | RJ

  datatype Frame =
    | Data(num: nat, ack: nat, short: bool, body: seq<nat>, intact: bool)
    | Ctl(kind: Control, ack: nat)
    | Noise

  /** An output buffer: B_NULL, or B_READY with B_SENT and B_SHORT. */
  datatype OutSlot = Empty | Full(sent: bool, short: bool, buf: seq<nat>)

  /** An input buffer: free, a frame not yet examined, or accepted (B_COPY) with `left`
      bytes to deliver, some of them delivered already when `resid`. */
  datatype InSlot =
    | Free
    | Raw(num: nat, short: bool, body: seq<nat>, intact: bool)
    | Copy(short: bool, buf: seq<nat>, left: nat, resid: bool)

  /** `pending` stands for p_imap while the receiver is driven by `pkread`: the slot of the
      one frame not yet examined, or 8. `rptr` is an offset into the buffer, `pool` the
      number of free input buffers. */
  datatype Pk = Pk(
    ps: nat, pr: nat, rpr: nat, nxtps: nat, pscopy: nat,
    xcount: int, rcount: int, swindow: nat, rwindow: nat, xsize: nat, rsize: nat,
    os: seq<OutSlot>, ins: seq<InSlot>, pending: nat, rptr: nat, pool: nat,
    msgRR: bool, msgRJ: bool, rxmit: bool)
  {
    predicate Shaped() {
      && |os| == 8 && |ins| == 8
      && ps < 8 && pr < 8 && rpr < 8 && nxtps < 8 && pscopy < 8
      && 1 <= swindow <= MAXWINDOWS && 1 <= rwindow <= MAXWINDOWS
      && pending <= 8
    }
  }

  /** The table `next`. */
  function Next(x: nat): nat {
    if x == 7 then 0 else x + 1
  }

  /** How far number `y` lies ahead of number `x`. */
  function Ahead(x: nat, y: nat): nat {
    if x <= y then y - x else if x <= y + 8 then y + 8 - x else 0
  }

  // ---------- short packets ----------

  /** Length bytes in front of a packet that lacks `fc` bytes. */
  function ShortHeader(fc: nat): seq<nat> {
    if fc > 127 then [fc % 128 + 128, fc / 128] else [fc]
  }

  /** `buf` of the packet size holds `chunk`; what lies behind it does not matter. */
  predicate Holds(short: bool, buf: seq<nat>, chunk: seq<nat>, size: nat) {
    && |buf| == size && |chunk| <= size
    && short == (|chunk| < size)
    && if short then ShortHeader(size - |chunk|) + chunk <= buf else buf == chunk
  }

  /** The number of bytes a buffer lacks, and how many bytes say so. */
  function Missing(short: bool, buf: seq<nat>): (nat, nat) {
    if !short || buf == [] then (0, 0)
    else if buf[0] < 128 || |buf| < 2 then (buf[0], 1)
    else (buf[0] % 128 + 128 * buf[1], 2)
  }

  /** The form on the line: the bytes lacking in one byte below 128, or in two as digits to the base
      128, the lower first and with its top bit set; then the data. */
  lemma ShortForm(buf: seq<nat>, chunk: seq<nat>, size: nat)
    requires Holds(true, buf, chunk, size) && size < 128 * 128
    ensures if size - |chunk| < 128 then buf[0] == size - |chunk| && buf[1..1 + |chunk|] == chunk
      else
        && 128 <= buf[0] < 256 && buf[1] < 128 && (buf[0] - 128) + 128 * buf[1] == size - |chunk|
        && buf[2..2 + |chunk|] == chunk
  {
    MissingOfHolds(true, buf, chunk, size);
    var fc := size - |chunk|;
    var h := ShortHeader(fc);
    var p := h + chunk;
    assert buf[..|p|] == p;
    assert forall i :: 0 <= i < |h| ==> buf[i] == p[i] == h[i];
  }

  /** What the receiver reads from a buffer is what the sender put into it. */
  lemma MissingOfHolds(short: bool, buf: seq<nat>, chunk: seq<nat>, size: nat)
    requires Holds(short, buf, chunk, size)
    ensures Missing(short, buf).0 == size - |chunk|
    ensures Missing(short, buf).1 + |chunk| <= |buf|
    ensures buf[Missing(short, buf).1..Missing(short, buf).1 + |chunk|] == chunk
  {
    if short {
      var fc := size - |chunk|;
      var h := ShortHeader(fc);
      var p := h + chunk;
      assert buf[..|p|] == p;
      assert forall i :: 0 <= i < |h| ==> buf[i] == p[i] == h[i];
      assert Missing(short, buf) == (fc, |h|) by {
        if fc > 127 {
          assert buf[0] == fc % 128 + 128 && buf[1] == fc / 128;
          assert (fc % 128 + 128) % 128 == fc % 128;
        } else {
          assert buf[0] == fc;
        }
      }
      assert buf[|h|..|h| + |chunk|] == p[|h|..];
    }
  }

  /** `pkwrite`'s filling of a packet; `junk` is what malloc left in the buffer. */
  function Filled(chunk: seq<nat>, size: nat, junk: seq<nat>): (r: (bool, seq<nat>))
    requires |chunk| <= size && |junk| == size
    ensures Holds(r.0, r.1, chunk, size)
  {
    if |chunk| < size then
      var p := ShortHeader(size - |chunk|) + chunk;
      (true, p + junk[|p|..])
    else (false, chunk)
  }

  // ---------- pksack ----------

  /** Free the sent packets from behind `x` up to `rpr`. */
  function SackFrom(p: Pk, x: nat): (r: Pk)
    requires p.Shaped() && x < 8
    ensures r.Shaped()
    decreases Ahead(x, p.rpr)
  {
    if x == p.rpr then p
    else
      var y := Next(x);
      var p' := if p.os[y].Full? && p.os[y].sent
                then p.(os := p.os[y := Empty], xcount := p.xcount - 1, ps := y)
                else p;
      SackFrom(p', y)
  }

  function Sack(p: Pk): (r: Pk)
    requires p.Shaped()
    ensures r.Shaped()
  {
    SackFrom(p, p.ps)
  }

  // ---------- pkoutput ----------

  /** Send at most one frame: a control frame if one is due, else the next data packet. */
  function Output(p: Pk): (r: (Pk, seq<Frame>))
    requires p.Shaped()
    ensures r.0.Shaped()
  {
    var p := if p.rxmit then p.(nxtps := Next(p.rpr)) else p;
    var x := p.nxtps;
    if p.msgRJ then (p.(msgRJ := false), [Ctl(RJ, p.pr)])
    else if p.msgRR && p.os[x].Empty? then (p.(msgRR := false), [Ctl(RR, p.pr)])
    else if p.os[x].Full? then
      (p.(nxtps := Next(x), os := p.os[x := p.os[x].(sent := true)], rxmit := false),
       [Data(x, p.pr, p.os[x].short, p.os[x].buf, true)])
    else (p, [])
  }

  // ---------- pkwrite, one packet ----------

  predicate CanPut(p: Pk)
    requires p.Shaped()
  {
    p.xcount < p.swindow && p.os[Next(p.pscopy)].Empty?
  }

  function Put(p: Pk, chunk: seq<nat>, junk: seq<nat>): (r: Pk)
    requires p.Shaped() && CanPut(p) && |chunk| <= p.xsize && |junk| == p.xsize
    ensures r.Shaped()
  {
    var x := Next(p.pscopy);
    var f := Filled(chunk, p.xsize, junk);
    p.(os := p.os[x := Full(false, f.0, f.1)], pscopy := x, xcount := p.xcount + 1)
  }

  // ---------- pkgetpack, pkcntl, pkdata ----------

  /** No frame came, or its body did not: ask for one and go back to the oldest packet. */
  function Timeout(p: Pk): (r: (Pk, seq<Frame>))
    requires p.Shaped()
    ensures r.0.Shaped()
  {
    Output(p.(msgRR := p.msgRR || !p.msgRJ, rxmit := true))
  }

  /** The free slot that `pkdata` finds, going down from `pr` and stopping in front of the
      slot of the next expected number, or 8. */
  function FreeSlot(ins: seq<InSlot>, pr: nat, k: nat): (y: nat)
    requires |ins| == 8 && pr < 8 && k <= 7
    ensures y == 8 || (y < 8 && ins[y].Free? && y != Next(pr))
    decreases 7 - k
  {
    if k == 7 then 8
    else
      var x := if k <= pr then pr - k else pr + 8 - k;
      if ins[x].Free? then x else FreeSlot(ins, pr, k + 1)
  }

  /** A data frame: its acknowledgement, then its body into a free slot. */
  function ReceiveData(p: Pk, f: Frame): (r: Pk)
    requires p.Shaped() && f.Data? && f.num < 8 && f.ack < 8 && p.pending == 8
    ensures r.Shaped()
  {
    var p := Sack(p.(rpr := f.ack));
    if p.pool == 0 then p
    else
      var x := FreeSlot(p.ins, p.pr, 0);
      if x == 8 then p
      else p.(pool := p.pool - 1, ins := p.ins[x := Raw(f.num, f.short, f.body, f.intact)], pending := x)
  }

  /** The header of a data frame came, its body did not: the buffer is not given back. */
  function LoseBody(p: Pk, f: Frame): (r: (Pk, seq<Frame>))
    requires p.Shaped() && f.Data? && f.num < 8 && f.ack < 8
    ensures r.0.Shaped()
  {
    var p := Sack(p.(rpr := f.ack));
    if p.pool == 0 then (p, []) else Timeout(p.(pool := p.pool - 1))
  }

  function ReceiveControl(p: Pk, f: Frame): (r: (Pk, seq<Frame>))
    requires p.Shaped() && f.Ctl? && f.ack < 8
    ensures r.0.Shaped()
  {
    var p := if f.kind == RJ then p.(rxmit := true, msgRR := true) else p;
    var p := Sack(p.(rpr := f.ack));
    if p.msgRR || p.msgRJ then Output(p) else (p, [])
  }

  // ---------- pkaccept ----------

  /** Sequence number `n` lies in the receive window. */
  predicate InWindow(p: Pk, n: nat) {
    1 <= Ahead(p.pr, n) <= p.rwindow
  }

  /** Examine the one frame in slot `x`. */
  function Examine(p: Pk, x: nat): (r: Pk)
    requires p.Shaped() && x < 8 && p.ins[x].Raw? && p.ins[x].num < 8
    ensures r.Shaped()
  {
    var f := p.ins[x];
    var freed := p.(ins := p.ins[x := Free], pool := p.pool + 1);
    if !f.intact then freed.(msgRJ := true)
    else if !InWindow(p, f.num) || (f.num != x && p.ins[f.num].Copy?) then freed.(msgRR := true)
    else
      var left := if Missing(f.short, f.body).0 <= p.rsize then p.rsize - Missing(f.short, f.body).0 else 0;
      var got := Copy(f.short, f.body, left, false);
      p.(ins := (if f.num == x then p.ins else p.ins[x := p.ins[f.num]])[f.num := got])
  }

  /** The second scan: count accepted packets up to the first gap and free those behind it. */
  function Settle(p: Pk, k: nat, gap: bool, count: nat): (r: Pk)
    requires p.Shaped() && 1 <= k
    ensures r.Shaped()
    decreases if k <= p.rwindow then p.rwindow - k + 1 else 0
  {
    if k > p.rwindow then p.(rcount := count)
    else
      var x := (p.pr + k) % 8;
      if p.ins[x].Copy? then
        if gap then Settle(p.(ins := p.ins[x := Free], pool := p.pool + 1, msgRR := true), k + 1, gap, count)
        else Settle(p, k + 1, gap, count + 1)
      else Settle(p, k + 1, true, count)
  }

  function Accept(p: Pk): (r: Pk)
    requires p.Shaped() && (p.pending < 8 ==> p.ins[p.pending].Raw? && p.ins[p.pending].num < 8)
    ensures r.Shaped()
  {
    var q := p.(pending := 8);
    Settle(if p.pending == 8 then q else Examine(q, p.pending), 1, false, 0)
  }

  // ---------- pkread ----------

  /** The offset of the next byte to deliver from the first accepted packet. */
  function ReadAt(p: Pk): nat
    requires p.Shaped() && p.ins[Next(p.pr)].Copy?
  {
    var s := p.ins[Next(p.pr)];
    if s.resid then p.rptr else Missing(s.short, s.buf).1
  }

  /** The next `cc` bytes of the first accepted packet. */
  function PartRead(p: Pk, cc: nat): seq<nat>
    requires p.Shaped() && p.ins[Next(p.pr)].Copy?
  {
    var buf := p.ins[Next(p.pr)].buf;
    if ReadAt(p) + cc <= |buf| then buf[ReadAt(p)..ReadAt(p) + cc] else []
  }

  /** After delivering them: a finished packet is given back and will be acknowledged. */
  function OneRead(p: Pk, cc: nat): (r: Pk)
    requires p.Shaped() && p.ins[Next(p.pr)].Copy? && cc <= p.ins[Next(p.pr)].left
    ensures r.Shaped()
  {
    var x := Next(p.pr);
    var s := p.ins[x];
    if s.left == cc
    then p.(pr := x, ins := p.ins[x := Free], pool := p.pool + 1, rcount := p.rcount - 1, msgRR := true)
    else p.(rptr := ReadAt(p) + cc, ins := p.ins[x := s.(left := s.left - cc, resid := true)])
  }

  /** Deliver at most `icount` bytes of accepted packets; `xfr` once some packet was read. */
  function ReadLoop(p: Pk, icount: nat, xfr: bool): (r: (Pk, seq<nat>))
    requires p.Shaped()
    ensures r.0.Shaped()
    decreases icount
  {
    var x := Next(p.pr);
    if icount == 0 || !p.ins[x].Copy? then (p, [])
    else
      var cc := if p.ins[x].left < icount then p.ins[x].left else icount;
      if cc == 0 && xfr then (p, [])
      else if cc == 0 then (OneRead(p, 0), [])
      else
        var rest := ReadLoop(OneRead(p, cc), icount - cc, true);
        (rest.0, PartRead(p, cc) + rest.1)
  }
}
