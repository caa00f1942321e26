/** `struct pack` as it is updated in place: every function of cmd/bnu/pk0.c and
    cmd/bnu/pk1.c that data transfer uses does to the fields what `PkPack` says.
 */
module PkClass {
  import opened PkPack

  lemma FilledIs(chunk: seq<nat>, size: nat, junk: seq<nat>, at: nat, buf: seq<nat>)
    requires |chunk| <= size && |junk| == size
    requires at == if |chunk| < size then |ShortHeader(size - |chunk|)| else 0
    requires at + |chunk| <= size
    requires buf == (if |chunk| < size then ShortHeader(size - |chunk|) else []) + chunk + junk[at + |chunk|..]
    ensures (|chunk| < size, buf) == Filled(chunk, size, junk)
  {
    if |chunk| == size {
      assert buf == chunk;
    }
  }

  /** Bytes delivered so far in front of what a loop still delivers. */
  function Joined(got: seq<nat>, r: (Pk, seq<nat>)): (Pk, seq<nat>) {
    (r.0, got + r.1)
  }

  lemma JoinedAssoc(got: seq<nat>, part: seq<nat>, rest: (Pk, seq<nat>))
    ensures Joined(got, (rest.0, part + rest.1)) == Joined(got + part, rest)
  {
    assert got + (part + rest.1) == (got + part) + rest.1;
  }

  /** One turn of the delivery loop, as `ReadLoop` sees it. */
  lemma ReadLoopTurn(p: Pk, icount: nat, xfr: bool, cc: nat, got: seq<nat>)
    requires p.Shaped() && icount > 0 && p.ins[Next(p.pr)].Copy? && !(xfr && p.ins[Next(p.pr)].left == 0)
    requires cc == if p.ins[Next(p.pr)].left < icount then p.ins[Next(p.pr)].left else icount
    ensures Joined(got, ReadLoop(p, icount, xfr)) ==
      if cc == 0 then (OneRead(p, cc), got)
      else Joined(got + PartRead(p, cc), ReadLoop(OneRead(p, cc), icount - cc, true))
  {
    if cc == 0 {
      assert got + [] == got;
    } else {
      JoinedAssoc(got, PartRead(p, cc), ReadLoop(OneRead(p, cc), icount - cc, true));
    }
  }

  lemma ReadLoopDone(p: Pk, icount: nat, xfr: bool, got: seq<nat>)
    requires p.Shaped() && (icount == 0 || !p.ins[Next(p.pr)].Copy? || (xfr && p.ins[Next(p.pr)].left == 0))
    ensures Joined(got, ReadLoop(p, icount, xfr)) == (p, got)
  {
    assert got + [] == got;
  }

  class Pack {
    var ps: nat
    var pr: nat
    var rpr: nat
    var nxtps: nat
    var pscopy: nat
    var xcount: int
    var rcount: int
    var swindow: nat
    var rwindow: nat
    var xsize: nat
    var rsize: nat
    const os: array<OutSlot>
    const ins: array<InSlot>
    var pending: nat
    var rptr: nat
    var pool: nat
    var msgRR: bool
    var msgRJ: bool
    var rxmit: bool

    /** All fields as one value. */
    ghost function View(): Pk
      reads this, os, ins
    {
      Pk(ps, pr, rpr, nxtps, pscopy, xcount, rcount, swindow, rwindow, xsize, rsize,
         os[..], ins[..], pending, rptr, pool, msgRR, msgRJ, rxmit)
    }

    /** After `pkopen` and `pkreset`: `window` free input buffers, empty output slots. */
    constructor (window: nat, size: nat)
      requires 1 <= window <= MAXWINDOWS && size > 0
      ensures fresh(os) && fresh(ins) && View().Shaped()
      ensures ps == pr == rpr == pscopy == 0 && nxtps == 1 && xcount == rcount == 0 && pending == 8
      ensures xsize == rsize == size && swindow == rwindow == window && pool == window
      ensures forall x :: 0 <= x < 8 ==> os[x] == Empty && ins[x] == Free
    {
      ps, pr, rpr, pscopy, nxtps := 0, 0, 0, 0, 1;
      xcount, rcount, swindow, rwindow, xsize, rsize := 0, 0, window, window, size, size;
      os := new OutSlot[8](_ => Empty);
      ins := new InSlot[8](_ => Free);
      pending, rptr, pool := 8, 0, window;
      msgRR, msgRJ, rxmit := false, false, false;
    }

    /** `pksack`. */
    method PkSack()
      requires View().Shaped()
      modifies this, os
      ensures View() == Sack(old(View()))
    {
      var x: nat := ps;
      while x != rpr
        invariant View().Shaped() && x < 8
        invariant rpr == old(rpr)
        invariant SackFrom(View(), x) == Sack(old(View()))
        decreases Ahead(x, rpr)
      {
        x := if x == 7 then 0 else x + 1;
        if os[x].Full? && os[x].sent {
          os[x] := Empty;
          xcount := xcount - 1;
          ps := x;
        }
      }
    }

    /** `pkoutput`: the frame sent, if any. */
    method PkOutput() returns (sent: seq<Frame>)
      requires View().Shaped()
      modifies this, os
      ensures (View(), sent) == Output(old(View()))
      ensures old(msgRJ) ==> sent == [Ctl(RJ, pr)] && !msgRJ
    {
      if rxmit {
        nxtps := Next(rpr);
      }
      var x := nxtps;
      var bstate := os[x];
      if msgRJ {
        msgRJ := false;
        return [Ctl(RJ, pr)];
      }
      if msgRR && bstate.Empty? {
        msgRR := false;
        return [Ctl(RR, pr)];
      }
      if bstate.Full? {
        nxtps := Next(x);
        os[x] := bstate.(sent := true);
        rxmit := false;
        return [Data(x, pr, bstate.short, bstate.buf, true)];
      }
      sent := [];
    }

    /** The body of `pkwrite`'s loop once there is room: one packet is filled and offered
        for output. */
    method PkPut(chunk: seq<nat>, junk: seq<nat>) returns (sent: seq<Frame>)
      requires View().Shaped() && CanPut(View()) && |chunk| <= xsize && |junk| == xsize
      modifies this, os
      ensures (View(), sent) == Output(Put(old(View()), chunk, junk))
    {
      var x := Next(pscopy);
      pscopy := x;
      xcount := xcount + 1;
      var short, buf := FillPacket(chunk, xsize, junk);
      os[x] := Full(false, short, buf);
      assert View() == Put(old(View()), chunk, junk);
      sent := PkOutput();
    }

    /** Length bytes and data are written over what the buffer held. */
    static method FillPacket(chunk: seq<nat>, size: nat, junk: seq<nat>) returns (short: bool, buf: seq<nat>)
      requires |chunk| <= size && |junk| == size
      ensures (short, buf) == Filled(chunk, size, junk)
    {
      short := |chunk| < size;
      var cp := new nat[size](i requires 0 <= i < |junk| => junk[i]);
      var at := 0;
      if short {
        var fc := size - |chunk|;
        if fc > 127 {
          cp[0] := fc % 128 + 128;
          cp[1] := fc / 128;
          at := 2;
        } else {
          cp[0] := fc;
          at := 1;
        }
      }
      assert cp[..at] == if short then ShortHeader(size - |chunk|) else [];
      assert cp[at + |chunk|..] == junk[at + |chunk|..];
      CopyIn(cp, at, chunk);
      buf := cp[..];
      FilledIs(chunk, size, junk, at, buf);
    }

    /** memcpy into the middle of a buffer. */
    static method CopyIn(cp: array<nat>, at: nat, chunk: seq<nat>)
      requires at + |chunk| <= cp.Length
      modifies cp
      ensures cp[..] == old(cp[..at]) + chunk + old(cp[at + |chunk|..])
    {
      var i := 0;
      while i < |chunk|
        invariant 0 <= i <= |chunk|
        invariant cp[..] == old(cp[..at]) + chunk[..i] + old(cp[at + i..])
      {
        cp[at + i] := chunk[i];
        i := i + 1;
      }
    }

    /** `pkcntl` for RJ and RR. */
    method PkCntl(f: Frame) returns (sent: seq<Frame>)
      requires View().Shaped() && f.Ctl? && f.ack < 8
      modifies this, os
      ensures (View(), sent) == ReceiveControl(old(View()), f)
    {
      if f.kind == RJ {
        rxmit := true;
        msgRR := true;
      }
      rpr := f.ack;
      PkSack();
      sent := [];
      if msgRR || msgRJ {
        sent := PkOutput();
      }
    }

    /** `pkgetpack` from a good data header on, and `pkdata`. */
    method PkData(f: Frame)
      requires View().Shaped() && f.Data? && f.num < 8 && f.ack < 8 && pending == 8
      modifies this, os, ins
      ensures View() == ReceiveData(old(View()), f)
    {
      hide Sack, FreeSlot;
      rpr := f.ack;
      PkSack();
      if pool == 0 {
        return;
      }
      var x := PkSlot();
      if x < 8 {
        pool := pool - 1;
        ins[x] := Raw(f.num, f.short, f.body, f.intact);
        pending := x;
      }
    }

    /** A buffer goes back to the pool. */
    method GiveBack(x: nat)
      requires View().Shaped() && x < 8
      modifies this`pool, ins
      ensures var p := old(View()); View() == p.(ins := p.ins[x := Free], pool := p.pool + 1) && View().Shaped()
    {
      ins[x] := Free;
      pool := pool + 1;
    }

    /** The loop of `pkdata` that looks for a free slot. */
    method PkSlot() returns (x: nat)
      requires View().Shaped()
      ensures x == FreeSlot(ins[..], pr, 0)
    {
      x := pr;
      var k := 0;
      while k < 7
        invariant 0 <= k <= 7 && x < 8 && x == (if k <= pr then pr - k else pr + 8 - k)
        invariant FreeSlot(ins[..], pr, k) == FreeSlot(ins[..], pr, 0)
        decreases 7 - k
      {
        if ins[x].Free? {
          return;
        }
        x := if x == 0 then 7 else x - 1;
        k := k + 1;
      }
      x := 8;
    }

    /** The branch `retransmit` of `pkgetpack`. */
    method PkTimeout() returns (sent: seq<Frame>)
      requires View().Shaped()
      modifies this, os
      ensures (View(), sent) == Timeout(old(View()))
    {
      if !msgRR && !msgRJ {
        msgRR := true;
      }
      rxmit := true;
      sent := PkOutput();
    }

    /** `pkaccept` once a frame is pending or packets are waiting. */
    method PkAccept() returns (accept: int)
      requires View().Shaped() && (pending < 8 ==> ins[pending].Raw? && ins[pending].num < 8)
      modifies this, ins
      ensures View() == Accept(old(View())) && accept == rcount
    {
      var x := pending;
      pending := 8;
      if x < 8 {
        PkExamine(x);
      }
      PkSettle();
      accept := rcount;
    }

    /** The second scan of `pkaccept`. */
    method PkSettle()
      requires View().Shaped()
      modifies this, ins
      ensures View() == Settle(old(View()), 1, false, 0)
    {
      var k, gap, count := 1, false, 0;
      while k <= rwindow
        invariant 1 <= k && View().Shaped() && rwindow == old(rwindow)
        invariant Settle(View(), k, gap, count) == Settle(old(View()), 1, false, 0)
        decreases rwindow + 1 - k
      {
        var y := (pr + k) % 8;
        if !ins[y].Copy? {
          gap := true;
        } else if gap {
          GiveBack(y);
          msgRR := true;
        } else {
          count := count + 1;
        }
        k := k + 1;
      }
      rcount := count;
    }

    /** The first loop of `pkaccept` for the slot whose bit is set. */
    method PkExamine(x: nat)
      requires View().Shaped() && x < 8 && ins[x].Raw? && ins[x].num < 8
      modifies this, ins
      ensures View() == Examine(old(View()), x)
    {
      var f := ins[x];
      if !f.intact {
        ins[x] := Free;
        pool := pool + 1;
        msgRJ := true;
        return;
      }
      var d := Ahead(pr, f.num);
      if d < 1 || d > rwindow || (f.num != x && ins[f.num].Copy?) {
        ins[x] := Free;
        pool := pool + 1;
        msgRR := true;
        return;
      }
      if f.num != x {
        ins[x] := ins[f.num];
      }
      var cc := Missing(f.short, f.body).0;
      ins[f.num] := Copy(f.short, f.body, if cc <= rsize then rsize - cc else 0, false);
    }

    /** The delivery loop of `pkread` and the `pkoutput` behind it. */
    method PkRead(want: nat) returns (got: seq<nat>, sent: seq<Frame>)
      requires View().Shaped()
      modifies this, os, ins
      ensures got == ReadLoop(old(View()), want, false).1
      ensures (View(), sent) == Output(ReadLoop(old(View()), want, false).0)
    {
      got := [];
      var icount: nat, xfr, more := want, false, true;
      ghost var all := ReadLoop(View(), want, false);
      assert [] + all.1 == all.1;
      while more && icount > 0 && ins[Next(pr)].Copy? && !(xfr && ins[Next(pr)].left == 0)
        invariant View().Shaped()
        invariant if more then Joined(got, ReadLoop(View(), icount, xfr)) == all else (View(), got) == all
        decreases icount, more
      {
        var cc := if ins[Next(pr)].left < icount then ins[Next(pr)].left else icount;
        ReadLoopTurn(View(), icount, xfr, cc, got);
        var part := ReadTurn(cc);
        if cc == 0 {
          more := false;
        } else {
          got := got + part;
          icount, xfr := icount - cc, true;
        }
      }
      if more {
        ReadLoopDone(View(), icount, xfr, got);
      }
      sent := PkOutput();
    }

    /** One turn of the delivery loop. */
    method ReadTurn(cc: nat) returns (part: seq<nat>)
      requires View().Shaped() && ins[Next(pr)].Copy? && cc <= ins[Next(pr)].left
      modifies this, ins
      ensures part == PartRead(old(View()), cc) && View() == OneRead(old(View()), cc)
    {
      hide Missing;
      var s := ins[Next(pr)];
      var cp := if s.resid then rptr else Missing(s.short, s.buf).1;
      part := if cp + cc <= |s.buf| then s.buf[cp..cp + cc] else [];
      PassRead(cc, cp);
    }

    /** The bytes read are passed over. */
    method PassRead(cc: nat, cp: nat)
      requires View().Shaped() && ins[Next(pr)].Copy? && cc <= ins[Next(pr)].left && cp == ReadAt(View())
      modifies this, ins
      ensures View() == OneRead(old(View()), cc)
    {
      hide ReadAt;
      var x := Next(pr);
      var s := ins[x];
      if s.left == cc {
        pr := x;
        ins[x] := Free;
        pool := pool + 1;
        rcount := rcount - 1;
        msgRR := true;
      } else {
        rptr := cp + cc;
        ins[x] := s.(left := s.left - cc, resid := true);
      }
    }
  }
}
