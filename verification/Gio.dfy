/** File transfer over the packet layer (cmd/bnu/gio.c): `gwrdata` cuts a file into packets
    and ends with an empty one, `grddata` puts the file together again from what `pkread`
    delivers, whatever the line does in the meantime.
 */
module Gio {
  import opened PkPack
  import opened PkRun

  function Cat(q: seq<seq<nat>>): seq<nat> {
    if q == [] then [] else q[0] + Cat(q[1..])
  }

  predicate NoneEmpty(q: seq<seq<nat>>) {
    forall i :: 0 <= i < |q| ==> q[i] != []
  }

  lemma {:induction false} CatConcat(p: seq<seq<nat>>, q: seq<seq<nat>>)
    ensures Cat(p + q) == Cat(p) + Cat(q)
  {
    if p == [] {
      assert p + q == q;
    } else {
      assert (p + q)[1..] == p[1..] + q;
      CatConcat(p[1..], q);
    }
  }

  // ---------- writing ----------

  /** The packets that `pkwrite` makes of one block: at least one, all full but the last. */
  function BlockPackets(block: seq<nat>, size: nat): (q: seq<seq<nat>>)
    requires size > 0
    ensures Cat(q) == block && |q| > 0
    ensures forall i :: 0 <= i < |q| ==> |q[i]| <= size
    ensures block == [] ==> q == [[]]
    ensures block != [] ==> NoneEmpty(q)
    decreases |block|
  {
    if |block| <= size then [block]
    else
      CatConcat([block[..size]], BlockPackets(block[size..], size));
      assert block[..size] + block[size..] == block;
      [block[..size]] + BlockPackets(block[size..], size)
  }

  /** The packets of a file that is read in blocks of `bufsiz` bytes. */
  function FilePackets(file: seq<nat>, size: nat, bufsiz: nat): (q: seq<seq<nat>>)
    requires size > 0 && bufsiz > 0
    ensures NoneEmpty(q) && Cat(q) == file
    ensures forall i :: 0 <= i < |q| ==> |q[i]| <= size
    decreases |file|
  {
    if file == [] then []
    else if |file| <= bufsiz then BlockPackets(file, size)
    else
      CatConcat(BlockPackets(file[..bufsiz], size), FilePackets(file[bufsiz..], size, bufsiz));
      assert file[..bufsiz] + file[bufsiz..] == file;
      BlockPackets(file[..bufsiz], size) + FilePackets(file[bufsiz..], size, bufsiz)
  }

  lemma BlockStep(block: seq<nat>, size: nat, cc: nat)
    requires size > 0 && cc == if |block| < size then |block| else size
    ensures BlockPackets(block, size) ==
      if cc == |block| then [block[..cc]] else [block[..cc]] + BlockPackets(block[cc..], size)
  {
    if cc == |block| { assert block[..cc] == block; }
  }

  lemma ConcatAssoc(p: seq<seq<nat>>, q: seq<seq<nat>>, r: seq<seq<nat>>)
    ensures (p + q) + r == p + (q + r)
  {
  }

  /** The loop of `pkwrite` over one block. */
  method WriteBlock(block: seq<nat>, size: nat) returns (packets: seq<seq<nat>>)
    requires size > 0
    ensures packets == BlockPackets(block, size)
    ensures Cat(packets) == block && (block == [] ==> packets == [[]]) && (block != [] ==> NoneEmpty(packets))
    ensures forall i :: 0 <= i < |packets| ==> |packets[i]| <= size
  {
    hide BlockPackets;
    packets := [];
    var rest := block;
    while true
      invariant packets + BlockPackets(rest, size) == BlockPackets(block, size)
      decreases |rest|
    {
      var cc := if |rest| < size then |rest| else size;
      BlockStep(rest, size, cc);
      ConcatAssoc(packets, [rest[..cc]], BlockPackets(rest[cc..], size));
      packets := packets + [rest[..cc]];
      rest := rest[cc..];
      if rest == [] {
        return;
      }
    }
  }

  lemma FileStep(file: seq<nat>, size: nat, bufsiz: nat, len: nat)
    requires size > 0 && bufsiz > 0 && file != [] && len == if |file| < bufsiz then |file| else bufsiz
    ensures FilePackets(file, size, bufsiz) == BlockPackets(file[..len], size) + FilePackets(file[len..], size, bufsiz)
  {
    if |file| <= bufsiz {
      assert file[..len] == file && file[len..] == [];
      assert BlockPackets(file, size) + [] == BlockPackets(file, size);
    }
  }

  lemma NoPackets(size: nat, bufsiz: nat)
    requires size > 0 && bufsiz > 0
    ensures FilePackets([], size, bufsiz) == []
  {
  }

  // Where the file is cut, apart from the loops.

  function Min(a: nat, b: nat): nat {
    if a < b then a else b
  }

  /** How many bytes are in front of packet i. */
  function Offset(q: seq<seq<nat>>, i: nat): nat
    requires i <= |q|
  {
    |Cat(q[..i])|
  }

  lemma {:induction false} OffsetBehind(p: seq<seq<nat>>, q: seq<seq<nat>>, i: nat)
    requires i <= |q|
    ensures Offset(p + q, |p| + i) == |Cat(p)| + Offset(q, i)
  {
    assert (p + q)[..|p| + i] == p + q[..i];
    CatConcat(p, q[..i]);
  }

  lemma {:induction false} OffsetWithin(p: seq<seq<nat>>, q: seq<seq<nat>>, i: nat)
    requires i <= |p|
    ensures Offset(p + q, i) == Offset(p, i)
  {
    assert (p + q)[..i] == p[..i];
  }

  lemma OffsetFirst(q: seq<seq<nat>>)
    ensures Offset(q, 0) == 0
  {
    assert q[..0] == [];
  }

  lemma CatOne(b: seq<nat>)
    ensures Cat([b]) == b
  {
    assert [b][1..] == [];
    assert b + [] == b;
  }

  /** A packet of a block is full unless the block ends. */
  lemma {:induction false} BlockCut(block: seq<nat>, size: nat, i: nat)
    requires size > 0 && i < |BlockPackets(block, size)|
    ensures var q := BlockPackets(block, size);
      Offset(q, i) <= |block| && |q[i]| == Min(size, |block| - Offset(q, i))
    decreases |block|
  {
    hide Cat, Offset;
    var q := BlockPackets(block, size);
    if i == 0 {
      OffsetFirst(q);
    } else {
      var head, tail := [block[..size]], BlockPackets(block[size..], size);
      CatOne(block[..size]);
      OffsetBehind(head, tail, i - 1);
      BlockCut(block[size..], size, i - 1);
    }
  }

  lemma ModShift(o: nat, b: nat)
    requires b > 0
    ensures (b + o) % b == o % b
  {
    var d, m := o / b, o % b;
    assert b + o == b * (d + 1) + m;
    SameRest(b + o, b, d + 1, m);
  }

  lemma SameRest(n: nat, b: nat, d: nat, m: nat)
    requires n == b * d + m && m < b
    ensures n % b == m
  {
    assert n == b * (n / b) + n % b;
    assert b * (n / b - d) == m - n % b;
    NoMultiple(b, n / b - d);
  }

  lemma NoMultiple(b: int, k: int)
    requires 0 - b < b * k < b
    ensures k == 0
  {
  }

  /** In every packet of a file is as much as fits in, up to the end of its block or of the file. */
  lemma {:induction false} FileCut(file: seq<nat>, size: nat, bufsiz: nat, i: nat)
    requires size > 0 && bufsiz > 0 && i < |FilePackets(file, size, bufsiz)|
    ensures var q := FilePackets(file, size, bufsiz);
      && Offset(q, i) < |file|
      && |q[i]| == Min(size, Min(bufsiz - Offset(q, i) % bufsiz, |file| - Offset(q, i)))
    decreases |file|
  {
    hide BlockPackets, Offset;
    var len := Min(|file|, bufsiz);
    var head, tail := BlockPackets(file[..len], size), FilePackets(file[len..], size, bufsiz);
    FileStep(file, size, bufsiz, len);
    if i < |head| {
      BlockCut(file[..len], size, i);
      OffsetWithin(head, tail, i);
      var o := Offset(head, i);
      assert head[i] != [];
      assert o < len <= bufsiz;
      SameRest(o, bufsiz, 0, o);
    } else {
      var j := i - |head|;
      FileCut(file[len..], size, bufsiz, j);
      OffsetBehind(head, tail, j);
      ModShift(Offset(tail, j), bufsiz);
    }
  }

  /** `gwrdata`: the file block by block, then an empty packet. */
  method Gwrdata(file: seq<nat>, size: nat, bufsiz: nat) returns (packets: seq<seq<nat>>)
    requires size > 0 && bufsiz > 0
    ensures packets == FilePackets(file, size, bufsiz) + [[]]
    ensures NoneEmpty(packets[..|packets| - 1]) && Cat(packets[..|packets| - 1]) == file
    ensures forall i :: 0 <= i < |packets| ==> |packets[i]| <= size
  {
    hide FilePackets, BlockPackets, Cat;
    packets := [];
    var rest, more := file, true;
    while more && rest != []
      invariant packets + FilePackets(rest, size, bufsiz) == FilePackets(file, size, bufsiz)
      invariant !more ==> rest == []
      decreases |rest|
    {
      var len := if |rest| < bufsiz then |rest| else bufsiz;
      var block := WriteBlock(rest[..len], size);
      FileStep(rest, size, bufsiz, len);
      ConcatAssoc(packets, block, FilePackets(rest[len..], size, bufsiz));
      packets := packets + block;
      rest := rest[len..];
      more := len == bufsiz;
    }
    NoPackets(size, bufsiz);
    var last := WriteBlock([], size);
    assert packets == FilePackets(file, size, bufsiz);
    assert (packets + last)[..|packets|] == packets;
    packets := packets + last;
  }

  // ---------- reading ----------

  /** What `pkread` delivers from a queue of packets of which `avail` are accepted, and what
      is left of the queue and of that number. */
  function Deliver(q: seq<seq<nat>>, avail: nat, icount: nat, xfr: bool): (r: (seq<seq<nat>>, nat, seq<nat>))
    requires avail <= |q|
    ensures r.1 <= |r.0|
    decreases icount
  {
    if icount == 0 || avail == 0 then (q, avail, [])
    else
      var cc := if |q[0]| < icount then |q[0]| else icount;
      if cc == 0 && xfr then (q, avail, [])
      else
        var q' := if |q[0]| == cc then q[1..] else [q[0][cc..]] + q[1..];
        var avail' := if |q[0]| == cc then avail - 1 else avail;
        if cc == 0 then (q', avail', [])
        else
          var rest := Deliver(q', avail', icount - cc, true);
          (rest.0, rest.1, q[0][..cc] + rest.2)
  }

  /** A file in transit: its packets, the empty one, and what was sent after it. */
  ghost predicate Stream(q: seq<seq<nat>>, body: seq<seq<nat>>, after: seq<seq<nat>>) {
    q == body + [[]] + after && NoneEmpty(body)
  }

  /** Taking the first bytes of a stream's first packet. */
  lemma StreamStep(q: seq<seq<nat>>, body: seq<seq<nat>>, after: seq<seq<nat>>, cc: nat) returns (body': seq<seq<nat>>)
    requires Stream(q, body, after) && body != [] && 0 < cc <= |q[0]|
    ensures q[0] == body[0]
    ensures Stream(AfterTurn(q, cc), body', after)
    ensures Cat(body) == q[0][..cc] + Cat(body')
  {
    if |q[0]| == cc {
      body' := body[1..];
      assert q[1..] == body' + [[]] + after;
      assert q[0][..cc] == q[0];
    } else {
      body' := [q[0][cc..]] + body[1..];
      assert [q[0][cc..]] + q[1..] == body' + [[]] + after;
      assert body'[1..] == body[1..];
      assert q[0][..cc] + (q[0][cc..] + Cat(body[1..])) == q[0] + Cat(body[1..]);
    }
  }

  /** One turn of the delivery loop. */
  function AfterTurn(q: seq<seq<nat>>, cc: nat): seq<seq<nat>>
    requires q != [] && cc <= |q[0]|
  {
    if |q[0]| == cc then q[1..] else [q[0][cc..]] + q[1..]
  }

  lemma DeliverTurn(q: seq<seq<nat>>, avail: nat, icount: nat, xfr: bool, cc: nat)
    requires 0 < avail <= |q| && icount > 0 && cc == (if |q[0]| < icount then |q[0]| else icount) && cc > 0
    ensures var avail' := if |q[0]| == cc then avail - 1 else avail;
      && avail' <= |AfterTurn(q, cc)|
      && var rest := Deliver(AfterTurn(q, cc), avail', icount - cc, true);
         Deliver(q, avail, icount, xfr) == (rest.0, rest.1, q[0][..cc] + rest.2)
  {
  }

  /** The bytes delivered are the next bytes of the file, and the rest of it remains. */
  ghost predicate Part(
      q: seq<seq<nat>>, got: seq<nat>, body: seq<seq<nat>>, after: seq<seq<nat>>, body': seq<seq<nat>>) {
    Stream(q, body', after) && Cat(body) == got + Cat(body')
  }

  lemma PartJoin(
      q: seq<seq<nat>>, got: seq<nat>, more: seq<nat>, body: seq<seq<nat>>, body1: seq<seq<nat>>, after: seq<seq<nat>>,
      body': seq<seq<nat>>)
    requires Cat(body) == got + Cat(body1) && Part(q, more, body1, after, body')
    ensures Part(q, got + more, body, after, body')
  {
    assert got + (more + Cat(body')) == (got + more) + Cat(body');
  }

  /** In the middle of a `pkread`: it stops in front of the empty packet. */
  lemma {:induction false} DeliverMore(
      q: seq<seq<nat>>, body: seq<seq<nat>>, after: seq<seq<nat>>, avail: nat, icount: nat)
    returns (body': seq<seq<nat>>)
    requires Stream(q, body, after) && avail <= |q|
    ensures var r := Deliver(q, avail, icount, true); Part(r.0, r.2, body, after, body') && |r.2| <= icount
    decreases icount
  {
    if icount == 0 || avail == 0 || body == [] {
      body' := body;
      assert body == [] ==> q[0] == [];
      assert [] + Cat(body) == Cat(body);
      assert Deliver(q, avail, icount, true) == (q, avail, []);
    } else {
      body' := DeliverStep(q, body, after, avail, icount, true);
    }
  }

  lemma {:induction false} DeliverStep(
      q: seq<seq<nat>>, body: seq<seq<nat>>, after: seq<seq<nat>>, avail: nat, icount: nat, xfr: bool)
    returns (body': seq<seq<nat>>)
    requires Stream(q, body, after) && body != [] && 0 < avail <= |q| && icount > 0
    ensures var r := Deliver(q, avail, icount, xfr); Part(r.0, r.2, body, after, body') && 0 < |r.2| <= icount
    decreases icount, 0
  {
    assert q[0] == body[0];
    var cc := if |q[0]| < icount then |q[0]| else icount;
    var body1 := StreamStep(q, body, after, cc);
    DeliverTurn(q, avail, icount, xfr, cc);
    var avail' := if |q[0]| == cc then avail - 1 else avail;
    body' := DeliverMore(AfterTurn(q, cc), body1, after, avail', icount - cc);
    var rest := Deliver(AfterTurn(q, cc), avail', icount - cc, true);
    PartJoin(rest.0, q[0][..cc], rest.2, body, body1, after, body');
  }

  /** `pkread` returns 0 exactly at the empty packet, which it consumes; before that it
      returns the next bytes of the file. */
  lemma DeliverStream(q: seq<seq<nat>>, body: seq<seq<nat>>, after: seq<seq<nat>>, avail: nat, icount: nat)
    returns (body': seq<seq<nat>>)
    requires Stream(q, body, after) && 0 < avail <= |q| && icount > 0
    ensures var r := Deliver(q, avail, icount, false);
      if body == [] then r.0 == after && r.2 == []
      else Part(r.0, r.2, body, after, body') && 0 < |r.2| <= icount
  {
    if body == [] {
      body' := [];
      assert q[0] == [] && q[1..] == after;
    } else {
      body' := DeliverStep(q, body, after, avail, icount, false);
    }
  }

  /** The bytes of the first packets up to an empty one. */
  function Lead(q: seq<seq<nat>>, avail: nat): nat
    requires avail <= |q|
    decreases avail
  {
    if avail == 0 || q[0] == [] then 0 else |q[0]| + Lead(q[1..], avail - 1)
  }

  /** It returns all that is wanted, or all that is there. */
  lemma {:induction false} DeliverAmount(q: seq<seq<nat>>, avail: nat, icount: nat, xfr: bool)
    requires avail <= |q|
    ensures |Deliver(q, avail, icount, xfr).2| == Min(icount, Lead(q, avail))
    decreases icount
  {
    if icount > 0 && avail > 0 && q[0] != [] {
      var cc := Min(|q[0]|, icount);
      DeliverTurn(q, avail, icount, xfr, cc);
      DeliverAmount(AfterTurn(q, cc), if |q[0]| == cc then avail - 1 else avail, icount - cc, true);
      assert cc < |q[0]| ==> AfterTurn(q, cc)[1..] == q[1..];
    }
  }

  // ---------- what is in front of the reader ----------

  /** The packets `q`, the first of them without the bytes already delivered. */
  function FrontOf(b: Pk, q: seq<seq<nat>>): seq<seq<nat>>
    requires b.Shaped()
  {
    var x := b.ins[Next(b.pr)];
    if x.Copy? && x.resid && q != [] && x.left <= |q[0]| then [q[0][|q[0]| - x.left..]] + q[1..] else q
  }

  function QueueOf(b: Pk, w: seq<Packet>, n: nat): seq<seq<nat>>
    requires b.Shaped() && n <= |w|
  {
    FrontOf(b, Chunks(w)[n..])
  }

  /** In the middle of a `pkread`, with n packets behind the receiver and `q` in front. */
  ghost predicate Facing(b: Pk, w: seq<Packet>, n: int, q: seq<seq<nat>>) {
    exists taken :: FacingAfter(b, w, n, q, taken)
  }

  ghost predicate FacingAfter(b: Pk, w: seq<Packet>, n: int, q: seq<seq<nat>>, taken: seq<nat>) {
    0 <= n <= |w| && b.Shaped() && QueueOf(b, w, n) == q && Reading(b, w, n, taken)
  }

  /** The first packet in front of the receiver. */
  lemma FirstPacket(b: Pk, w: seq<Packet>, n: nat)
    requires Receiver(b, w, n) && b.pending == 8 && b.rcount > 0
    ensures b.Shaped() && n < |w| && b.ins[Next(b.pr)].Copy? && b.ins[Next(b.pr)].left <= |w[n].chunk|
    ensures QueueOf(b, w, n) == [w[n].chunk[|w[n].chunk| - b.ins[Next(b.pr)].left..]] + Chunks(w)[n + 1..]
  {
    NothingToRead(b, w, n);
    assert CopyHolds(b.ins[Slot(n, 1)], w[n], b.rptr, true);
    var q := Chunks(w)[n..];
    assert q[0] == w[n].chunk && q[1..] == Chunks(w)[n + 1..] && w[n].chunk[0..] == w[n].chunk;
    assert q == [q[0]] + q[1..];
  }

  /** The queue is at least as long as the accepted packets, and its head is what is left
      of the first of them. */
  lemma FacingHead(b: Pk, w: seq<Packet>, n: int, q: seq<seq<nat>>)
    requires Facing(b, w, n, q)
    ensures b.Shaped() && 0 <= b.rcount <= |q| && (b.ins[Next(b.pr)].Copy? <==> b.rcount > 0)
    ensures b.rcount > 0 ==> |q[0]| == b.ins[Next(b.pr)].left
  {
    var taken :| FacingAfter(b, w, n, q, taken);
    NothingToRead(b, w, n);
    if b.rcount > 0 {
      FirstPacket(b, w, n);
    }
  }

  lemma FacingParts(b: Pk, w: seq<Packet>, n: int, q: seq<seq<nat>>) returns (taken: seq<nat>)
    requires Facing(b, w, n, q)
    ensures 0 <= n <= |w| && b.Shaped() && QueueOf(b, w, n) == q && Reading(b, w, n, taken) && Receiver(b, w, n)
      && b.pending == 8
    ensures n < |w| ==> Holds(w[n].short, w[n].buf, w[n].chunk, b.rsize)
  {
    taken :| FacingAfter(b, w, n, q, taken);
  }

  lemma DeliversParts(b: Pk, r: Pk, w: seq<Packet>, n: nat, taken: seq<nat>, m: nat)
    requires DeliversTo(b, r, w, n, taken, m)
    ensures Reading(r, w, m, taken) && Receiver(r, w, m) && m == n + b.rcount - r.rcount && m <= |w| && r.Shaped()
  {
  }

  lemma FacingFrom(b: Pk, w: seq<Packet>, n: nat, q: seq<seq<nat>>, taken: seq<nat>)
    requires n <= |w| && b.Shaped() && QueueOf(b, w, n) == q && Reading(b, w, n, taken)
    ensures Facing(b, w, n, q)
  {
    assert FacingAfter(b, w, n, q, taken);
  }

  /** One turn of the delivery loop takes the same bytes from both, and leaves the same. */
  lemma FacingTurn(b: Pk, w: seq<Packet>, n: int, q: seq<seq<nat>>, icount: nat, xfr: bool, cc: nat)
    requires Facing(b, w, n, q) && icount > 0 && 0 < b.rcount <= |q| && b.ins[Next(b.pr)].Copy?
    requires cc == (if b.ins[Next(b.pr)].left < icount then b.ins[Next(b.pr)].left else icount) && cc <= |q[0]|
      && !(cc == 0 && xfr)
    ensures q[0][..cc] == PartRead(b, cc)
    ensures Facing(OneRead(b, cc), w, n + b.rcount - OneRead(b, cc).rcount, AfterTurn(q, cc))
  {
    hide Facing, Reading, Receiver, QueueOf, OneRead, PartRead, ReadLoop, AfterTurn, Holds, DeliversTo, SameReader,
      Chunks;
    var taken := FacingParts(b, w, n, q);
    FirstPacket(b, w, n);
    var m, got := ReadTurn(b, w, n, taken, icount, xfr, cc);
    DeliversParts(b, OneRead(b, cc), w, n, taken + got, m);
    TurnBytes(b, w, n, cc);
    TurnQueue(b, w, n, cc, m);
    FacingFrom(OneRead(b, cc), w, m, AfterTurn(q, cc), taken + got);
  }

  lemma TurnBytes(b: Pk, w: seq<Packet>, n: nat, cc: nat)
    requires Receiver(b, w, n) && b.pending == 8 && b.rcount > 0 && b.ins[Next(b.pr)].Copy?
      && cc <= b.ins[Next(b.pr)].left
    requires Holds(w[n].short, w[n].buf, w[n].chunk, b.rsize)
    ensures |QueueOf(b, w, n)| > 0 && cc <= |QueueOf(b, w, n)[0]| && QueueOf(b, w, n)[0][..cc] == PartRead(b, cc)
  {
    hide Receiver, QueueOf, Chunks, Partial;
    NothingToRead(b, w, n);
    FirstPacket(b, w, n);
    var d, off := FirstSlot(b, w, n, cc);
    SliceOfRest(w[n].chunk, d, cc);
  }

  lemma SliceOfRest(s: seq<nat>, d: nat, cc: nat)
    requires d + cc <= |s|
    ensures s[d..][..cc] == s[d..d + cc]
  {
  }

  lemma TurnQueue(b: Pk, w: seq<Packet>, n: nat, cc: nat, m: nat)
    requires Receiver(b, w, n) && b.pending == 8 && b.rcount > 0 && b.ins[Next(b.pr)].Copy?
      && cc <= b.ins[Next(b.pr)].left
    requires m == (if cc == b.ins[Next(b.pr)].left then n + 1 else n) && Receiver(OneRead(b, cc), w, m)
    ensures |QueueOf(b, w, n)| > 0 && cc <= |QueueOf(b, w, n)[0]|
      && QueueOf(OneRead(b, cc), w, m) == AfterTurn(QueueOf(b, w, n), cc)
  {
    hide Receiver, OneRead, QueueOf, Chunks;
    FirstPacket(b, w, n);
    if cc < b.ins[Next(b.pr)].left { PartFields(b, cc); }
    var chunk, left, rest := w[n].chunk, b.ins[Next(b.pr)].left, Chunks(w)[n + 1..];
    var q := QueueOf(b, w, n);
    assert q[1..] == rest;
    if cc == left {
      TurnFinished(b, w, n);
    } else {
      FirstPacket(OneRead(b, cc), w, n);
      assert chunk[|chunk| - left..][cc..] == chunk[|chunk| - left + cc..];
    }
  }

  /** A packet read in part. */
  lemma PartFields(b: Pk, cc: nat)
    requires b.Shaped() && b.ins[Next(b.pr)].Copy? && cc < b.ins[Next(b.pr)].left
    ensures var r := OneRead(b, cc);
      r.pr == b.pr && r.pending == b.pending && r.rcount == b.rcount && r.ins[Next(b.pr)].Copy?
        && r.ins[Next(b.pr)].left == b.ins[Next(b.pr)].left - cc
  {
  }

  lemma TurnFinished(b: Pk, w: seq<Packet>, n: nat)
    requires Receiver(b, w, n) && b.pending == 8 && b.rcount > 0 && b.ins[Next(b.pr)].Copy?
    ensures QueueOf(OneRead(b, b.ins[Next(b.pr)].left), w, n + 1) == Chunks(w)[n + 1..]
  {
    NothingToRead(b, w, n);
    var r := OneRead(b, b.ins[Next(b.pr)].left);
    FinishFirst(b, w, n, r);
    NothingToRead(r, w, n + 1);
    if r.rcount > 0 {
      assert CopyHolds(r.ins[Slot(n + 1, 1)], w[n + 1], r.rptr, true);
    }
  }

  /** `ReadLoop` and `Deliver` take the same bytes and leave the same packets. */
  ghost predicate Agrees(b: Pk, w: seq<Packet>, n: int, q: seq<seq<nat>>, icount: nat, xfr: bool) {
    b.Shaped() && 0 <= b.rcount <= |q|
    && var r, d := ReadLoop(b, icount, xfr), Deliver(q, b.rcount, icount, xfr);
       r.1 == d.2 && r.0.rcount == d.1 && Facing(r.0, w, n + b.rcount - r.0.rcount, d.0)
  }

  lemma AgreesStop(b: Pk, w: seq<Packet>, n: int, q: seq<seq<nat>>, icount: nat, xfr: bool)
    requires Facing(b, w, n, q) && b.Shaped() && 0 <= b.rcount <= |q| && (b.ins[Next(b.pr)].Copy? <==> b.rcount > 0)
    requires b.rcount > 0 ==> |q[0]| == b.ins[Next(b.pr)].left
    requires b.rcount == 0 || icount == 0 || (xfr && b.ins[Next(b.pr)].left == 0)
    ensures Agrees(b, w, n, q, icount, xfr)
  {
    hide Facing;
  }

  /** An empty packet in front is consumed. */
  lemma AgreesEmpty(b: Pk, w: seq<Packet>, n: int, q: seq<seq<nat>>, icount: nat, b1: Pk)
    requires b.Shaped() && icount > 0 && 0 < b.rcount <= |q| && b.ins[Next(b.pr)].Copy?
      && |q[0]| == b.ins[Next(b.pr)].left == 0
    requires b1 == OneRead(b, 0) && Facing(b1, w, n + b.rcount - b1.rcount, AfterTurn(q, 0))
    ensures Agrees(b, w, n, q, icount, false)
  {
    hide Facing;
  }

  lemma AgreesTurn(
      b: Pk, w: seq<Packet>, n: int, q: seq<seq<nat>>, icount: nat, xfr: bool, cc: nat, b1: Pk, q1: seq<seq<nat>>,
      m: int)
    requires b.Shaped() && icount > 0 && 0 < b.rcount <= |q| && b.ins[Next(b.pr)].Copy?
      && |q[0]| == b.ins[Next(b.pr)].left
    requires cc == (if b.ins[Next(b.pr)].left < icount then b.ins[Next(b.pr)].left else icount) && cc > 0
    requires q[0][..cc] == PartRead(b, cc) && b1 == OneRead(b, cc) && q1 == AfterTurn(q, cc)
      && m == n + b.rcount - b1.rcount
    requires Agrees(b1, w, m, q1, icount - cc, true)
    ensures Agrees(b, w, n, q, icount, xfr)
  {
    hide Facing;
    DeliverTurn(q, b.rcount, icount, xfr, cc);
  }

  /** For every state of the receiver, `pkread` delivers what `Deliver` says, and leaves it. */
  lemma {:induction false} ReadIsDeliver(b: Pk, w: seq<Packet>, n: int, q: seq<seq<nat>>, icount: nat, xfr: bool)
    requires Facing(b, w, n, q)
    ensures Agrees(b, w, n, q, icount, xfr)
    decreases icount
  {
    hide Facing, Agrees, OneRead;
    FacingHead(b, w, n, q);
    var left := if b.rcount > 0 then b.ins[Next(b.pr)].left else 0;
    if b.rcount == 0 || icount == 0 || (xfr && left == 0) {
      AgreesStop(b, w, n, q, icount, xfr);
    } else if left == 0 {
      FacingTurn(b, w, n, q, icount, xfr, 0);
      AgreesEmpty(b, w, n, q, icount, OneRead(b, 0));
    } else {
      var cc := if left < icount then left else icount;
      FacingTurn(b, w, n, q, icount, xfr, cc);
      var b1, q1 := OneRead(b, cc), AfterTurn(q, cc);
      var m := n + b.rcount - b1.rcount;
      ReadIsDeliver(b1, w, m, q1, icount - cc, true);
      AgreesTurn(b, w, n, q, icount, xfr, cc, b1, q1, m);
    }
  }

  // ---------- in a run ----------

  /** The packets in front of the reading end. */
  function Queue(s: Sys): seq<seq<nat>>
    requires s.b.Shaped()
  {
    if 0 <= s.finished <= |s.chunks| then FrontOf(s.b, s.chunks[s.finished..]) else []
  }

  lemma QueueFacing(s: Sys, h: Hist)
    requires Good(s, h) && s.b.pending == 8
    ensures Queue(s) == QueueOf(s.b, h.w, h.prn) && Facing(s.b, h.w, h.prn, Queue(s))
  {
    GoodReading(s, h);
    assert FacingAfter(s.b, h.w, h.prn, Queue(s), s.taken);
  }

  /** The delivery loop, in a state of a run. */
  ghost predicate Taken(s: Sys, icount: nat, r: Pk, got: seq<nat>)
    requires s.b.Shaped()
  {
    && 0 < s.b.rcount <= |Queue(s)|
    && var d, n := Deliver(Queue(s), s.b.rcount, icount, false), s.finished + s.b.rcount - r.rcount;
       got == d.2 && r.rcount == d.1 && r.Shaped() && 0 <= n <= |s.chunks| && FrontOf(r, s.chunks[n..]) == d.0
  }

  lemma GoodTaken(s: Sys, h: Hist, icount: nat)
    requires Good(s, h) && s.b.Shaped() && s.b.pending == 8 && s.b.rcount > 0
    ensures Taken(s, icount, ReadLoop(s.b, icount, false).0, ReadLoop(s.b, icount, false).1)
  {
    hide Good, Facing, FrontOf, Queue, ReadLoop, Deliver;
    QueueFacing(s, h);
    FacingHead(s.b, h.w, h.prn, Queue(s));
    ReadIsDeliver(s.b, h.w, h.prn, Queue(s), icount, false);
    QueueAfter(s, h, ReadLoop(s.b, icount, false).0, Deliver(Queue(s), s.b.rcount, icount, false).0);
  }

  lemma OkTaken(s: Sys, icount: nat)
    requires Ok(s) && s.b.Shaped() && s.b.pending == 8 && s.b.rcount > 0
    ensures Taken(s, icount, ReadLoop(s.b, icount, false).0, ReadLoop(s.b, icount, false).1)
  {
    hide Good, Taken, ReadLoop;
    var h :| Good(s, h);
    GoodTaken(s, h, icount);
  }

  /** In every state of a run, a `pkread` delivers from the queue. */
  lemma ReadFromQueue(s: Sys, icount: nat)
    requires Ok(s) && Wf(s) && Enabled(s, ReadB(icount))
    ensures 0 < s.b.rcount <= |Queue(s)|
    ensures var s', d := DoRead(s, icount), Deliver(Queue(s), s.b.rcount, icount, false);
      s'.taken == s.taken + d.2 && s'.b.Shaped() && Queue(s') == d.0 && s'.b.rcount == d.1 && s'.a == s.a
  {
    hide Ok, FrontOf, ReadLoop, Deliver, Output, Queue;
    OkTaken(s, icount);
    QueueIs(DoRead(s, icount), ReadLoop(s.b, icount, false).0);
  }

  /** It delivers all that is wanted, or all that is accepted up to an empty packet. */
  lemma ReadsAllThere(s: Sys, icount: nat)
    requires Ok(s) && Wf(s) && Enabled(s, ReadB(icount))
    ensures s.b.rcount <= |Queue(s)|
    ensures |Do(s, ReadB(icount)).taken| == |s.taken| + Min(icount, Lead(Queue(s), s.b.rcount))
  {
    hide Ok, Queue, Deliver, Lead;
    ReadFromQueue(s, icount);
    DeliverAmount(Queue(s), s.b.rcount, icount, false);
  }

  /** The queue behind the `pkoutput` that ends a `pkread`. */
  lemma QueueIs(s': Sys, b: Pk)
    requires b.Shaped() && s'.b == Output(b).0 && 0 <= s'.finished <= |s'.chunks|
    ensures s'.b.Shaped() && s'.b.rcount == b.rcount && Queue(s') == FrontOf(b, s'.chunks[s'.finished..])
  {
    OutputFront(b, s'.chunks[s'.finished..]);
  }

  lemma QueueAfter(s: Sys, h: Hist, b': Pk, q: seq<seq<nat>>)
    requires Good(s, h) && Facing(b', h.w, h.prn + s.b.rcount - b'.rcount, q)
    ensures var n := s.finished + s.b.rcount - b'.rcount;
      0 <= n <= |s.chunks| && b'.Shaped() && FrontOf(b', s.chunks[n..]) == q && forall x :: 0 <= x < 8 ==>
        b'.os[x].Empty?
  {
    hide Flat, Chunks, Sender, ForwardLink, PendingFrame, BackwardLink, Holds, CopyHolds, Partial;
    var taken :| FacingAfter(b', h.w, h.prn + s.b.rcount - b'.rcount, q, taken);
  }

  /** `pkoutput` does not touch what has been received. */
  lemma OutputFront(b: Pk, q: seq<seq<nat>>)
    requires b.Shaped()
    ensures var o := Output(b).0;
      o.Shaped() && o.ins == b.ins && o.pr == b.pr && o.rcount == b.rcount && o.xsize == b.xsize
      && FrontOf(o, q) == FrontOf(b, q)
  {
  }

  // ---------- the other events leave the queue alone ----------

  lemma {:induction false} SackFront(b: Pk, x: nat, q: seq<seq<nat>>)
    requires b.Shaped() && x < 8
    ensures var r := SackFrom(b, x);
      r.ins == b.ins && r.pr == b.pr && r.rcount == b.rcount && r.pool == b.pool && r.xsize == b.xsize
      && FrontOf(r, q) == FrontOf(b, q)
    decreases Ahead(x, b.rpr)
  {
    if x != b.rpr {
      var y := Next(x);
      var p' := if b.os[y].Full? && b.os[y].sent then b.(os := b.os[y := Empty], xcount := b.xcount - 1, ps := y)
        else b;
      SackFront(p', y, q);
    }
  }

  lemma NotFront(pr: nat, k: nat)
    requires pr < 8 && 2 <= k <= 8
    ensures (pr + k) % 8 != Next(pr)
  {
  }

  /** The slot of the next packet keeps a packet being read, and gets none. */
  lemma {:induction false} SettleFront(b: Pk, k: nat, gap: bool, count: nat)
    requires b.Shaped() && 1 <= k && (k == 1 ==> !gap)
    ensures var r := Settle(b, k, gap, count); r.pr == b.pr && r.ins[Next(b.pr)] == b.ins[Next(b.pr)]
    decreases if k <= b.rwindow then b.rwindow - k + 1 else 0
  {
    if k <= b.rwindow {
      var x := (b.pr + k) % 8;
      if b.ins[x].Copy? {
        if gap {
          NotFront(b.pr, k);
          SettleFront(b.(ins := b.ins[x := Free], pool := b.pool + 1, msgRR := true), k + 1, gap, count);
        } else {
          SettleFront(b, k + 1, gap, count + 1);
        }
      } else {
        SettleFront(b, k + 1, true, count);
      }
    }
  }

  lemma ExamineFront(b: Pk, x: nat)
    requires b.Shaped() && x < 8 && b.ins[x].Raw? && b.ins[x].num < 8
    ensures var r, y := Examine(b, x), Next(b.pr);
      r.pr == b.pr && (b.ins[y].Copy? ==> r.ins[y] == b.ins[y])
        && (!b.ins[y].Copy? && r.ins[y].Copy? ==> !r.ins[y].resid)
  {
  }

  lemma AcceptFront(b: Pk, q: seq<seq<nat>>)
    requires b.Shaped() && (b.pending < 8 ==> b.ins[b.pending].Raw? && b.ins[b.pending].num < 8)
    ensures FrontOf(Accept(b), q) == FrontOf(b, q)
  {
    hide Settle, Examine;
    var b1 := b.(pending := 8);
    if b.pending == 8 {
      SettleFront(b1, 1, false, 0);
    } else {
      ExamineFront(b1, b.pending);
      SettleFront(Examine(b1, b.pending), 1, false, 0);
    }
  }

  lemma ReceiveFront(b: Pk, f: Frame, q: seq<seq<nat>>)
    requires b.Shaped() && f.Data? && f.num < 8 && f.ack < 8 && b.pending == 8
    ensures FrontOf(ReceiveData(b, f), q) == FrontOf(b, q)
  {
    SackFront(b.(rpr := f.ack), b.ps, q);
  }

  lemma LoseBodyFront(b: Pk, f: Frame, q: seq<seq<nat>>)
    requires b.Shaped() && f.Data? && f.num < 8 && f.ack < 8
    ensures FrontOf(LoseBody(b, f).0, q) == FrontOf(b, q)
  {
    SackFront(b.(rpr := f.ack), b.ps, q);
    var p := Sack(b.(rpr := f.ack));
    if p.pool > 0 {
      TimeoutFront(p.(pool := p.pool - 1), q);
    }
  }

  lemma TimeoutFront(b: Pk, q: seq<seq<nat>>)
    requires b.Shaped()
    ensures FrontOf(Timeout(b).0, q) == FrontOf(b, q) && Timeout(b).0.xsize == b.xsize
  {
    OutputFront(b.(msgRR := b.msgRR || !b.msgRJ, rxmit := true), q);
  }

  lemma ControlFront(b: Pk, f: Frame, q: seq<seq<nat>>)
    requires b.Shaped() && f.Ctl? && f.ack < 8
    ensures FrontOf(ReceiveControl(b, f).0, q) == FrontOf(b, q) && ReceiveControl(b, f).0.xsize == b.xsize
  {
    hide SackFrom, Output;
    var p := if f.kind == RJ then b.(rxmit := true, msgRR := true) else b;
    SackFront(p.(rpr := f.ack), p.ps, q);
    OutputFront(Sack(p.(rpr := f.ack)), q);
  }

  /** Whatever happens to the reading end between two `pkread`s. */
  lemma EventFront(s: Sys, e: Event, q: seq<seq<nat>>)
    requires Wf(s) && Enabled(s, e) && !e.ReadB?
    ensures Do(s, e).b.Shaped() && FrontOf(Do(s, e).b, q) == FrontOf(s.b, q)
    ensures Do(s, e).finished == s.finished && Do(s, e).taken == s.taken
    ensures Do(s, e).chunks == if e.Write? then s.chunks + [e.chunk] else s.chunks
    ensures Do(s, e).a.xsize == s.a.xsize
  {
    hide FrontOf, Output, Timeout, ReceiveData, ReceiveControl, LoseBody, Accept;
    match e
    case RecvB =>
      var f := s.ab[0];
      assert f in s.ab;
      if f.Data? { ReceiveFront(s.b, f, q); } else if f.Ctl? { ControlFront(s.b, f, q); }
    case LoseBodyB =>
      assert s.ab[0] in s.ab;
      LoseBodyFront(s.b, s.ab[0], q);
    case TimeoutB => TimeoutFront(s.b, q);
    case AcceptB => AcceptFront(s.b, q);
    case Write(chunk, junk) => OutputFront(Put(s.a, chunk, junk), q);
    case SendA => OutputFront(s.a, q);
    case TimeoutA => TimeoutFront(s.a, q);
    case RecvA =>
      assert s.ba[0] in s.ba;
      if s.ba[0].Ctl? { ControlFront(s.a, s.ba[0], q); }
    case _ =>
  }

  lemma AcceptLeavesNone(s: Sys)
    requires Wf(s)
    ensures Do(s, AcceptB).b.pending == 8
  {
    SettlePending(if s.b.pending == 8 then s.b else Examine(s.b.(pending := 8), s.b.pending), 1, false, 0);
  }

  lemma SettlePending(b: Pk, k: nat, gap: bool, count: nat)
    requires b.Shaped() && 1 <= k
    ensures Settle(b, k, gap, count).pending == b.pending
    decreases if k <= b.rwindow then b.rwindow - k + 1 else 0
  {
    if k <= b.rwindow {
      var x := (b.pr + k) % 8;
      if b.ins[x].Copy? && gap {
        SettlePending(b.(ins := b.ins[x := Free], pool := b.pool + 1, msgRR := true), k + 1, gap, count);
      } else {
        SettlePending(b, k + 1, gap || !b.ins[x].Copy?, if b.ins[x].Copy? then count + 1 else count);
      }
    }
  }

  /** Only a `pkread` takes packets from the queue, and only `pkwrite` adds one. */
  lemma OtherQueue(s: Sys, e: Event)
    requires Ok(s) && Wf(s) && Enabled(s, e) && !e.ReadB?
    ensures var s' := Do(s, e);
      s'.b.Shaped() && s'.taken == s.taken && s'.a.xsize == s.a.xsize
        && Queue(s') == Queue(s) + (if e.Write? then [e.chunk] else [])
  {
    hide Ok, Do, FrontOf, Queue, Enabled;
    OkBounds(s);
    var more := if e.Write? then [e.chunk] else [];
    EventFront(s, e, s.chunks[s.finished..] + more);
    assert s.chunks == s.chunks + [];
    QueueGrows(s, Do(s, e), more);
  }

  /** What `FrontOf` needs to know of a state of a run. */
  predicate Bounded(s: Sys)
    requires s.b.Shaped()
  {
    && 0 <= s.finished <= |s.chunks|
    && var x := s.b.ins[Next(s.b.pr)];
      x.Copy? && x.resid ==> s.finished < |s.chunks| && x.left <= |s.chunks[s.finished]|
  }

  lemma OkBounds(s: Sys)
    requires Ok(s) && s.b.Shaped()
    ensures Bounded(s)
  {
    var h :| Good(s, h);
    QueueBounds(s, h);
  }

  lemma QueueGrows(s: Sys, s': Sys, more: seq<seq<nat>>)
    requires s.b.Shaped() && s'.b.Shaped() && Bounded(s) && |more| <= 1
    requires s'.finished == s.finished && s'.chunks == s.chunks + more
    requires FrontOf(s'.b, s.chunks[s.finished..] + more) == FrontOf(s.b, s.chunks[s.finished..] + more)
    ensures Queue(s') == Queue(s) + more
  {
    hide FrontOf;
    assert s'.chunks[s.finished..] == s.chunks[s.finished..] + more;
    FrontGrows(s.b, s.chunks[s.finished..], more);
  }

  lemma QueueBounds(s: Sys, h: Hist)
    requires Good(s, h)
    ensures 0 <= s.finished <= |s.chunks|
    ensures s.b.ins[Next(s.b.pr)].Copy? && s.b.ins[Next(s.b.pr)].resid ==>
      s.finished < |s.chunks| && s.b.ins[Next(s.b.pr)].left <= |s.chunks[s.finished]|
  {
    NextSlot(h.prn);
    assert s.b.rcount > 0 ==> CopyHolds(s.b.ins[Slot(h.prn, 1)], h.w[h.prn], s.b.rptr, true);
  }

  lemma FrontGrows(b: Pk, q: seq<seq<nat>>, more: seq<seq<nat>>)
    requires b.Shaped() && (b.ins[Next(b.pr)].Copy? && b.ins[Next(b.pr)].resid ==> q != [])
    ensures FrontOf(b, q + more) == FrontOf(b, q) + more
  {
    if q != [] {
      assert (q + more)[0] == q[0] && (q + more)[1..] == q[1..] + more;
      var left := if b.ins[Next(b.pr)].Copy? && b.ins[Next(b.pr)].left <= |q[0]| then b.ins[Next(b.pr)].left else 0;
      assert [q[0][|q[0]| - left..]] + (q[1..] + more) == [q[0][|q[0]| - left..]] + q[1..] + more;
    }
  }

  // ---------- the line as `pkread` sees it ----------

  /** What can happen while the reader waits: an event of the line, or the next packet of the
      writer if there is room for it. */
  datatype Tick = Wire(e: Event) | Push(junk: seq<nat>)

  /** The end of a `pkread`: some bytes, or the line is dead. */
  datatype Got = Bytes(b: seq<nat>) | Dead
  datatype Copied = File(b: seq<nat>) | Failed

  /** The two ends, the packets that the writer has not handed to `pkwrite` yet, and what will
      happen during each `pkread`. */
  datatype Line = Line(s: Sys, outgoing: seq<seq<nat>>, script: seq<seq<Tick>>)

  ghost predicate Live(x: Line) {
    Ok(x.s) && Wf(x.s) && forall i :: 0 <= i < |x.outgoing| ==> |x.outgoing[i]| <= x.s.a.xsize
  }

  /** Everything that the reader has still to get. */
  ghost function Front(x: Line): seq<seq<nat>>
    requires Live(x)
  {
    Queue(x.s) + x.outgoing
  }

  /** An event other than a `pkread`. */
  ghost function Stepped(x: Line, e: Event): (y: Line)
    requires Live(x) && Enabled(x.s, e) && !e.Write? && !e.ReadB?
    ensures Live(y)
  {
    SteppedLive(x, e);
    x.(s := Do(x.s, e))
  }

  lemma SteppedLive(x: Line, e: Event)
    requires Live(x) && Enabled(x.s, e) && !e.Write? && !e.ReadB?
    ensures var y := x.(s := Do(x.s, e)); Live(y) && Front(y) == Front(x) && y.s.taken == x.s.taken
  {
    hide Ok, Do, Queue;
    StepKeeps(x.s, e);
    OtherQueue(x.s, e);
    OkWf(Do(x.s, e));
    assert Queue(x.s) + [] == Queue(x.s);
  }

  ghost predicate CanPush(x: Line, junk: seq<nat>)
    requires Live(x)
  {
    x.outgoing != [] && |junk| == x.s.a.xsize && CanPut(x.s.a)
  }

  /** The writer hands its next packet to `pkwrite`. */
  ghost function Pushed(x: Line, junk: seq<nat>): (y: Line)
    requires Live(x) && CanPush(x, junk)
    ensures Live(y)
  {
    PushedLive(x, junk);
    x.(s := Do(x.s, Write(x.outgoing[0], junk)), outgoing := x.outgoing[1..])
  }

  lemma PushedLive(x: Line, junk: seq<nat>)
    requires Live(x) && CanPush(x, junk)
    ensures Enabled(x.s, Write(x.outgoing[0], junk))
    ensures var y := x.(s := Do(x.s, Write(x.outgoing[0], junk)), outgoing := x.outgoing[1..]);
      Live(y) && Front(y) == Front(x) && y.s.taken == x.s.taken
  {
    hide Ok, Do, Queue;
    var e := Write(x.outgoing[0], junk);
    StepKeeps(x.s, e);
    OtherQueue(x.s, e);
    OkWf(Do(x.s, e));
    assert Queue(x.s) + [x.outgoing[0]] + x.outgoing[1..] == Queue(x.s) + x.outgoing;
  }

  /** One entry of a script; what is not possible at the moment does not happen. */
  ghost function Happened(x: Line, t: Tick): (y: Line)
    requires Live(x)
    ensures Live(y)
  {
    match t
    case Push(junk) => if CanPush(x, junk) then Pushed(x, junk) else x
    case Wire(e) => if !e.Write? && !e.ReadB? && Enabled(x.s, e) then Stepped(x, e) else x
  }

  /** The line when `pkaccept` has looked at what came while the reader waited. */
  ghost function Waited(x: Line, ticks: seq<Tick>): (y: Line)
    requires Live(x)
    ensures Live(y)
    decreases |ticks|
  {
    if ticks == [] then Stepped(x, AcceptB) else Waited(Happened(x, ticks[0]), ticks[1..])
  }

  /** Waiting takes nothing from what is in front of the reader. */
  lemma {:induction false} WaitedKeeps(x: Line, ticks: seq<Tick>)
    requires Live(x)
    ensures var y := Waited(x, ticks);
      y.script == x.script && Front(y) == Front(x) && y.s.taken == x.s.taken && y.s.b.pending == 8
    decreases |ticks|
  {
    hide Do, Front;
    if ticks == [] {
      AcceptLeavesNone(x.s);
      SteppedLive(x, AcceptB);
    } else {
      HappenedKeeps(x, ticks[0]);
      WaitedKeeps(Happened(x, ticks[0]), ticks[1..]);
    }
  }

  lemma HappenedKeeps(x: Line, t: Tick)
    requires Live(x)
    ensures var y := Happened(x, t); y.script == x.script && Front(y) == Front(x) && y.s.taken == x.s.taken
  {
    hide Do, Front;
    match t
    case Push(junk) => if CanPush(x, junk) { PushedLive(x, junk); }
    case Wire(e) => if !e.Write? && !e.ReadB? && Enabled(x.s, e) { SteppedLive(x, e); }
  }

  /** The line at the delivery of the next `pkread`. */
  ghost function Ready(x: Line): (y: Line)
    requires Live(x)
    ensures Live(y)
  {
    if x.script == [] then Waited(x, []) else Waited(x.(script := x.script[1..]), x.script[0])
  }

  lemma ReadyKeeps(x: Line)
    requires Live(x)
    ensures var y := Ready(x); Front(y) == Front(x) && y.s.taken == x.s.taken && y.s.b.pending == 8
  {
    hide Ok, Wf, Waited;
    if x.script == [] { WaitedKeeps(x, []); } else { WaitedKeeps(x.(script := x.script[1..]), x.script[0]); }
  }

  /** The delivery that ends a `pkread`. */
  ghost function Delivered(x: Line, icount: nat): (r: (Line, Got))
    requires Live(x) && x.s.b.pending == 8 && x.s.b.rcount > 0
    ensures Live(r.0) && r.1.Bytes?
  {
    DeliveredLive(x, icount);
    var s' := DoRead(x.s, icount);
    (x.(s := s'), Bytes(s'.taken[|x.s.taken|..]))
  }

  lemma DeliveredLive(x: Line, icount: nat)
    requires Live(x) && x.s.b.pending == 8 && x.s.b.rcount > 0
    ensures var s', n, q := DoRead(x.s, icount), x.s.b.rcount, Front(x);
      Live(x.(s := s')) && n <= |q| && |x.s.taken| <= |s'.taken|
      && var d := Deliver(q, n, icount, false);
      Front(x.(s := s')) == d.0 && s'.taken == x.s.taken + d.2 && s'.taken[|x.s.taken|..] == d.2
  {
    hide Ok, DoRead, Queue, Deliver;
    assert Enabled(x.s, ReadB(icount));
    ReadFromQueue(x.s, icount);
    DeliverPrefix(Queue(x.s), x.outgoing, x.s.b.rcount, icount, false);
    ReadBKeeps(x.s, icount);
    OkWf(DoRead(x.s, icount));
  }

  /** `pkread`: dead if nothing has been accepted, else the delivery. */
  ghost function Read(x: Line, icount: nat): (r: (Line, Got))
    requires Live(x)
    ensures Live(r.0)
  {
    ReadyKeeps(x);
    if Ready(x).s.b.rcount <= 0 then (Ready(x), Dead) else Delivered(Ready(x), icount)
  }

  /** The blocks or bytes read before, and what the rest of the loop comes to. */
  function Joined(b: seq<nat>, r: (Line, Got)): (Line, Got) {
    (r.0, if r.1.Dead? then Dead else Bytes(b + r.1.b))
  }

  function Appended(b: seq<nat>, r: (Line, Copied)): (Line, Copied) {
    (r.0, if r.1.Failed? then Failed else File(b + r.1.b))
  }

  /** `grdblk`: `pkread`s until `len` bytes are there, or until one returns 0. */
  ghost function Block(x: Line, len: nat): (r: (Line, Got))
    requires Live(x) && len > 0
    ensures Live(r.0)
    decreases len
  {
    var r := Read(x, len);
    if r.1.Dead? || r.1.b == [] || len <= |r.1.b| then r
    else
      var rest := Block(r.0, len - |r.1.b|);
      Joined(r.1.b, rest)
  }

  /** `grddata`: blocks until one is not full. */
  ghost function Whole(x: Line, bufsiz: nat): (r: (Line, Copied))
    requires Live(x) && bufsiz > 0
    ensures Live(r.0)
    decreases |Cat(Front(x))|
  {
    var r := Block(x, bufsiz);
    BlockConserves(x, bufsiz);
    if r.1.Dead? then (r.0, Failed)
    else if |r.1.b| < bufsiz then (r.0, File(r.1.b))
    else
      var rest := Whole(r.0, bufsiz);
      Appended(r.1.b, rest)
  }

  // ---------- what they deliver ----------

  lemma AfterTurnMore(q: seq<seq<nat>>, o: seq<seq<nat>>, cc: nat)
    requires q != [] && cc <= |q[0]|
    ensures (q + o)[0] == q[0] && AfterTurn(q + o, cc) == AfterTurn(q, cc) + o
  {
    assert (q + o)[1..] == q[1..] + o;
    assert [q[0][cc..]] + (q[1..] + o) == [q[0][cc..]] + q[1..] + o;
  }

  lemma {:induction false} DeliverPrefix(q: seq<seq<nat>>, o: seq<seq<nat>>, avail: nat, icount: nat, xfr: bool)
    requires avail <= |q|
    ensures var d := Deliver(q, avail, icount, xfr);
      Deliver(q + o, avail, icount, xfr) == (d.0 + o, d.1, d.2)
    decreases icount
  {
    if icount > 0 && avail > 0 {
      var cc := if |q[0]| < icount then |q[0]| else icount;
      AfterTurnMore(q, o, cc);
      if cc > 0 {
        var avail' := if |q[0]| == cc then avail - 1 else avail;
        DeliverTurn(q, avail, icount, xfr, cc);
        DeliverTurn(q + o, avail, icount, xfr, cc);
        hide Deliver, AfterTurn;
        DeliverPrefix(AfterTurn(q, cc), o, avail', icount - cc, true);
      }
    }
  }

  lemma {:induction false} DeliverConserves(q: seq<seq<nat>>, avail: nat, icount: nat, xfr: bool)
    requires avail <= |q|
    ensures var d := Deliver(q, avail, icount, xfr); Cat(q) == d.2 + Cat(d.0) && |d.2| <= icount
    decreases icount
  {
    if icount > 0 && avail > 0 {
      var cc := if |q[0]| < icount then |q[0]| else icount;
      if !(cc == 0 && xfr) {
        var q' := AfterTurn(q, cc);
        TurnConserves(q, cc);
        if cc > 0 {
          DeliverTurn(q, avail, icount, xfr, cc);
          var avail' := if |q[0]| == cc then avail - 1 else avail;
          DeliverConserves(q', avail', icount - cc, true);
          Regroup(q[0][..cc], Deliver(q', avail', icount - cc, true).2, Cat(Deliver(q', avail', icount - cc, true).0));
        }
      }
    }
  }

  lemma TurnConserves(q: seq<seq<nat>>, cc: nat)
    requires q != [] && cc <= |q[0]|
    ensures Cat(q) == q[0][..cc] + Cat(AfterTurn(q, cc))
  {
    if cc < |q[0]| {
      assert AfterTurn(q, cc)[1..] == q[1..];
      assert q[0][..cc] + (q[0][cc..] + Cat(q[1..])) == q[0] + Cat(q[1..]);
    } else {
      assert q[0][..cc] == q[0];
    }
  }

  /** A `pkread` that is not dead delivers from everything that is in front of the reader. */
  lemma ReadDelivers(x: Line, icount: nat)
    requires Live(x) && Read(x, icount).1.Bytes?
    ensures var r, n, q := Read(x, icount), Ready(x).s.b.rcount, Front(x);
      && 0 < n <= |q|
      && Front(r.0) == Deliver(q, n, icount, false).0 && r.1.b == Deliver(q, n, icount, false).2
      && r.0.s.taken == x.s.taken + r.1.b
  {
    hide Live, Ready, DoRead, Front, Deliver;
    ReadyKeeps(x);
    DeliveredLive(Ready(x), icount);
  }

  /** No byte is lost or made up, whatever the packets in front of the reader are. */
  lemma ReadConserves(x: Line, icount: nat)
    requires Live(x)
    ensures var r := Read(x, icount);
      if r.1.Dead? then Front(r.0) == Front(x) && r.0.s.taken == x.s.taken
      else Cat(Front(x)) == r.1.b + Cat(Front(r.0)) && |r.1.b| <= icount && r.0.s.taken == x.s.taken + r.1.b
  {
    hide Live, Ready, Delivered, Front, Deliver, Cat;
    ReadyKeeps(x);
    if Read(x, icount).1.Bytes? {
      ReadDelivers(x, icount);
      DeliverConserves(Front(x), Ready(x).s.b.rcount, icount, false);
    }
  }

  lemma {:induction false} BlockConserves(x: Line, len: nat)
    requires Live(x) && len > 0
    ensures var r := Block(x, len);
      r.1.Bytes? ==>
        Cat(Front(x)) == r.1.b + Cat(Front(r.0)) && |r.1.b| <= len && r.0.s.taken == x.s.taken + r.1.b
    decreases len
  {
    hide Live, Read, Queue, Cat, Front;
    ReadConserves(x, len);
    var r := Read(x, len);
    if r.1.Bytes? && 0 < |r.1.b| < len {
      BlockConserves(r.0, len - |r.1.b|);
      var rest := Block(r.0, len - |r.1.b|);
      if rest.1.Bytes? {
        Regroup(r.1.b, rest.1.b, Cat(Front(rest.0)));
        Regroup(x.s.taken, r.1.b, rest.1.b);
      }
    }
  }

  /** In front of a file, a `pkread` that is not dead returns its next bytes, or 0 behind its
      last byte. */
  lemma ReadStream(x: Line, icount: nat, body: seq<seq<nat>>, after: seq<seq<nat>>) returns (body': seq<seq<nat>>)
    requires Live(x) && icount > 0 && Stream(Front(x), body, after)
    ensures var r := Read(x, icount);
      r.1.Bytes? ==>
        if body == [] then r.1.b == [] && Front(r.0) == after && body' == []
        else 0 < |r.1.b| <= icount && Part(Front(r.0), r.1.b, body, after, body')
  {
    hide Live, Read, Ready, Deliver, Stream, Part, Front;
    body' := [];
    if Read(x, icount).1.Bytes? {
      ReadDelivers(x, icount);
      var n := Ready(x).s.b.rcount;
      body' := DeliverStream(Front(x), body, after, n, icount);
      if body == [] { body' := []; }
    }
  }

  /** `grdblk` returns a full block, or what is left of the file. */
  lemma {:induction false} BlockStream(x: Line, len: nat, body: seq<seq<nat>>, after: seq<seq<nat>>)
    returns (body': seq<seq<nat>>)
    requires Live(x) && len > 0 && Stream(Front(x), body, after)
    ensures var r := Block(x, len);
      r.1.Bytes? ==>
        if |r.1.b| < len then r.1.b == Cat(body) && Front(r.0) == after
        else |r.1.b| == len && Part(Front(r.0), r.1.b, body, after, body')
    decreases len
  {
    hide Live, Read, Front, Cat;
    var r := Read(x, len);
    body' := ReadStream(x, len, body, after);
    if r.1.Bytes? {
      if r.1.b == [] {
        EmptyCat([]);
      } else if |r.1.b| < len {
        var body1 := body';
        body' := BlockStream(r.0, len - |r.1.b|, body1, after);
        var rest := Block(r.0, len - |r.1.b|);
        if rest.1.Bytes? && |rest.1.b| == len - |r.1.b| {
          PartJoin(Front(rest.0), r.1.b, rest.1.b, body, body1, after, body');
        }
      }
    }
  }

  lemma {:induction false} WholeTaken(x: Line, bufsiz: nat)
    requires Live(x) && bufsiz > 0
    ensures var r := Whole(x, bufsiz); r.1.File? ==> r.0.s.taken == x.s.taken + r.1.b
    decreases |Cat(Front(x))|
  {
    hide Live, Block, Front, Cat;
    var r := Block(x, bufsiz);
    BlockConserves(x, bufsiz);
    if r.1.Bytes? && |r.1.b| == bufsiz {
      WholeTaken(r.0, bufsiz);
      var rest := Whole(r.0, bufsiz);
      if rest.1.File? { Regroup(x.s.taken, r.1.b, rest.1.b); }
    }
  }

  /** `grddata` returns the file, and the reader then stands behind its empty packet. */
  lemma {:induction false} WholeStream(x: Line, bufsiz: nat, body: seq<seq<nat>>, after: seq<seq<nat>>)
    requires Live(x) && bufsiz > 0 && Stream(Front(x), body, after)
    ensures var r := Whole(x, bufsiz); r.1.File? ==> r.1.b == Cat(body) && Front(r.0) == after
    decreases |Cat(Front(x))|
  {
    hide Live, Block, Front, Cat;
    var r := Block(x, bufsiz);
    BlockConserves(x, bufsiz);
    var body' := BlockStream(x, bufsiz, body, after);
    if r.1.Bytes? && |r.1.b| == bufsiz {
      WholeStream(r.0, bufsiz, body', after);
    }
  }

  /** What one `pkread` takes of a file. */
  ghost predicate NextBytes(
      q: seq<seq<nat>>, got: seq<nat>, q': seq<seq<nat>>, body: seq<seq<nat>>, after: seq<seq<nat>>)
  {
    if body == [] then got == [] && q' == after
    else got != [] && exists body' :: Part(q', got, body, after, body')
  }

  /** What one `grdblk` of `len` bytes takes of a file. */
  ghost predicate NextBlock(
      q: seq<seq<nat>>, blk: seq<nat>, len: nat, q': seq<seq<nat>>, body: seq<seq<nat>>, after: seq<seq<nat>>)
  {
    if |blk| < len then blk == Cat(body) && q' == after
    else |blk| == len && exists body' :: Part(q', blk, body, after, body')
  }

  lemma ReadStreams(x: Line, icount: nat)
    requires Live(x) && icount > 0
    ensures var r := Read(x, icount);
      r.1.Bytes? ==> forall body, after ::
        Stream(Front(x), body, after) ==> NextBytes(Front(x), r.1.b, Front(r.0), body, after)
  {
    hide Live, Read, Front, Stream, Part;
    var r := Read(x, icount);
    forall body, after | r.1.Bytes? && Stream(Front(x), body, after)
      ensures NextBytes(Front(x), r.1.b, Front(r.0), body, after)
    {
      var body' := ReadStream(x, icount, body, after);
    }
  }

  lemma BlockStreams(x: Line, len: nat)
    requires Live(x) && len > 0
    ensures var r := Block(x, len);
      r.1.Bytes? ==> forall body, after ::
        Stream(Front(x), body, after) ==> NextBlock(Front(x), r.1.b, len, Front(r.0), body, after)
  {
    hide Live, Block, Front, Stream, Part;
    var r := Block(x, len);
    forall body, after | r.1.Bytes? && Stream(Front(x), body, after)
      ensures NextBlock(Front(x), r.1.b, len, Front(r.0), body, after)
    {
      var body' := BlockStream(x, len, body, after);
    }
  }

  lemma WholeStreams(x: Line, bufsiz: nat)
    requires Live(x) && bufsiz > 0
    ensures var r := Whole(x, bufsiz);
      r.1.File? ==> r.0.s.taken == x.s.taken + r.1.b && forall body, after ::
        Stream(Front(x), body, after) ==> r.1.b == Cat(body) && Front(r.0) == after
  {
    hide Live, Whole, Front, Stream;
    WholeTaken(x, bufsiz);
    forall body, after | Stream(Front(x), body, after)
      ensures var r := Whole(x, bufsiz); r.1.File? ==> r.1.b == Cat(body) && Front(r.0) == after
    {
      WholeStream(x, bufsiz, body, after);
    }
  }

  lemma EmptyCat(b: seq<nat>)
    ensures b + Cat([]) == b && b + [] == b && [] + b == b
  {
  }

  // ---------- the transfer ----------

  class Transfer {
    var s: Sys
    var outgoing: seq<seq<nat>>
    var script: seq<seq<Tick>>

    ghost function Now(): Line
      reads this
    {
      Line(s, outgoing, script)
    }

    constructor (s0: Sys, packets: seq<seq<nat>>, ticks: seq<seq<Tick>>)
      requires Init(s0) && forall i :: 0 <= i < |packets| ==> |packets[i]| <= s0.a.xsize
      ensures Now() == Line(s0, packets, ticks) && Live(Now()) && Front(Now()) == packets
    {
      s, outgoing, script := s0, packets, ticks;
      InitOk(s0);
      OkWf(s0);
    }

    method Happen(t: Tick)
      requires Live(Now())
      modifies this`s, this`outgoing
      ensures Now() == Happened(old(Now()), t)
    {
      hide Ok, Do, Queue;
      if t.Push? {
        if outgoing != [] && |t.junk| == s.a.xsize && CanPut(s.a) {
          s := Do(s, Write(outgoing[0], t.junk));
          outgoing := outgoing[1..];
        }
      } else if !t.e.Write? && !t.e.ReadB? && Enabled(s, t.e) {
        s := Do(s, t.e);
      }
    }

    /** What happens on the line until `pkaccept` looks at what came, and the delivery. */
    method PkRead(icount: nat) returns (got: Got)
      requires Live(Now()) && icount > 0
      modifies this
      ensures (Now(), got) == Read(old(Now()), icount) && Live(Now())
      ensures got.Dead? <==> Ready(old(Now())).s.b.rcount <= 0
      ensures got.Dead? ==> Front(Now()) == Front(old(Now())) && s.taken == old(s.taken)
      ensures got.Bytes? ==>
        |got.b| <= icount && s.taken == old(s.taken) + got.b && Cat(Front(old(Now()))) == got.b + Cat(Front(Now()))
      ensures got.Bytes? ==> forall body, after ::
        Stream(Front(old(Now())), body, after) ==> NextBytes(Front(old(Now())), got.b, Front(Now()), body, after)
    {
      hide Ok, DoRead, Front, Stream, NextBytes, Cat, Waited, Ready;
      ReadConserves(Now(), icount);
      ReadStreams(Now(), icount);
      ReadyKeeps(Now());
      Wait();
      if s.b.rcount <= 0 {
        return Dead;
      }
      DeliveredLive(Now(), icount);
      var before := s.taken;
      s := DoRead(s, icount);
      got := Bytes(s.taken[|before|..]);
    }

    /** The script up to this `pkread`'s acceptance. */
    method Wait()
      requires Live(Now())
      modifies this
      ensures Now() == Ready(old(Now()))
    {
      hide Ok, Happened, Do, Queue;
      var ticks := if script == [] then [] else script[0];
      script := if script == [] then [] else script[1..];
      ghost var end := Waited(Now(), ticks);
      for i := 0 to |ticks|
        invariant Live(Now()) && Waited(Now(), ticks[i..]) == end
      {
        assert ticks[i..][1..] == ticks[i + 1..];
        Happen(ticks[i]);
      }
      s := Do(s, AcceptB);
    }

    /** `grdblk`: a full block, or what is left of the file and the empty packet. */
    method Grdblk(len: nat) returns (blk: Got)
      requires Live(Now()) && len > 0
      modifies this
      ensures (Now(), blk) == Block(old(Now()), len) && Live(Now())
      ensures blk.Bytes? ==> s.taken == old(s.taken) + blk.b && forall body, after ::
        Stream(Front(old(Now())), body, after) ==> NextBlock(Front(old(Now())), blk.b, len, Front(Now()), body, after)
    {
      hide Live, Read, Front, Stream, Part, Cat, NextBlock, NextBytes;
      BlockConserves(Now(), len);
      BlockStreams(Now(), len);
      ghost var end := Block(Now(), len);
      var b: seq<nat> := [];
      if end.1.Bytes? { EmptyCat(end.1.b); }
      while |b| < len
        invariant Live(Now()) && |b| <= len
        invariant |b| < len ==> end == Joined(b, Block(Now(), len - |b|))
        invariant |b| == len ==> end == (Now(), Bytes(b))
        decreases len - |b|
      {
        ghost var x := Now();
        var got := PkRead(len - |b|);
        BlockTurn(x, len - |b|, b);
        if got.Dead? {
          return Dead;
        }
        b := b + got.b;
        if got.b == [] {
          return Bytes(b);
        }
      }
      blk := Bytes(b);
    }

    /** `grddata`: the whole file and its empty packet, and nothing behind it. */
    method Grddata(bufsiz: nat) returns (copy: Copied)
      requires Live(Now()) && bufsiz > 0
      modifies this
      ensures (Now(), copy) == Whole(old(Now()), bufsiz) && Live(Now())
      ensures copy.File? ==> s.taken == old(s.taken) + copy.b && forall body, after ::
        Stream(Front(old(Now())), body, after) ==> copy.b == Cat(body) && Front(Now()) == after
    {
      hide Live, Block, Front, Stream, Cat, NextBlock;
      WholeStreams(Now(), bufsiz);
      ghost var end := Whole(Now(), bufsiz);
      var file: seq<nat> := [];
      if end.1.File? { EmptyCat(end.1.b); }
      while true
        invariant Live(Now()) && end == Appended(file, Whole(Now(), bufsiz))
        decreases |Cat(Front(Now()))|
      {
        ghost var x := Now();
        BlockConserves(x, bufsiz);
        WholeTurn(x, bufsiz, file);
        var blk := Grdblk(bufsiz);
        if blk.Dead? {
          return Failed;
        }
        file := file + blk.b;
        if |blk.b| < bufsiz {
          return File(file);
        }
      }
    }
  }

  /** One turn of the loop of `grdblk`. */
  lemma BlockTurn(x: Line, len: nat, b: seq<nat>)
    requires Live(x) && len > 0
    ensures var r, end := Read(x, len), Joined(b, Block(x, len));
      if r.1.Dead? then end == (r.0, Dead)
      else if r.1.b == [] || |r.1.b| == len then end == (r.0, Bytes(b + r.1.b))
      else |r.1.b| < len && end == Joined(b + r.1.b, Block(r.0, len - |r.1.b|))
  {
    hide Live, Read, Front, Cat;
    ReadConserves(x, len);
    var r := Read(x, len);
    if r.1.Bytes? && 0 < |r.1.b| < len {
      var rest := Block(r.0, len - |r.1.b|);
      if rest.1.Bytes? { Regroup(b, r.1.b, rest.1.b); }
    }
  }

  /** One turn of the loop of `grddata`. */
  lemma WholeTurn(x: Line, bufsiz: nat, file: seq<nat>)
    requires Live(x) && bufsiz > 0
    ensures var r, end := Block(x, bufsiz), Appended(file, Whole(x, bufsiz));
      if r.1.Dead? then end == (r.0, Failed)
      else if |r.1.b| < bufsiz then end == (r.0, File(file + r.1.b))
      else end == Appended(file + r.1.b, Whole(r.0, bufsiz))
  {
    hide Live, Block, Front, Cat;
    var r := Block(x, bufsiz);
    BlockConserves(x, bufsiz);
    if r.1.Bytes? && |r.1.b| == bufsiz {
      var rest := Whole(r.0, bufsiz);
      if rest.1.File? { Regroup(file, r.1.b, rest.1.b); }
    }
  }

  lemma InitParts(s: Sys)
    requires Init(s)
    ensures s.a.xsize > 0 && s.taken == []
  {
  }

  /** The two ends before a file is sent with `gwrdata`. */
  function Start(s0: Sys, file: seq<nat>, wbuf: nat, after: seq<seq<nat>>, script: seq<seq<Tick>>): Line
    requires s0.a.xsize > 0 && wbuf > 0
  {
    Line(s0, FilePackets(file, s0.a.xsize, wbuf) + [[]] + after, script)
  }

  lemma StartLive(s0: Sys, file: seq<nat>, wbuf: nat, after: seq<seq<nat>>, script: seq<seq<Tick>>)
    requires Init(s0) && wbuf > 0 && forall i :: 0 <= i < |after| ==> |after[i]| <= s0.a.xsize
    ensures Live(Start(s0, file, wbuf, after, script))
    ensures Stream(Front(Start(s0, file, wbuf, after, script)), FilePackets(file, s0.a.xsize, wbuf), after)
  {
    InitOk(s0);
    OkWf(s0);
    assert Queue(s0) == [];
    var q := FilePackets(file, s0.a.xsize, wbuf) + [[]];
    assert [] + (q + after) == q + after;
  }

  /** A file sent with `gwrdata` and received with `grddata` over any line: unless the line
      dies, the copy is the file, and the reader stands behind the file's empty packet. */
  method RoundTrip(
      file: seq<nat>, wbuf: nat, rbuf: nat, s0: Sys, after: seq<seq<nat>>, script: seq<seq<Tick>>)
    returns (copy: Copied, t: Transfer)
    requires Init(s0) && wbuf > 0 && rbuf > 0 && forall i :: 0 <= i < |after| ==> |after[i]| <= s0.a.xsize
    ensures Live(Start(s0, file, wbuf, after, script)) && Live(t.Now())
    ensures (t.Now(), copy) == Whole(Start(s0, file, wbuf, after, script), rbuf)
    ensures copy.File? ==> copy.b == file && Front(t.Now()) == after && t.s.taken == file
  {
    hide Init, Stream, Cat, Ok, Wf, Queue, NoneEmpty, Live, Front, FilePackets;
    InitParts(s0);
    StartLive(s0, file, wbuf, after, script);
    var packets := Gwrdata(file, s0.a.xsize, wbuf);
    t := new Transfer(s0, packets + after, script);
    copy := t.Grddata(rbuf);
    EmptyCat(file);
  }
}
