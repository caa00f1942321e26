/** The big file scanner's sparse line index (cmd/bfs/bfs.c): `bigopen` reads the file once and
    keeps one `char` per line and one position per 64 lines, `bigread` finds a line by walking
    from the last one or from the nearest segment.
 */
module Bfs {
  const BLK: nat := 512
  const SEG: nat := 64
  const MAXLINES: nat := 32767
  const BFSLIM: nat := 511

  // ---------- lines by linear scan ----------

  /** The length of the line that starts at `at`, with its newline. */
  function Len(f: string, at: nat): (n: nat)
    ensures at + n <= |f| || n == 0
    decreases |f| - at
  {
    if at >= |f| then 0 else if f[at] == '\n' then 1 else 1 + Len(f, at + 1)
  }

  /** Where line k starts, counting from 1. */
  function Start(f: string, k: nat): (at: nat)
    ensures at <= |f|
  {
    if k <= 1 then 0 else Start(f, k - 1) + Len(f, Start(f, k - 1))
  }

  function LineLen(f: string, k: nat): nat {
    Len(f, Start(f, k))
  }

  /** A line without its newline, if it has one. */
  predicate Terminated(f: string, at: nat) {
    Len(f, at) > 0 && at + Len(f, at) <= |f| && f[at + Len(f, at) - 1] == '\n'
  }

  predicate NoNewline(f: string, a: int, b: int) {
    forall i :: a <= i < b && 0 <= i < |f| ==> f[i] != '\n'
  }

  lemma {:induction false} LenIs(f: string, at: nat, n: nat)
    requires n > 0 && at + n <= |f| && NoNewline(f, at, at + n - 1) && (f[at + n - 1] == '\n' || at + n == |f|)
    ensures Len(f, at) == n
    decreases n
  {
    if n > 1 { LenIs(f, at + 1, n - 1); }
  }

  lemma {:induction false} LenMeans(f: string, at: nat)
    ensures at < |f| ==> Len(f, at) > 0 && NoNewline(f, at, at + Len(f, at) - 1)
    decreases |f| - at
  {
    if at < |f| && f[at] != '\n' { LenMeans(f, at + 1); }
  }

  function Newlines(f: string): nat {
    if f == "" then 0 else Newlines(f[..|f| - 1]) + if f[|f| - 1] == '\n' then 1 else 0
  }

  /** A line starts at the front, or behind a newline. */
  predicate IsStart(f: string, at: nat) {
    at < |f| && (at == 0 || f[at - 1] == '\n')
  }

  lemma {:induction false} NewlinesTo(f: string, a: nat, b: nat)
    requires a <= b <= |f| && NoNewline(f, a, b)
    ensures Newlines(f[..b]) == Newlines(f[..a])
    decreases b - a
  {
    if a < b {
      NewlinesTo(f, a, b - 1);
      assert f[..b][..b - 1] == f[..b - 1];
    }
  }

  lemma {:induction false} FindStart(f: string, e: nat) returns (p: nat)
    requires e < |f|
    ensures p <= e && IsStart(f, p) && NoNewline(f, p, e)
  {
    if e == 0 || f[e - 1] == '\n' { p := e; } else { p := FindStart(f, e - 1); }
  }

  /** Line k starts behind k - 1 newlines. */
  lemma {:induction false} StartAt(f: string, at: nat)
    requires IsStart(f, at)
    ensures Start(f, Newlines(f[..at]) + 1) == at
    decreases at
  {
    if at > 0 {
      var p := FindStart(f, at - 1);
      StartAt(f, p);
      NewlinesTo(f, p, at - 1);
      assert f[..at][..at - 1] == f[..at - 1];
      LenIs(f, p, at - p);
    }
  }

  lemma {:induction false} StartMeans(f: string, k: nat)
    requires k >= 1 && Start(f, k) < |f|
    ensures IsStart(f, Start(f, k)) && Newlines(f[..Start(f, k)]) == k - 1
  {
    if k > 1 {
      StartMeans(f, k - 1);
      var a, b := Start(f, k - 1), Start(f, k);
      LenMeans(f, a);
      if f[b - 1] != '\n' { LenReaches(f, a); }
      NewlinesTo(f, a, b - 1);
      assert f[..b][..b - 1] == f[..b - 1];
    }
  }

  /** A line that does not end in a newline is the last. */
  lemma {:induction false} LenReaches(f: string, at: nat)
    requires at < |f|
    ensures at + Len(f, at) == |f| || f[at + Len(f, at) - 1] == '\n'
    decreases |f| - at
  {
    if f[at] != '\n' && at + 1 < |f| { LenReaches(f, at + 1); }
  }

  /** The lines are numbered by the newlines in front of them. */
  lemma {:induction false} StartExactly(f: string, k: nat, at: nat)
    requires k >= 1 && at < |f|
    ensures at == Start(f, k) <==> IsStart(f, at) && Newlines(f[..at]) == k - 1
  {
    if IsStart(f, at) { StartAt(f, at); }
    if at == Start(f, k) { StartMeans(f, k); }
  }

  /** A number kept in a `char`. */
  function AsChar(n: nat): int {
    if n % 256 < 128 then n % 256 else n % 256 - 256
  }

  lemma AsCharFits(n: nat)
    ensures AsChar(n) <= n && (AsChar(n) == n <==> n <= 127)
  {
  }

  // ---------- the index ----------

  /** What the entries up to line n stand for. */
  ghost predicate Counts(lincnt: seq<int>, f: string, n: nat) {
    |lincnt| >= n && forall k :: 1 <= k < n ==> lincnt[k] == AsChar(LineLen(f, k))
  }

  ghost predicate Segments(segblk: seq<nat>, segoff: seq<nat>, f: string, n: nat) {
    && |segblk| == |segoff|
    && n <= SEG * |segblk| < n + SEG
    && forall j :: 0 <= j < |segblk| ==> segoff[j] < BLK && BLK * segblk[j] + segoff[j] == Start(f, SEG * j + 1)
  }

  /** In the middle of the scan, at position `at`, in line l after cnt of its letters. */
  ghost predicate Scanning(f: string, at: nat, l: nat, cnt: nat, newline: bool) {
    && at <= |f| && (l == 0 ==> at == 0 && cnt == 0 && newline)
    && (l > 0 ==>
        at == Start(f, l) + cnt && cnt > 0 && NoNewline(f, Start(f, l), at - 1) && (newline <==> f[at - 1] == '\n'))
  }

  lemma {:induction false} ScanLine(f: string, at: nat, l: nat, cnt: nat)
    requires Scanning(f, at, l, cnt, true) || (at == |f| && Scanning(f, at, l, cnt, false))
    ensures Start(f, l + 1) == at && (l > 0 ==> LineLen(f, l) == cnt)
  {
    if l > 0 { LenIs(f, Start(f, l), cnt); }
  }

  lemma {:induction false} ScanByte(f: string, at: nat, l: nat, cnt: nat)
    requires at < |f| && l > 0 && at == Start(f, l) + cnt && NoNewline(f, Start(f, l), at)
    ensures Scanning(f, at + 1, l, cnt + 1, f[at] == '\n')
  {
  }

  // ---------- walking ----------

  /** The sum of the entries of the lines from a to b - 1. */
  function Sum(f: string, a: nat, b: nat): int
    requires a <= b
    decreases b - a
  {
    if a == b then 0 else Sum(f, a, b - 1) + AsChar(LineLen(f, b - 1))
  }

  ghost predicate Fits(f: string, a: nat, b: nat) {
    forall k :: a <= k < b ==> LineLen(f, k) <= 127
  }

  /** The entries add up to the distance exactly if every line walked over fits. */
  lemma {:induction false} SumFits(f: string, a: nat, b: nat)
    requires 1 <= a <= b
    ensures Sum(f, a, b) <= Start(f, b) - Start(f, a)
    ensures Sum(f, a, b) == Start(f, b) - Start(f, a) <==> Fits(f, a, b)
    decreases b - a
  {
    if a < b {
      SumFits(f, a, b - 1);
      AsCharFits(LineLen(f, b - 1));
    }
  }

  lemma {:induction false} SumFirst(f: string, a: nat, b: nat)
    requires a < b
    ensures Sum(f, a, b) == AsChar(LineLen(f, a)) + Sum(f, a + 1, b)
    decreases b - a
  {
    if a + 1 < b { SumFirst(f, a, b - 1); }
  }

  /** The lines that `bigread` walks over from line `from` to line l: forward or backward over
      at most 32 lines, or from the start of the segment. */
  function Lowest(from: nat, l: nat): nat
    requires l > 0
  {
    if 0 <= l - from <= 32 then from else if -32 <= l - from < 0 then l else SEG * ((l - 1) / SEG) + 1
  }

  function Highest(from: nat, l: nat): nat {
    if -32 <= l - from < 0 then from else l
  }

  /** The line is at most 32 lines away. */
  predicate Near(from: nat, l: nat) {
    -32 <= l - from <= 32
  }

  /** The position that the walk arrives at, from position `at` of line `from`. */
  function Walked(f: string, at: int, from: nat, l: nat): int
    requires 1 <= from && 1 <= l
  {
    if 0 <= l - from <= 32 then at + Sum(f, from, l)
    else if Near(from, l) then at - Sum(f, l, from)
    else Start(f, Lowest(from, l)) + Sum(f, Lowest(from, l), l)
  }

  lemma {:induction false} WalkedRight(f: string, from: nat, l: nat)
    requires 1 <= from && 1 <= l
    ensures 1 <= Lowest(from, l) <= Highest(from, l)
    ensures Walked(f, Start(f, from), from, l) == Start(f, l) <==> Fits(f, Lowest(from, l), Highest(from, l))
  {
    SumFits(f, Lowest(from, l), Highest(from, l));
  }

  ghost predicate EverySeekFits(f: string, dollar: nat) {
    forall from, l :: 1 <= from <= dollar && 1 <= l <= dollar ==> Fits(f, Lowest(from, l), Highest(from, l))
  }

  /** Every line is found from every other exactly if every line but the last fits its `char`. */
  lemma {:induction false} FoundExactly(f: string, dollar: nat)
    ensures EverySeekFits(f, dollar) <==> Fits(f, 1, dollar)
  {
    if EverySeekFits(f, dollar) {
      forall k | 1 <= k < dollar ensures LineLen(f, k) <= 127 {
        assert Lowest(k, k + 1) == k && Highest(k, k + 1) == k + 1;
        assert Fits(f, Lowest(k, k + 1), Highest(k, k + 1));
      }
    }
  }

  class File {
    const f: string
    var lincnt: seq<int>
    var segblk: seq<nat>
    var segoff: seq<nat>
    var dollar: nat

    constructor (text: string)
      ensures f == text && Indexed(0) && savetxt.Length == BLK && Cached() && fresh(savetxt) && lprev == 1
        && prevblk == 0 && prevoff == 0
    {
      f, lincnt, segblk, segoff := text, [], [], [];
      lprev, prevblk, prevoff, saveblk := 1, 0, 0, -1;
      savetxt := new char[BLK](_ => '\0');
    }

    /** The index of the first l lines. */
    ghost predicate Indexed(l: nat)
      reads this
    {
      |lincnt| == l && Counts(lincnt, f, l) && Segments(segblk, segoff, f, l)
    }

    /** The index of the whole file. */
    ghost predicate Opened()
      reads this
    {
      |lincnt| == dollar + 1 && Counts(lincnt, f, dollar + 1) && Segments(segblk, segoff, f, dollar)
    }

    /** Line l + 1 starts at this position. */
    method NewLine(blk: nat, off: nat, l: nat, cnt: nat)
      requires off < BLK && Indexed(l) && Scanning(f, BLK * blk + off, l, cnt, true)
      modifies this`lincnt, this`segblk, this`segoff
      ensures Indexed(l + 1)
    {
      ScanLine(f, BLK * blk + off, l, cnt);
      lincnt := lincnt + [AsChar(cnt)];
      if l % SEG == 0 {
        assert l == SEG * |segblk|;
        segblk, segoff := segblk + [blk], segoff + [off];
      }
    }

    /** One byte of the scan. */
    method ScanOne(blk: nat, off: nat, l: nat, cnt: nat, newline: bool) returns (l': nat, cnt': nat, newline': bool)
      requires off < BLK && BLK * blk + off < |f| && Indexed(l) && Scanning(f, BLK * blk + off, l, cnt, newline)
      modifies this`lincnt, this`segblk, this`segoff
      ensures Indexed(l') && Scanning(f, BLK * blk + off + 1, l', cnt', newline')
        && l' == (if newline then l + 1 else l)
    {
      ghost var at := BLK * blk + off;
      l', cnt' := l, cnt;
      if newline {
        NewLine(blk, off, l, cnt);
        ScanLine(f, at, l, cnt);
        l', cnt' := l + 1, 0;
      }
      ScanByte(f, at, l', cnt');
      newline' := f[BLK * blk + off] == '\n';
      cnt' := cnt' + 1;
    }

    /** One block of the scan, which stops early when there are too many lines. */
    method ScanBlock(blk: nat, l0: nat, cnt0: nat, newline0: bool) returns (l: nat, cnt: nat, newline: bool)
      requires BLK * blk < |f| && Indexed(l0) && l0 <= MAXLINES && Scanning(f, BLK * blk, l0, cnt0, newline0)
      modifies this`lincnt, this`segblk, this`segoff
      ensures l <= MAXLINES ==>
          Indexed(l) && Scanning(f, if BLK * (blk + 1) < |f| then BLK * (blk + 1) else |f|, l, cnt, newline)
      ensures l > MAXLINES ==> l == MAXLINES + 1 && Start(f, l) < |f|
    {
      l, cnt, newline := l0, cnt0, newline0;
      var n := if |f| - BLK * blk < BLK then |f| - BLK * blk else BLK;
      for off := 0 to n
        invariant Indexed(l) && l <= MAXLINES && Scanning(f, BLK * blk + off, l, cnt, newline)
      {
        l, cnt, newline := ScanOne(blk, off, l, cnt, newline);
        if l > MAXLINES {
          return;
        }
      }
    }

    /** `bigopen`: fails if there are too many lines. */
    method BigOpen() returns (ok: bool)
      requires Indexed(0)
      modifies this`lincnt, this`segblk, this`segoff, this`dollar
      ensures ok ==> Opened() && dollar <= MAXLINES && Start(f, dollar + 1) == |f| && (dollar > 0 <==> f != "")
      ensures !ok ==> Start(f, MAXLINES + 1) < |f|
    {
      var l: nat, cnt: nat, newline := 0, 0, true;
      var blk: nat := 0;
      while BLK * blk < |f|
        invariant Indexed(l) && l <= MAXLINES
          && Scanning(f, if BLK * blk < |f| then BLK * blk else |f|, l, cnt, newline)
        decreases |f| - BLK * blk
      {
        l, cnt, newline := ScanBlock(blk, l, cnt, newline);
        if l > MAXLINES {
          return false;
        }
        blk := blk + 1;
      }
      ScanLine(f, |f|, l, cnt);
      lincnt := lincnt + [AsChar(cnt)];
      dollar := l;
      ok := true;
    }

    var prevblk: int
    var prevoff: int
    var lprev: nat

    ghost function At(): int
      reads this
    {
      BLK * prevblk + prevoff
    }

    /** What `bigread` finds when it is called. */
    ghost predicate Ready()
      reads this
    {
      Opened() && 1 <= lprev <= dollar && 0 <= prevoff < BLK && savetxt.Length == BLK
    }

    /** The position is that of the last line. */
    ghost predicate Placed()
      reads this
    {
      At() == Start(f, lprev)
    }

    /** The first half of `bigread`: the position of line l, from that of the last line or from
        the segment. It is right exactly if every line walked over fits the `char` that counts
        it. */
    method Seek(l: nat)
      requires Ready() && 1 <= l <= dollar
      modifies this`prevblk, this`prevoff, this`lprev
      ensures Ready() && lprev == l
      ensures At() == Walked(f, old(At()), old(lprev), l)
      ensures old(Placed()) || !Near(old(lprev), l) ==>
        (Placed() <==> Fits(f, Lowest(old(lprev), l), Highest(old(lprev), l)))
    {
      WalkedRight(f, lprev, l);
      Walk(l);
      prevblk := prevblk + prevoff / BLK;
      prevoff := prevoff % BLK;
      lprev := l;
    }

    method Walk(l: nat)
      requires Ready() && 1 <= l <= dollar
      modifies this`prevblk, this`prevoff
      ensures At() == Walked(f, old(At()), lprev, l)
    {
      var i := l - lprev;
      if i == 1 {
        prevoff := prevoff + lincnt[lprev];
        assert Sum(f, lprev, lprev) == 0;
      } else if 0 <= i <= 32 {
        Forward(lprev, l);
      } else if -32 <= i < 0 {
        Backward(lprev, l);
      } else {
        var s := (l - 1) / SEG;
        prevblk, prevoff := segblk[s], segoff[s];
        Forward(SEG * s + 1, l);
      }
    }

    method Forward(a: nat, l: nat)
      requires Opened() && 1 <= a <= l <= dollar
      modifies this`prevoff
      ensures prevoff == old(prevoff) + Sum(f, a, l)
    {
      for i := a to l
        invariant prevoff == old(prevoff) + Sum(f, a, i)
      {
        prevoff := prevoff + lincnt[i];
      }
    }

    method Backward(b: nat, l: nat)
      requires Opened() && 1 <= l < b <= dollar
      modifies this`prevoff
      ensures prevoff == old(prevoff) - Sum(f, l, b)
    {
      var i: int := b - 1;
      while i >= l
        invariant l - 1 <= i < b && prevoff == old(prevoff) - Sum(f, i + 1, b)
      {
        SumFirst(f, i, b);
        prevoff := prevoff - lincnt[i];
        i := i - 1;
      }
    }

    // ---------- the saved block ----------

    const savetxt: array<char>
    var saveblk: int
    var pos: nat

    /** If the saved block is one of the file, `savetxt` holds it, and the file stands behind it. */
    ghost predicate Cached()
      reads this, savetxt
    {
      saveblk >= 0 ==>
        if BLK * saveblk < |f| then
          Holds(savetxt[..], f, BLK * saveblk)
            && pos == (if BLK * (saveblk + 1) < |f| then BLK * (saveblk + 1) else |f|)
        else pos >= |f|
    }

    /** `read` of the next block; behind the end of the file the buffer keeps what it had. */
    method ReadBlock()
      requires savetxt.Length == BLK
      modifies this`pos, savetxt
      ensures old(pos) >= |f| ==> pos == old(pos) && savetxt[..] == old(savetxt[..])
      ensures old(pos) < |f| ==>
        Holds(savetxt[..], f, old(pos)) && pos == if old(pos) + BLK < |f| then old(pos) + BLK else |f|
    {
      if pos < |f| {
        var n := if |f| - pos < BLK then |f| - pos else BLK;
        forall i | 0 <= i < n {
          savetxt[i] := f[pos + i];
        }
        pos := pos + n;
      }
    }

    /** Makes the block of the line the saved one. Seeking to a negative position fails and
        leaves the file where it is. */
    method Load()
      requires savetxt.Length == BLK
      modifies this`pos, this`saveblk, savetxt
      ensures saveblk == prevblk && (old(Cached()) && prevblk >= 0 ==> Cached())
    {
      if prevblk != saveblk {
        saveblk := prevblk;
        if saveblk >= 0 {
          pos := BLK * saveblk;
        }
        ReadBlock();
      }
    }

    /** Copies the rest of the saved block: up to a newline, the limit, or its end. */
    method CopyBlock(rec: string, off: nat) returns (rec': string, state: Copied)
      requires savetxt.Length == BLK && off < BLK && |rec| <= BFSLIM
      ensures var n := |rec'| - |rec|;
        && 0 <= n <= BLK - off && rec' == rec + savetxt[off..off + n] && '\n' !in savetxt[off..off + n]
        && (state.Newline? ==> |rec'| <= BFSLIM && n < BLK - off && savetxt[off + n] == '\n')
        && (state.TooLong? ==> |rec'| == BFSLIM + 1)
        && (state.More? ==> |rec'| <= BFSLIM && n == BLK - off)
    {
      rec' := rec;
      for b := off to BLK
        invariant |rec'| <= BFSLIM && rec' == rec + savetxt[off..b] && '\n' !in savetxt[off..b]
      {
        if savetxt[b] == '\n' {
          return rec', Newline;
        }
        rec' := rec' + [savetxt[b]];
        assert savetxt[off..b + 1] == savetxt[off..b] + [savetxt[b]];
        if |rec'| > BFSLIM {
          return rec', TooLong;
        }
      }
      return rec', More;
    }

    /** The second half of `bigread`: the text at the position found. Behind the end of the file
        comes what the buffer had before. */
    method Text() returns (rec: string, truncated: bool)
      requires savetxt.Length == BLK && 0 <= prevoff < BLK
      modifies this`pos, this`saveblk, savetxt
      ensures old(Cached()) && At() >= 0 ==> Cached() && Reads(f, savetxt[..], At(), rec, truncated)
    {
      ghost var good := Cached() && At() >= 0;
      Load();
      rec := "";
      var off: nat := prevoff;
      while true
        invariant off < BLK && |rec| <= BFSLIM
        invariant good ==>
            Cached() && saveblk >= 0 && At() + |rec| == BLK * saveblk + off && Copying(f, savetxt[..], At(), rec)
        decreases BFSLIM - |rec|
      {
        var state;
        ghost var was := rec;
        rec, state := CopyBlock(rec, off);
        if good { BlockCopied(f, savetxt[..], saveblk, off, At(), was, rec); }
        if state.Newline? {
          return rec, false;
        }
        if state.TooLong? {
          return rec, true;
        }
        NextBlock(good, At(), rec);
        off := 0;
      }
    }

    method NextBlock(ghost good: bool, ghost at: int, ghost rec: string)
      requires savetxt.Length == BLK
      requires good ==>
          Cached() && saveblk >= 0 && 0 <= at && at + |rec| == BLK * (saveblk + 1) && Copying(f, savetxt[..], at, rec)
      modifies this`pos, this`saveblk, savetxt
      ensures saveblk == old(saveblk) + 1
      ensures good ==> Cached() && Copying(f, savetxt[..], at, rec)
    {
      ReadBlock();
      saveblk := saveblk + 1;
    }

    /** `bigread`: the line that a linear scan finds, if the position was right or comes from a
        segment and the lines walked over fit. */
    method BigRead(l: nat) returns (rec: string, truncated: bool)
      requires Ready() && 1 <= l <= dollar
      modifies this`prevblk, this`prevoff, this`lprev, this`pos, this`saveblk, savetxt
      ensures Ready() && lprev == l && At() == Walked(f, old(At()), old(lprev), l)
      ensures old(Cached()) && At() >= 0 ==> Cached() && Reads(f, savetxt[..], At(), rec, truncated)
      ensures old(Placed()) || !Near(old(lprev), l) ==>
        (Placed() <==> Fits(f, Lowest(old(lprev), l), Highest(old(lprev), l)))
    {
      Seek(l);
      rec, truncated := Text();
    }
  }

  datatype Copied = Newline | TooLong | More

  /** Byte i as the program sees it with this buffer at the end of the file. */
  function Byte(f: string, block: string, i: nat): char
    requires |block| == BLK
  {
    if i < |f| then f[i] else block[i % BLK]
  }

  /** What was copied from position `at` on. */
  ghost predicate Copying(f: string, block: string, at: nat, rec: string) {
    |block| == BLK && forall i :: 0 <= i < |rec| ==> rec[i] == Byte(f, block, at + i) && rec[i] != '\n'
  }

  /** The text read: up to a newline or the limit. */
  ghost predicate Reads(f: string, block: string, at: nat, rec: string, truncated: bool) {
    && Copying(f, block, at, rec)
    && if truncated then |rec| == BFSLIM + 1 else |rec| <= BFSLIM && Byte(f, block, at + |rec|) == '\n'
  }

  ghost predicate Holds(block: seq<char>, f: string, at: nat) {
    at < |f| && forall i :: 0 <= i < |block| && at + i < |f| ==> block[i] == f[at + i]
  }

  lemma CopiedAt(f: string, block: string, at: nat, rec: string, i: nat)
    requires Copying(f, block, at, rec) && i < |rec|
    ensures rec[i] == Byte(f, block, at + i) && rec[i] != '\n'
  {
  }

  lemma BlockByte(f: string, block: string, blk: nat, o: nat)
    requires |block| == BLK && (BLK * blk < |f| ==> Holds(block, f, BLK * blk)) && o < BLK
    ensures Byte(f, block, BLK * blk + o) == block[o]
  {
    assert (BLK * blk + o) % BLK == o;
  }

  lemma {:induction false} BlockCopied(f: string, block: string, blk: nat, off: nat, at: nat, was: string, rec: string)
    requires |block| == BLK && (BLK * blk < |f| ==> Holds(block, f, BLK * blk)) && at + |was| == BLK * blk + off
    requires Copying(f, block, at, was) && |was| <= |rec| && off + |rec| - |was| <= BLK
    requires rec == was + block[off..off + |rec| - |was|] && '\n' !in block[off..off + |rec| - |was|]
    ensures Copying(f, block, at, rec)
    ensures off + |rec| - |was| < BLK ==> Byte(f, block, at + |rec|) == block[off + |rec| - |was|]
  {
    hide Byte, Holds;
    var n := |rec| - |was|;
    var part := block[off..off + n];
    forall i | 0 <= i < |rec| ensures rec[i] == Byte(f, block, at + i) && rec[i] != '\n' {
      if i < |was| {
        CopiedAt(f, block, at, was, i);
      } else {
        var o := off + i - |was|;
        assert rec[i] == part[i - |was|] == block[o];
        BlockByte(f, block, blk, o);
        assert at + i == BLK * blk + o;
      }
    }
    if off + n < BLK {
      BlockByte(f, block, blk, off + n);
      assert at + |rec| == BLK * blk + (off + n);
    }
  }

  /** The text of a line, without its newline if it has one. */
  function Content(f: string, at: nat): string {
    if at >= |f| then "" else if Terminated(f, at) then f[at..at + Len(f, at) - 1] else f[at..at + Len(f, at)]
  }

  lemma {:induction false} ContentBytes(f: string, at: nat)
    ensures at + |Content(f, at)| <= |f| || at >= |f|
    ensures forall i :: 0 <= i < |Content(f, at)| ==> Content(f, at)[i] == f[at + i] != '\n'
    ensures Terminated(f, at) ==> at + |Content(f, at)| < |f| && f[at + |Content(f, at)|] == '\n'
  {
    LenMeans(f, at);
  }

  lemma ContentByte(f: string, at: nat, i: nat)
    requires i < |Content(f, at)|
    ensures at + i < |f| && f[at + i] != '\n'
  {
    ContentBytes(f, at);
    assert Content(f, at)[i] != '\n';
  }

  /** A line with a newline is read as it stands, up to the limit. */
  lemma {:induction false} ReadsLine(f: string, block: string, at: nat, rec: string, truncated: bool)
    requires Reads(f, block, at, rec, truncated) && Terminated(f, at)
    ensures truncated <==> |Content(f, at)| > BFSLIM
    ensures rec == if truncated then Content(f, at)[..BFSLIM + 1] else Content(f, at)
  {
    ContentBytes(f, at);
    var c := Content(f, at);
    if |rec| > |c| { CopiedAt(f, block, at, rec, |c|); }
    if !truncated && |rec| < |c| { ContentByte(f, at, |rec|); }
    forall i | 0 <= i < |rec| ensures rec[i] == c[i] {
      CopiedAt(f, block, at, rec, i);
    }
  }

  /** A last line without a newline comes with what the buffer had behind it, up to a newline
      or the limit. */
  lemma {:induction false} ReadsLast(f: string, block: string, at: nat, rec: string, truncated: bool)
    requires Reads(f, block, at, rec, truncated) && at < |f| && !Terminated(f, at)
    ensures if |Content(f, at)| > BFSLIM then truncated && rec == Content(f, at)[..BFSLIM + 1]
      else Content(f, at) <= rec
    ensures forall i :: |Content(f, at)| <= i < |rec| ==> rec[i] == block[(at + i) % BLK]
  {
    ContentBytes(f, at);
    LenMeans(f, at);
    LenReaches(f, at);
    var c := Content(f, at);
    if !truncated && |rec| < |c| { ContentByte(f, at, |rec|); }
    forall i | 0 <= i < |rec| && i < |c| ensures rec[i] == c[i] {
      CopiedAt(f, block, at, rec, i);
    }
  }

  // ---------- a line too long ----------

  /** A first line of 128 bytes. */
  function LongFirst(): string {
    seq(127, _ => 'x') + "\ny\n"
  }

  /** From the first line, at 0, the walk to the second line at 128 goes to -128. */
  lemma {:induction false} LongFirstMissed()
    ensures Start(LongFirst(), 2) == 128 && Walked(LongFirst(), 0, 1, 2) == -128
    ensures !Fits(LongFirst(), Lowest(1, 2), Highest(1, 2))
  {
    var f := LongFirst();
    LenIs(f, 0, 128);
    assert LineLen(f, 1) == 128;
    assert Start(f, 2) == Start(f, 1) + Len(f, 0);
  }

  /** A first line of 128 bytes, and n lines of one. */
  function LongThenShort(n: nat): string {
    seq(127, _ => 'x') + seq(n + 1, _ => '\n')
  }

  lemma {:induction false} LongThenShortLines(n: nat, k: nat)
    requires 1 <= k <= n + 1
    ensures var f := LongThenShort(n);
      if k == 1 then Start(f, k) == 0 && LineLen(f, k) == 128 else Start(f, k) == 126 + k && LineLen(f, k) == 1
  {
    var f := LongThenShort(n);
    if k == 1 {
      LenIs(f, 0, 128);
    } else {
      LongThenShortLines(n, k - 1);
      LenIs(f, 126 + k, 1);
    }
  }

  /** Behind such a line every line is found from every other that is at most 32 lines away, and every
      line behind the first 64; all others are missed, because the walk begins at the first line. */
  lemma {:induction false} LongFirstExactly(n: nat, from: nat, l: nat)
    requires 2 <= from <= n + 1 && 2 <= l <= n + 1
    ensures var f := LongThenShort(n);
      Walked(f, Start(f, from), from, l) == Start(f, l) <==> -32 <= l - from <= 32 || l > 64
  {
    var f := LongThenShort(n);
    WalkedRight(f, from, l);
    LongThenShortLines(n, 1);
    forall k | 2 <= k <= n + 1 ensures LineLen(f, k) == 1 {
      LongThenShortLines(n, k);
    }
  }
}
