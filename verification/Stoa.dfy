/** Octal and hexadecimal addresses to bytes (`dobase` in cmd/bnu/stoa.c). */
module Stoa {
  const SBUFSIZE: nat := 128

  datatype Base = OCT | HEX

  /** Bits per digit. */
  function Width(t: Base): nat {
    if t == OCT then 3 else 4
  }

  function Pow(b: nat, n: nat): nat {
    if n == 0 then 1 else b * Pow(b, n - 1)
  }

  function Pow2(n: nat): (r: nat)
    ensures r > 0
  {
    if n == 0 then 1 else 2 * Pow2(n - 1)
  }

  // ---------- digits ----------

  predicate IsSpace(c: char) { c == ' ' || '\t' <= c <= '\r' }

  predicate IsDigit(c: char, t: Base) {
    if t == OCT then '0' <= c <= '7' else '0' <= c <= '9' || 'a' <= c <= 'f' || 'A' <= c <= 'F'
  }

  /** `toxdigit` */
  function Digit(c: char, t: Base): (d: nat)
    requires IsDigit(c, t)
    ensures d < Pow2(Width(t)) <= 16
  {
    assert Pow2(3) == 8 && Pow2(4) == 16;
    if '0' <= c <= '9' then c as int - '0' as int
    else if 'a' <= c <= 'f' then c as int - 'a' as int + 10
    else c as int - 'A' as int + 10
  }

  predicate AllDigits(s: string, t: Base) {
    forall i :: 0 <= i < |s| ==> IsDigit(s[i], t)
  }

  /** The value of a string of digits. */
  function Number(s: string, t: Base): nat
    requires AllDigits(s, t)
  {
    if s == "" then 0 else Number(s[..|s| - 1], t) * Pow2(Width(t)) + Digit(s[|s| - 1], t)
  }

  predicate Bytes(b: seq<nat>) {
    forall i :: 0 <= i < |b| ==> b[i] < 256
  }

  /** The value of some bytes, the highest first. */
  function BigEndian(b: seq<nat>): nat {
    if b == [] then 0 else BigEndian(b[..|b| - 1]) * 256 + b[|b| - 1]
  }

  lemma {:induction false} BigEndianFirst(x: nat, b: seq<nat>)
    ensures BigEndian([x] + b) == x * Pow(256, |b|) + BigEndian(b)
  {
    if b == [] {
      assert [x] + b == [x] && [x][..0] == [];
    } else {
      var b', y := b[..|b| - 1], b[|b| - 1];
      assert ([x] + b)[..|b|] == [x] + b';
      BigEndianFirst(x, b');
      Spread(x, Pow(256, |b'|), BigEndian(b'), 256);
      assert BigEndian([x] + b) == (x * Pow(256, |b'|) + BigEndian(b')) * 256 + y;
    }
  }

  lemma Spread(x: nat, p: nat, r: nat, m: nat)
    ensures (x * p + r) * m == x * (m * p) + r * m
  {
  }

  lemma {:induction false} NumberFirst(c: char, s: string, t: Base)
    requires AllDigits(s, t) && IsDigit(c, t)
    ensures AllDigits([c] + s, t) && Number([c] + s, t) == Digit(c, t) * Pow(Pow2(Width(t)), |s|) + Number(s, t)
  {
    hide Digit, IsDigit, Pow2;
    var m := Pow2(Width(t));
    if s == "" {
      assert [c] + s == [c] && [c][..0] == [];
    } else {
      var s', y := s[..|s| - 1], s[|s| - 1];
      assert ([c] + s)[..|s|] == [c] + s';
      NumberFirst(c, s', t);
      Spread(Digit(c, t), Pow(m, |s'|), Number(s', t), m);
    }
  }

  // ---------- bits ----------

  /** Bitwise or. */
  function Or(a: nat, b: nat): nat
    decreases a + b
  {
    if a == 0 then b else if b == 0 then a else (if a % 2 == 1 || b % 2 == 1 then 1 else 0) + 2 * Or(a / 2, b / 2)
  }

  /** Or of numbers that share no bit is addition. */
  lemma {:induction false} OrAdds(a: nat, d: nat, k: nat)
    requires a < Pow2(k)
    ensures Or(a, d * Pow2(k)) == a + d * Pow2(k)
    decreases k
  {
    if k > 0 && a > 0 && d * Pow2(k) > 0 {
      var h := d * Pow2(k - 1);
      assert d * Pow2(k) == 2 * h by { Twice(d, Pow2(k - 1)); }
      OrAdds(a / 2, d, k - 1);
      assert (2 * h) / 2 == h && (2 * h) % 2 == 0;
    }
  }

  lemma Twice(d: nat, p: nat)
    ensures d * (2 * p) == 2 * (d * p)
  {
  }

  /** The powers of two that `shift` can stand for. */
  lemma PowersOfTwo()
    ensures Pow2(0) == 1 && Pow2(1) == 2 && Pow2(2) == 4 && Pow2(3) == 8 && Pow2(4) == 16 && Pow2(5) == 32
      && Pow2(6) == 64 && Pow2(7) == 128
  {
    assert Pow2(4) == 2 * Pow2(3) && Pow2(5) == 2 * Pow2(4) && Pow2(6) == 2 * Pow2(5) && Pow2(7) == 2 * Pow2(6);
  }

  lemma {:induction false} Pow2Add(a: nat, b: nat)
    ensures Pow2(a + b) == Pow2(a) * Pow2(b)
  {
    if a > 0 {
      Pow2Add(a - 1, b);
      Twice(Pow2(b), Pow2(a - 1));
    }
  }

  // ---------- packing ----------

  /** The bytes from bp on hold the value v of m digits; the byte at bp is filled up to `shift`. */
  ghost predicate Packed(b: seq<nat>, bp: nat, shift: nat, v: nat, m: nat, t: Base) {
    && |b| == SBUFSIZE && bp < SBUFSIZE && shift < 8
    && b[bp] < Pow2(shift) && Bytes(b[bp..]) && BigEndian(b[bp..]) == v
    && Width(t) * m == 8 * (SBUFSIZE - 1 - bp) + shift
    && Pow(Pow2(Width(t)), m) == Pow(256, SBUFSIZE - 1 - bp) * Pow2(shift)
  }

  /** A digit that stays within the byte. */
  lemma DigitWithin(top: nat, d: nat, shift: nat, t: Base)
    requires shift + Width(t) <= 8 && d < Pow2(Width(t)) && top < Pow2(shift)
    ensures Or(top, d * Pow2(shift)) % 256 == top + d * Pow2(shift) < Pow2(shift + Width(t))
  {
    var q, r := Pow2(shift), Pow2(Width(t));
    OrAdds(top, d, shift);
    Pow2Add(shift, Width(t));
    Below(top, d, q, r);
    Pow2Byte(shift + Width(t));
  }

  lemma {:induction false} Pow2Byte(k: nat)
    requires k <= 8
    ensures Pow2(k) <= 256
  {
    PowersOfTwo();
    assert Pow2(8) == 2 * Pow2(7);
  }

  lemma Below(top: nat, d: nat, q: nat, r: nat)
    requires top < q && d < r
    ensures top + d * q < q * r
  {
    assert (d + 1) * q <= r * q;
  }

  /** An octal digit that straddles two bytes. */
  lemma DigitStraddles(top: nat, d: nat, shift: nat)
    requires 5 < shift < 8 && d < 8 && top < Pow2(shift)
    ensures var x, h := Or(top, d * Pow2(shift)) % 256, (d / Pow2(8 - shift)) % Pow2(shift - 5);
      x + 256 * h == top + d * Pow2(shift) && h < Pow2(shift - 5)
  {
    OrAdds(top, d, shift);
    PowersOfTwo();
    Straddle(top, d, Pow2(shift), Pow2(8 - shift), Pow2(shift - 5));
  }

  lemma Straddle(top: nat, d: nat, q: nat, a: nat, b: nat)
    requires (q == 64 && a == 4 && b == 2) || (q == 128 && a == 2 && b == 4)
    requires d < 8 && top < q
    ensures (top + d * q) % 256 + 256 * ((d / a) % b) == top + d * q && (d / a) % b < b
  {
    if q == 64 { Straddle6(top, d); } else { Straddle7(top, d); }
  }

  lemma Straddle6(top: nat, d: nat)
    requires d < 8 && top < 64
    ensures (top + d * 64) % 256 + 256 * ((d / 4) % 2) == top + d * 64
  {
    assert top + d * 64 == top + 64 * (d % 4) + 256 * (d / 4);
  }

  lemma Straddle7(top: nat, d: nat)
    requires d < 8 && top < 128
    ensures (top + d * 128) % 256 + 256 * ((d / 2) % 4) == top + d * 128
  {
    assert top + d * 128 == top + 128 * (d % 2) + 256 * (d / 2);
  }

  lemma {:induction false} BytesNext(b: seq<nat>, b': seq<nat>, bp: nat, bp': nat)
    requires |b| == |b'| == SBUFSIZE && bp < SBUFSIZE && (bp' == bp || bp == bp' + 1) && b'[bp + 1..] == b[bp + 1..]
    requires Bytes(b[bp..]) && b'[bp] < 256 && b'[bp'] < 256
    ensures Bytes(b'[bp'..])
  {
    forall i | bp < i < SBUFSIZE ensures b'[i] < 256 {
      assert b'[i] == b'[bp + 1..][i - bp - 1] && b[i] == b[bp..][i - bp];
    }
  }

  /** A new value of the top bytes. */
  lemma {:induction false} Repacked(b: seq<nat>, b': seq<nat>, bp: nat, bp': nat, x: nat, h: nat, top: nat, y: nat)
    requires |b| == |b'| == SBUFSIZE && bp < SBUFSIZE && b[bp] == top && b'[bp] == x && b'[bp + 1..] == b[bp + 1..]
    requires x + 256 * h == top + y
    requires if bp' == bp then h == 0 else bp == bp' + 1 && b'[bp'] == h
    ensures BigEndian(b'[bp'..]) == BigEndian(b[bp..]) + y * Pow(256, SBUFSIZE - 1 - bp)
  {
    var rest := b[bp + 1..];
    var p := Pow(256, |rest|);
    assert b[bp..] == [top] + rest;
    BigEndianFirst(top, rest);
    assert b'[bp..] == [x] + rest;
    BigEndianFirst(x, rest);
    if bp' != bp {
      assert b'[bp'..] == [h] + b'[bp..];
      BigEndianFirst(h, b'[bp..]);
      assert Pow(256, |b'[bp..]|) == 256 * p;
      Exchange(256, h, p);
      Exchange(h, 256, p);
    }
    Distribute(x, 256 * h, top, y, p);
  }

  lemma Distribute(x: nat, h: nat, top: nat, y: nat, p: nat)
    requires x + h == top + y
    ensures x * p + h * p == top * p + y * p
  {
    assert (x + h) * p == (top + y) * p;
  }

  /** The weight of the next digit. */
  lemma {:induction false} NextWeight(bp: nat, shift: nat, m: nat, t: Base, bp': nat, shift': nat)
    requires bp < SBUFSIZE && Pow(Pow2(Width(t)), m) == Pow(256, SBUFSIZE - 1 - bp) * Pow2(shift)
    requires if shift + Width(t) < 8 then bp' == bp && shift' == shift + Width(t)
             else bp == bp' + 1 && shift' == shift + Width(t) - 8
    ensures Pow(Pow2(Width(t)), m + 1) == Pow(256, SBUFSIZE - 1 - bp') * Pow2(shift')
  {
    var p, q, r := Pow(256, SBUFSIZE - 1 - bp), Pow2(shift), Pow2(Width(t));
    Pow2Add(shift, Width(t));
    assert r * (p * q) == p * (q * r) by { Exchange(r, p, q); }
    if bp' != bp {
      Pow2Add(8, shift');
      PowersOfTwo();
      assert Pow2(8) == 256;
      Exchange(256, p, Pow2(shift'));
    }
  }

  lemma Exchange(r: nat, p: nat, q: nat)
    ensures r * (p * q) == p * (q * r) == (r * p) * q
  {
  }

  /** One digit more. */
  lemma {:induction false} PackedNext(
      b: seq<nat>, b': seq<nat>, bp: nat, bp': nat, shift: nat, shift': nat, v: nat, m: nat, t: Base, d: nat, x: nat,
      h: nat, v': nat)
    requires v' == v + d * Pow(Pow2(Width(t)), m)
    requires Packed(b, bp, shift, v, m, t) && bp > 0 && |b'| == SBUFSIZE
    requires if shift + Width(t) < 8 then bp' == bp && shift' == shift + Width(t)
             else bp == bp' + 1 && shift' == shift + Width(t) - 8
    requires b'[bp] == x < 256 && b'[bp + 1..] == b[bp + 1..] && b'[bp'] < Pow2(shift')
      && x + 256 * h == b[bp] + d * Pow2(shift)
    requires if bp' == bp then h == 0 else b'[bp'] == h
    ensures Packed(b', bp', shift', v', m + 1, t)
  {
    Pow2Byte(shift');
    BytesNext(b, b', bp, bp');
    Repacked(b, b', bp, bp', x, h, b[bp], d * Pow2(shift));
    NextWeight(bp, shift, m, t, bp', shift');
    Weigh(d, Pow2(shift), Pow(256, SBUFSIZE - 1 - bp), Pow(Pow2(Width(t)), m));
    Distributes(t, m);
  }

  lemma Weigh(d: nat, q: nat, p: nat, w: nat)
    requires w == p * q
    ensures (d * q) * p == d * w
  {
  }

  lemma Distributes(t: Base, m: nat)
    ensures Width(t) * (m + 1) == Width(t) * m + Width(t)
  {
  }

  // ---------- the program ----------

  /** An octal digit goes into one byte or two. */
  method PutOctal(buf: array<nat>, bp: nat, shift: nat, d: nat, ghost v: nat, ghost m: nat, ghost v': nat)
    returns (bp': nat, shift': nat)
    requires v' == v + d * Pow(Pow2(3), m)
    requires Packed(buf[..], bp, shift, v, m, OCT) && 0 < bp && d < 8
    modifies buf
    ensures Packed(buf[..], bp', shift', v', m + 1, OCT)
  {
    if shift > 5 {
      bp', shift' := PutTwo(buf, bp, shift, d, v, m, v');
    } else {
      bp', shift' := PutOne(buf, bp, shift, d, v, m, v');
    }
  }

  method PutTwo(buf: array<nat>, bp: nat, shift: nat, d: nat, ghost v: nat, ghost m: nat, ghost v': nat)
    returns (bp': nat, shift': nat)
    requires v' == v + d * Pow(Pow2(3), m)
    requires Packed(buf[..], bp, shift, v, m, OCT) && 0 < bp && d < 8 && shift > 5
    modifies buf
    ensures Packed(buf[..], bp', shift', v', m + 1, OCT)
  {
    hide Or, Pow, BigEndian, Bytes;
    ghost var b := buf[..];
    DigitStraddles(b[bp], d, shift);
    buf[bp] := Or(buf[bp], d * Pow2(shift)) % 256;
    bp', shift' := bp - 1, shift - 5;
    buf[bp'] := (d / Pow2(8 - shift)) % Pow2(shift - 5);
    PackedNext(b, buf[..], bp, bp', shift, shift', v, m, OCT, d, buf[bp], buf[bp'], v');
  }

  method PutOne(buf: array<nat>, bp: nat, shift: nat, d: nat, ghost v: nat, ghost m: nat, ghost v': nat)
    returns (bp': nat, shift': nat)
    requires v' == v + d * Pow(Pow2(3), m)
    requires Packed(buf[..], bp, shift, v, m, OCT) && 0 < bp && d < 8 && shift <= 5
    modifies buf
    ensures Packed(buf[..], bp', shift', v', m + 1, OCT)
  {
    hide Or, Pow, BigEndian, Bytes;
    ghost var b := buf[..];
    PowersOfTwo();
    DigitWithin(b[bp], d, shift, OCT);
    buf[bp] := Or(buf[bp], d * Pow2(shift)) % 256;
    bp', shift' := bp, (shift + 3) % 8;
    if shift' == 0 {
      bp' := bp' - 1;
      buf[bp'] := 0;
    }
    PackedNext(b, buf[..], bp, bp', shift, shift', v, m, OCT, d, buf[bp], 0, v');
  }

  method PutHex(buf: array<nat>, bp: nat, shift: nat, d: nat, ghost v: nat, ghost m: nat, ghost v': nat)
    returns (bp': nat, shift': nat)
    requires v' == v + d * Pow(Pow2(4), m)
    requires Packed(buf[..], bp, shift, v, m, HEX) && 0 < bp && d < 16 && (shift == 0 || shift == 4)
    modifies buf
    ensures Packed(buf[..], bp', shift', v', m + 1, HEX) && (shift' == 0 || shift' == 4)
  {
    hide Or, Pow, BigEndian, Bytes;
    ghost var b := buf[..];
    bp' := bp;
    PowersOfTwo();
    buf[bp'] := Or(buf[bp'], d * Pow2(shift)) % 256;
    ghost var x := buf[bp];
    DigitWithin(b[bp], d, shift, HEX);
    shift' := if shift != 0 then 0 else 4;
    if shift' == 0 {
      bp' := bp' - 1;
      buf[bp'] := 0;
    }
    PackedNext(b, buf[..], bp, bp', shift, shift', v, m, HEX, d, x, 0, v');
  }

  /** The digits at the front of a string. */
  function Digits(s: string, t: Base): (r: string)
    ensures r <= s && AllDigits(r, t) && (|r| < |s| ==> !IsDigit(s[|r|], t))
  {
    if s == "" || !IsDigit(s[0], t) then "" else [s[0]] + Digits(s[1..], t)
  }

  /** Digits, and then nothing or white space. */
  predicate Legal(s: string, t: Base) {
    var k := |Digits(s, t)|;
    k > 0 && (k < |s| ==> IsSpace(s[k]))
  }

  /** The digits of ds from `end` on are in the buffer. */
  ghost predicate Holds(b: seq<nat>, bp: nat, shift: nat, ds: string, end: nat, t: Base) {
    && end <= |ds| && AllDigits(ds[end..], t) && (t == HEX ==> shift == 0 || shift == 4)
    && Packed(b, bp, shift, Number(ds[end..], t), |ds| - end, t)
  }

  /** One turn of the loop. */
  method PutDigit(ds: string, end: nat, buf: array<nat>, bp: nat, shift: nat, t: Base) returns (bp': nat, shift': nat)
    requires AllDigits(ds, t) && end < |ds| && Holds(buf[..], bp, shift, ds, end + 1, t) && bp > 0
    modifies buf
    ensures Holds(buf[..], bp', shift', ds, end, t)
  {
    var d := Digit(ds[end], t);
    assert ds[end..] == [ds[end]] + ds[end + 1..];
    NumberFirst(ds[end], ds[end + 1..], t);
    PowersOfTwo();
    if t == OCT {
      bp', shift' := PutOctal(buf, bp, shift, d, Number(ds[end + 1..], t), |ds| - end - 1, Number(ds[end..], t));
    } else {
      bp', shift' := PutHex(buf, bp, shift, d, Number(ds[end + 1..], t), |ds| - end - 1, Number(ds[end..], t));
    }
  }

  /** The loop: packs the digits from the last to the first, as long as there is room. */
  method Pack(ds: string, buf: array<nat>, t: Base) returns (bp: nat, shift: nat)
    requires AllDigits(ds, t) && buf.Length == SBUFSIZE
    modifies buf
    ensures bp == 0 <==> Width(t) * |ds| >= 8 * (SBUFSIZE - 1)
    ensures bp > 0 ==> Packed(buf[..], bp, shift, Number(ds, t), |ds|, t)
  {
    bp, shift := SBUFSIZE - 1, 0;
    buf[bp] := 0;
    var end: nat := |ds|;
    PackedStart(buf[..], ds, t);
    while bp > 0 && end > 0
      invariant Holds(buf[..], bp, shift, ds, end, t)
      decreases end
    {
      end := end - 1;
      bp, shift := PutDigit(ds, end, buf, bp, shift, t);
    }
    Scale(Width(t), |ds| - end, |ds|);
    assert ds[0..] == ds;
  }

  lemma Scale(w: nat, a: nat, b: nat)
    requires a <= b
    ensures w * a <= w * b
  {
  }

  lemma {:induction false} PackedStart(b: seq<nat>, ds: string, t: Base)
    requires |b| == SBUFSIZE && b[SBUFSIZE - 1] == 0
    ensures Holds(b, SBUFSIZE - 1, 0, ds, |ds|, t)
  {
    var c := b[SBUFSIZE - 1..];
    assert c == [0] && c[..0] == [];
    assert BigEndian(c) == BigEndian(c[..0]) * 256 + 0;
    assert ds[|ds|..] == "";
  }

  /** `memcp` to a lower place in the same buffer. */
  method Memcp(buf: array<nat>, from: nat, n: nat)
    requires from + n <= buf.Length
    modifies buf
    ensures buf[..n] == old(buf[from..from + n])
  {
    for i := 0 to n
      invariant forall j :: 0 <= j < i ==> buf[j] == old(buf[from + j])
      invariant forall j :: from + i <= j < from + n ==> buf[j] == old(buf[j])
    {
      buf[i] := buf[from + i];
    }
  }

  method FindEnd(s: string, t: Base) returns (end: nat)
    ensures end <= |s| && s[..end] == Digits(s, t)
  {
    end := 0;
    while end < |s| && IsDigit(s[end], t)
      invariant 0 <= end <= |s| && AllDigits(s[..end], t)
    {
      end := end + 1;
    }
    DigitsEnd(s, end, t);
  }

  /** `dobase`: the number of bytes, or 0. */
  method DoBase(s: string, buf: array<nat>, t: Base) returns (n: nat)
    requires buf.Length == SBUFSIZE
    modifies buf
    ensures n == 0 <==> !Legal(s, t) || Width(t) * |Digits(s, t)| >= 8 * (SBUFSIZE - 1)
    ensures n > 0 ==> n == (Width(t) * |Digits(s, t)| + 7) / 8 <= buf.Length
    ensures n > 0 ==> Bytes(buf[..n]) && BigEndian(buf[..n]) == Number(Digits(s, t), t)
  {
    var end := FindEnd(s, t);
    if end == 0 || (end < |s| && !IsSpace(s[end])) {
      buf[0] := 0;
      return 0;
    }
    var bp, shift := Pack(s[..end], buf, t);
    if bp == 0 {
      return 0;
    }
    n := Finish(buf, bp, shift, Number(s[..end], t), end, t);
  }

  /** Leaves out a byte with no digit in it, and moves the bytes to the front. */
  method Finish(buf: array<nat>, bp: nat, shift: nat, ghost v: nat, ghost m: nat, ghost t: Base) returns (n: nat)
    requires Packed(buf[..], bp, shift, v, m, t) && m > 0
    modifies buf
    ensures 0 < n <= buf.Length && n == (Width(t) * m + 7) / 8 && Bytes(buf[..n]) && BigEndian(buf[..n]) == v
  {
    ghost var b := buf[..];
    n := SBUFSIZE - bp;
    if shift == 0 {
      DropZero(b, bp);
      n := n - 1;
    }
    assert buf[SBUFSIZE - n..SBUFSIZE - n + n] == b[SBUFSIZE - n..];
    Memcp(buf, SBUFSIZE - n, n);
  }

  lemma {:induction false} DigitsEnd(s: string, end: nat, t: Base)
    requires end <= |s| && AllDigits(s[..end], t) && (end < |s| ==> !IsDigit(s[end], t))
    ensures Digits(s, t) == s[..end]
  {
    if end > 0 {
      assert s[0] == s[..end][0];
      assert s[1..][..end - 1] == s[..end][1..];
      DigitsEnd(s[1..], end - 1, t);
    }
  }

  /** A byte into which no digit has gone. */
  lemma {:induction false} DropZero(b: seq<nat>, bp: nat)
    requires |b| == SBUFSIZE && bp < SBUFSIZE && b[bp] == 0
    ensures BigEndian(b[bp..]) == BigEndian(b[bp + 1..])
  {
    assert b[bp..] == [0] + b[bp + 1..];
    BigEndianFirst(0, b[bp + 1..]);
  }

  // ---------- what the numerals are ----------

  const LOWER: string := "0123456789abcdef"
  const UPPER: string := "0123456789ABCDEF"

  /** A digit's value is its place among the digits. */
  lemma {:induction false} DigitExactly(c: char, t: Base, d: nat)
    ensures IsDigit(c, t) && Digit(c, t) == d <==>
      d < (if t == OCT then 8 else 16) && (c == LOWER[d] || c == UPPER[d])
  {
    PowersOfTwo();
    if d < 16 { assert LOWER[d] == UPPER[d] <==> d < 10; }
  }

  /** Two digits for every byte. */
  function HexText(b: seq<nat>): string
    requires Bytes(b)
  {
    if b == [] then "" else
    var x := b[|b| - 1];
    HexText(b[..|b| - 1]) + [LOWER[x / 16], LOWER[x % 16]]
  }

  lemma {:induction false} HexTextReads(b: seq<nat>)
    requires Bytes(b)
    ensures AllDigits(HexText(b), HEX) && |HexText(b)| == 2 * |b| && Number(HexText(b), HEX) == BigEndian(b)
  {
    if b != [] {
      var x, s := b[|b| - 1], HexText(b[..|b| - 1]);
      HexTextReads(b[..|b| - 1]);
      DigitExactly(LOWER[x / 16], HEX, x / 16);
      DigitExactly(LOWER[x % 16], HEX, x % 16);
      var u := s + [LOWER[x / 16]];
      assert HexText(b) == u + [LOWER[x % 16]];
      assert (u + [LOWER[x % 16]])[..|u|] == u && u[..|s|] == s;
      PowersOfTwo();
      assert AllDigits(u, HEX);
      assert Number(u, HEX) == BigEndian(b[..|b| - 1]) * 16 + x / 16;
    }
  }

  /** A number has one form in n bytes. */
  lemma {:induction false} BytesUnique(b: seq<nat>, c: seq<nat>)
    requires Bytes(b) && Bytes(c) && |b| == |c| && BigEndian(b) == BigEndian(c)
    ensures b == c
  {
    if b != [] {
      var n := |b| - 1;
      LastByte(BigEndian(b[..n]), b[n], BigEndian(c[..n]), c[n]);
      BytesUnique(b[..n], c[..n]);
      assert b == b[..n] + [b[n]] && c == c[..n] + [c[n]];
    }
  }

  lemma LastByte(p: nat, x: nat, q: nat, y: nat)
    requires x < 256 && y < 256 && p * 256 + x == q * 256 + y
    ensures p == q && x == y
  {
  }

  /** What `dobase` makes of the hexadecimal text of some bytes is those bytes. */
  lemma {:induction false} HexExactly(b: seq<nat>, r: seq<nat>)
    requires Bytes(b) && Bytes(r) && |r| == (4 * |HexText(b)| + 7) / 8
    ensures AllDigits(HexText(b), HEX) && Digits(HexText(b), HEX) == HexText(b)
    ensures BigEndian(r) == Number(HexText(b), HEX) <==> r == b
  {
    HexTextReads(b);
    assert HexText(b)[..|HexText(b)|] == HexText(b);
    DigitsEnd(HexText(b), |HexText(b)|, HEX);
    if BigEndian(r) == BigEndian(b) { BytesUnique(r, b); }
  }
}
