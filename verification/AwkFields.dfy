/** Splitting a record into fields and building it again (`fldbld` and `recbld` in
    cmd/awk/lib.c).
 */
module AwkFields {
  // ---------- a separator character ----------

  /** A newline always separates. */
  predicate IsSep(c: char, sep: char) {
    c == sep || c == '\n'
  }

  function Until(r: string, sep: char): (k: nat)
    ensures k <= |r|
  {
    if r == "" || IsSep(r[0], sep) then 0 else 1 + Until(r[1..], sep)
  }

  /** k letters, and then a separator or the end. */
  predicate EndsAt(r: string, sep: char, k: nat) {
    k <= |r| && (k < |r| ==> IsSep(r[k], sep)) && forall i :: 0 <= i < k ==> !IsSep(r[i], sep)
  }

  lemma {:induction false} UntilIs(r: string, sep: char, k: nat)
    ensures EndsAt(r, sep, k) <==> k == Until(r, sep)
    decreases |r|
  {
    if r != "" && !IsSep(r[0], sep) {
      if k > 0 {
        UntilIs(r[1..], sep, k - 1);
        assert EndsAt(r[1..], sep, k - 1) ==> forall i :: 1 <= i < k ==> r[i] == r[1..][i - 1];
        assert EndsAt(r, sep, k) ==> forall i :: 0 <= i < k - 1 ==> r[1..][i] == r[i + 1];
      }
    }
  }

  /** The fields of a record. */
  function Cut(r: string, sep: char): (fs: seq<string>)
    ensures fs != []
    decreases |r|
  {
    var k := Until(r, sep);
    if k == |r| then [r] else [r[..k]] + Cut(r[k + 1..], sep)
  }

  function Join(fs: seq<string>, ofs: string): string {
    if fs == [] then "" else if |fs| == 1 then fs[0] else fs[0] + ofs + Join(fs[1..], ofs)
  }

  /** The record with its newlines replaced by the separator. */
  function Blend(r: string, sep: char): (b: string)
    ensures |b| == |r| && forall i :: 0 <= i < |r| ==> b[i] == if r[i] == '\n' then sep else r[i]
  {
    seq(|r|, i requires 0 <= i < |r| => if r[i] == '\n' then sep else r[i])
  }

  function Separators(r: string, sep: char): nat {
    if r == "" then 0 else (if IsSep(r[0], sep) then 1 else 0) + Separators(r[1..], sep)
  }

  /** Joining the fields gives the record back, but for its newlines. */
  lemma {:induction false} JoinCut(r: string, sep: char)
    ensures Join(Cut(r, sep), [sep]) == Blend(r, sep)
    decreases |r|
  {
    var k := Until(r, sep);
    UntilIs(r, sep, k);
    if k == |r| {
      BlendKeeps(r, sep);
    } else {
      JoinCut(r[k + 1..], sep);
      assert Cut(r, sep)[1..] == Cut(r[k + 1..], sep);
      BlendAt(r, sep, k);
    }
  }

  /** Without newlines nothing is replaced. */
  lemma {:induction false} BlendKeeps(r: string, sep: char)
    ensures Blend(r, sep) == r <==> sep == '\n' || '\n' !in r
  {
  }

  lemma {:induction false} BlendAt(r: string, sep: char, k: nat)
    requires k < |r| && EndsAt(r, sep, k)
    ensures Blend(r, sep) == r[..k] + [sep] + Blend(r[k + 1..], sep)
  {
  }

  lemma {:induction false} NoSeparators(r: string, sep: char, k: nat)
    requires k <= |r| && forall i :: 0 <= i < k ==> !IsSep(r[i], sep)
    ensures Separators(r, sep) == Separators(r[k..], sep)
    decreases k
  {
    if k > 0 {
      NoSeparators(r[1..], sep, k - 1);
      assert r[1..][k - 1..] == r[k..];
    } else {
      assert r[0..] == r;
    }
  }

  /** There is one field more than separators. */
  lemma {:induction false} CutCount(r: string, sep: char)
    ensures |Cut(r, sep)| == 1 + Separators(r, sep)
    decreases |r|
  {
    var k := Until(r, sep);
    UntilIs(r, sep, k);
    NoSeparators(r, sep, k);
    if k < |r| {
      CutCount(r[k + 1..], sep);
      assert r[k..][1..] == r[k + 1..];
    }
  }

  /** No field holds a separator. */
  ghost predicate Clean(fs: seq<string>, sep: char) {
    forall f :: f in fs ==> forall i :: 0 <= i < |f| ==> !IsSep(f[i], sep)
  }

  lemma {:induction false} CutClean(r: string, sep: char)
    ensures Clean(Cut(r, sep), sep)
    decreases |r|
  {
    var k := Until(r, sep);
    UntilIs(r, sep, k);
    if k < |r| { CutClean(r[k + 1..], sep); }
  }

  lemma {:induction false} CutFirst(f: string, rest: string, sep: char)
    requires forall i :: 0 <= i < |f| ==> !IsSep(f[i], sep)
    ensures Cut(f + [sep] + rest, sep) == [f] + Cut(rest, sep)
  {
    var r := f + [sep] + rest;
    assert r[|f|] == sep && r[..|f|] == f && r[|f| + 1..] == rest;
    UntilIs(r, sep, |f|);
  }

  lemma {:induction false} CutJoin(fs: seq<string>, sep: char)
    requires fs != [] && Clean(fs, sep)
    ensures Cut(Join(fs, [sep]), sep) == fs
  {
    hide IsSep, Until;
    var r := Join(fs, [sep]);
    var f := fs[0];
    assert f in fs;
    if |fs| == 1 {
      UntilIs(r, sep, |r|);
    } else {
      var rest := Join(fs[1..], [sep]);
      CutFirst(f, rest, sep);
      forall g | g in fs[1..] ensures g in fs {}
      CutJoin(fs[1..], sep);
    }
  }

  /** The fields of a record are the only ones without separators that join to it, but for its
      newlines. */
  lemma {:induction false} CutExactly(r: string, fs: seq<string>, sep: char)
    ensures fs == Cut(r, sep) <==> fs != [] && Clean(fs, sep) && Join(fs, [sep]) == Blend(r, sep)
  {
    JoinCut(r, sep);
    CutClean(r, sep);
    CutJoin(Cut(r, sep), sep);
    if fs != [] && Clean(fs, sep) { CutJoin(fs, sep); }
  }

  // ---------- white space ----------

  predicate IsBlank(c: char) {
    c == ' ' || c == '\t' || c == '\n'
  }

  function SkipBlanks(r: string): (t: string)
    ensures |t| <= |r| && (t != "" ==> !IsBlank(t[0]))
  {
    if r != "" && IsBlank(r[0]) then SkipBlanks(r[1..]) else r
  }

  function WordEnd(r: string): (k: nat)
    ensures k <= |r| && (r != "" && !IsBlank(r[0]) ==> k > 0)
  {
    if r == "" || IsBlank(r[0]) then 0 else 1 + WordEnd(r[1..])
  }

  predicate NoBlank(f: string) {
    forall i :: 0 <= i < |f| ==> !IsBlank(f[i])
  }

  /** A word in front of a blank or of the end. */
  lemma {:induction false} WordEndIs(f: string, rest: string)
    requires NoBlank(f) && (rest == "" || IsBlank(rest[0]))
    ensures WordEnd(f + rest) == |f|
  {
    if f == "" {
      assert f + rest == rest;
    } else {
      assert (f + rest)[1..] == f[1..] + rest;
      WordEndIs(f[1..], rest);
    }
  }

  lemma {:induction false} WordEndMeans(r: string)
    ensures NoBlank(r[..WordEnd(r)])
  {
    if r != "" && !IsBlank(r[0]) {
      WordEndMeans(r[1..]);
      assert r[..WordEnd(r)] == [r[0]] + r[1..][..WordEnd(r[1..])];
    }
  }

  /** The words of a record. */
  function Words(r: string): seq<string>
    decreases |r|
  {
    var t := SkipBlanks(r);
    if t == "" then [] else [t[..WordEnd(t)]] + Words(t[WordEnd(t)..])
  }

  predicate IsWord(f: string) {
    f != "" && NoBlank(f)
  }

  lemma {:induction false} WordsAreWords(r: string)
    ensures forall i :: 0 <= i < |Words(r)| ==> IsWord(Words(r)[i])
    decreases |r|
  {
    var t := SkipBlanks(r);
    if t != "" {
      WordEndMeans(t);
      WordsAreWords(t[WordEnd(t)..]);
    }
  }

  /** Words joined by blanks are the words again. */
  lemma {:induction false} WordsJoin(fs: seq<string>)
    requires forall i :: 0 <= i < |fs| ==> IsWord(fs[i])
    ensures Words(Join(fs, " ")) == fs
  {
    if fs != [] {
      var f := fs[0];
      var rest := if |fs| == 1 then "" else " " + Join(fs[1..], " ");
      JoinFirst(fs);
      WordsFirst(f, rest);
      WordsJoin(fs[1..]);
      if |fs| > 1 {
        assert rest[1..] == Join(fs[1..], " ");
      }
    }
  }

  lemma {:induction false} JoinFirst(fs: seq<string>)
    requires fs != []
    ensures Join(fs, " ") == fs[0] + if |fs| == 1 then "" else " " + Join(fs[1..], " ")
  {
    assert fs[0] + "" == fs[0];
    assert fs[0] + " " + Join(fs[1..], " ") == fs[0] + (" " + Join(fs[1..], " "));
  }

  lemma {:induction false} WordsFirst(f: string, rest: string)
    requires IsWord(f) && (rest == "" || IsBlank(rest[0]))
    ensures Words(f + rest) == [f] + Words(rest)
    ensures rest != "" ==> Words(rest) == Words(rest[1..])
  {
    var r := f + rest;
    WordEndIs(f, rest);
    assert r[0] == f[0] && SkipBlanks(r) == r && r[..|f|] == f && r[|f|..] == rest;
  }

  // A record with its words, told apart from the program's loops: blanks are space, tab and
  // newline, and every word is as long as it can be.

  ghost predicate IsGap(g: string) {
    forall i :: 0 <= i < |g| ==> g[i] in {' ', '\t', '\n'}
  }

  ghost predicate IsSolid(f: string) {
    f != "" && forall i :: 0 <= i < |f| ==> f[i] !in {' ', '\t', '\n'}
  }

  /** Gaps and words in turn. */
  function Weave(gaps: seq<string>, fs: seq<string>): string
    requires |gaps| == |fs| + 1
  {
    if fs == [] then gaps[0] else gaps[0] + (fs[0] + Weave(gaps[1..], fs[1..]))
  }

  /** Only the first gap and the last may be empty. */
  ghost predicate Apart(gaps: seq<string>, fs: seq<string>) {
    && |gaps| == |fs| + 1
    && (forall i :: 0 <= i < |gaps| ==> IsGap(gaps[i]) && (0 < i < |fs| ==> gaps[i] != ""))
    && (forall i :: 0 <= i < |fs| ==> IsSolid(fs[i]))
  }

  ghost predicate Woven(r: string, fs: seq<string>) {
    exists gaps :: Apart(gaps, fs) && r == Weave(gaps, fs)
  }

  lemma {:induction false} SkipGap(g: string, r: string)
    requires IsGap(g)
    ensures SkipBlanks(g + r) == SkipBlanks(r) && Words(g + r) == Words(r)
    decreases |g|
  {
    if g == "" {
      assert g + r == r;
    } else {
      assert (g + r)[1..] == g[1..] + r;
      SkipGap(g[1..], r);
    }
  }

  lemma {:induction false} SkipIs(r: string)
    ensures exists g :: IsGap(g) && r == g + SkipBlanks(r)
  {
    if r != "" && IsBlank(r[0]) {
      SkipIs(r[1..]);
      var g :| IsGap(g) && r[1..] == g + SkipBlanks(r[1..]);
      assert IsGap([r[0]] + g) && r == [r[0]] + g + SkipBlanks(r);
    } else {
      assert IsGap("") && r == "" + SkipBlanks(r);
    }
  }

  lemma {:induction false} ApartRest(gaps: seq<string>, fs: seq<string>)
    requires Apart(gaps, fs) && fs != []
    ensures Apart(gaps[1..], fs[1..])
    ensures var rest := Weave(gaps[1..], fs[1..]); rest == "" || IsBlank(rest[0])
  {
    assert IsGap(gaps[1]);
    assert |fs| > 1 ==> gaps[1] != "";
  }

  /** Words with gaps between them are those words. */
  lemma {:induction false} WeaveWords(gaps: seq<string>, fs: seq<string>)
    requires Apart(gaps, fs)
    ensures Words(Weave(gaps, fs)) == fs
    decreases |fs|
  {
    if fs == [] {
      SkipGap(gaps[0], "");
      assert gaps[0] + "" == gaps[0];
    } else {
      var rest := Weave(gaps[1..], fs[1..]);
      ApartRest(gaps, fs);
      SkipGap(gaps[0], fs[0] + rest);
      assert IsSolid(fs[0]);
      WordsFirst(fs[0], rest);
      WeaveWords(gaps[1..], fs[1..]);
    }
  }

  lemma {:induction false} WordEndStops(r: string)
    ensures WordEnd(r) < |r| ==> IsBlank(r[WordEnd(r)])
  {
    if r != "" && !IsBlank(r[0]) { WordEndStops(r[1..]); }
  }

  lemma WordFirst(gaps: seq<string>, fs: seq<string>)
    requires Apart(gaps, fs)
    ensures fs != [] && gaps[0] == "" ==> Weave(gaps, fs) != "" && !IsBlank(Weave(gaps, fs)[0])
  {
    assert fs != [] ==> IsSolid(fs[0]);
    assert fs != [] && gaps[0] == "" ==> Weave(gaps, fs) == fs[0] + Weave(gaps[1..], fs[1..]);
  }

  lemma {:induction false} WeaveMore(g: string, f: string, gaps: seq<string>, fs: seq<string>)
    requires IsGap(g) && IsSolid(f) && Apart(gaps, fs)
    requires var rest := Weave(gaps, fs); rest == "" || IsBlank(rest[0])
    ensures Woven(g + (f + Weave(gaps, fs)), [f] + fs)
  {
    var gaps', fs' := [g] + gaps, [f] + fs;
    assert gaps'[1..] == gaps && fs'[1..] == fs;
    WordFirst(gaps, fs);
    assert Apart(gaps', fs');
  }

  lemma {:induction false} FirstWord(t: string)
    requires t != "" && !IsBlank(t[0])
    ensures var k := WordEnd(t);
      IsSolid(t[..k]) && t == t[..k] + t[k..] && (t[k..] == "" || IsBlank(t[k..][0]))
  {
    WordEndMeans(t);
    WordEndStops(t);
  }

  lemma OnlyGap(g: string)
    requires IsGap(g)
    ensures Woven(g, [])
  {
    assert Apart([g], []) && g == Weave([g], []);
  }

  lemma {:induction false} WordsWoven(r: string)
    ensures Woven(r, Words(r))
    decreases |r|
  {
    hide WordEnd, Weave, IsGap, IsSolid;
    var t := SkipBlanks(r);
    SkipIs(r);
    var g :| IsGap(g) && r == g + t;
    if t == "" {
      assert g == r;
      OnlyGap(g);
    } else {
      var k := WordEnd(t);
      FirstWord(t);
      WordsWoven(t[k..]);
      var gaps :| Apart(gaps, Words(t[k..])) && t[k..] == Weave(gaps, Words(t[k..]));
      WeaveMore(g, t[..k], gaps, Words(t[k..]));
    }
  }

  /** The words are the only ones that make up the record with gaps between them. */
  lemma {:induction false} WordsExactly(r: string, fs: seq<string>)
    ensures fs == Words(r) <==> Woven(r, fs)
  {
    WordsWoven(r);
    if gaps :| Apart(gaps, fs) && r == Weave(gaps, fs) { WeaveWords(gaps, fs); }
  }

  /** Splitting a rebuilt record gives the same fields. */
  lemma {:induction false} WordsStable(r: string)
    ensures Words(Join(Words(r), " ")) == Words(r)
  {
    WordsAreWords(r);
    WordsJoin(Words(r));
  }

  /** Whatever the separator is, the whole of it stands in front of every field but the first. */
  lemma {:induction false} JoinNext(fs: seq<string>, f: string, ofs: string)
    ensures Join(fs + [f], ofs) == if fs == [] then f else Join(fs, ofs) + ofs + f
  {
    if fs != [] {
      var more := fs[1..] + [f];
      assert (fs + [f])[1..] == more;
      JoinNext(fs[1..], f, ofs);
      if |fs| > 1 {
        Concatenated(fs[0], ofs, Join(fs[1..], ofs), ofs, f);
      }
    }
  }

  lemma Concatenated(a: string, b: string, c: string, d: string, e: string)
    ensures a + b + (c + d + e) == a + b + c + d + e
  {
  }

  // ---------- the program ----------

  /** What fits into n bytes. */
  function Clip(s: string, n: nat): string {
    if |s| <= n then s else s[..n]
  }

  /** One field copied up to its separator. */
  method CopyField(r: string, at: nat, sep: char) returns (f: string, end: nat)
    requires at <= |r|
    ensures end == at + Until(r[at..], sep) && end <= |r| && f == r[at..end]
  {
    f, end := "", at;
    while end < |r| && r[end] != sep && r[end] != '\n'
      invariant at <= end <= |r| && f == r[at..end] && forall i :: at <= i < end ==> !IsSep(r[i], sep)
    {
      f := f + [r[end]];
      end := end + 1;
    }
    UntilIs(r[at..], sep, end - at);
  }

  /** The fields so far, and those of the rest. */
  ghost predicate Cutting(fs: seq<string>, r: string, at: nat, sep: char) {
    at <= |r| && fs + Cut(r[at..], sep) == Cut(r, sep)
  }

  lemma {:induction false} CuttingNext(fs: seq<string>, r: string, at: nat, sep: char, end: nat)
    requires Cutting(fs, r, at, sep) && end == at + Until(r[at..], sep) && end <= |r|
    ensures end == |r| ==> fs + [r[at..end]] == Cut(r, sep)
    ensures end < |r| ==> Cutting(fs + [r[at..end]], r, end + 1, sep)
  {
    var t := r[at..];
    assert t[..end - at] == r[at..end] && (end == |r| ==> t == r[at..end]);
    if end < |r| {
      assert t[end - at + 1..] == r[end + 1..];
      assert fs + ([r[at..end]] + Cut(r[end + 1..], sep)) == fs + [r[at..end]] + Cut(r[end + 1..], sep);
    }
  }

  /** The loop of `fldbld`, which stops when the table is full. */
  method SplitRecord(r: string, sep: char, nfields: nat) returns (fs: seq<string>, ok: bool)
    requires r != ""
    ensures ok <==> |Cut(r, sep)| < nfields
    ensures ok ==> fs == Cut(r, sep)
  {
    fs := [];
    var i: nat, at: nat := 0, 0;
    assert r[0..] == r && [] + Cut(r, sep) == Cut(r, sep);
    while true
      invariant i == |fs| && Cutting(fs, r, at, sep)
      decreases |r| - at
    {
      i := i + 1;
      if i >= nfields {
        return fs, false;
      }
      var f, end := CopyField(r, at, sep);
      CuttingNext(fs, r, at, sep, end);
      fs := fs + [f];
      if end == |r| {
        return fs, true;
      }
      at := end + 1;
    }
  }

  /** One word, from its first letter on. */
  method CopyWord(r: string, at: nat) returns (f: string, end: nat)
    requires at < |r| && !IsBlank(r[at])
    ensures at < end <= |r| && f == r[at..end] && end == at + WordEnd(r[at..])
  {
    f, end := [r[at]], at + 1;
    while end < |r| && !IsBlank(r[end])
      invariant at < end <= |r| && f == r[at..end] && NoBlank(f)
    {
      f := f + [r[end]];
      end := end + 1;
    }
    assert r[at..] == f + r[end..];
    WordEndIs(f, r[end..]);
  }

  method SkipBlank(r: string, at: nat) returns (to: nat)
    requires at <= |r|
    ensures at <= to <= |r| && r[to..] == SkipBlanks(r[at..])
  {
    to := at;
    while to < |r| && IsBlank(r[to])
      invariant at <= to <= |r| && SkipBlanks(r[to..]) == SkipBlanks(r[at..])
    {
      assert r[to..][1..] == r[to + 1..];
      to := to + 1;
    }
  }

  /** The branch of `fldbld` for white space. */
  method SplitWords(r: string, nfields: nat) returns (fs: seq<string>, ok: bool)
    requires nfields > 0
    ensures ok <==> |Words(r)| < nfields
    ensures ok ==> fs == Words(r)
  {
    hide Words, SkipBlanks, WordEnd;
    fs := [];
    var i: nat, at: nat := 0, 0;
    assert r[0..] == r && [] + Words(r) == Words(r);
    while true
      invariant i == |fs| && i < nfields && at <= |r| && fs + Words(r[at..]) == Words(r)
      decreases |r| - at
    {
      SkipFirst(r[at..]);
      at := SkipBlank(r, at);
      if at == |r| {
        return fs, true;
      }
      i := i + 1;
      if i >= nfields {
        return fs, false;
      }
      assert r[at..][0] == r[at];
      var f, end := CopyWord(r, at);
      WordsStep(r, at, end);
      assert fs + ([f] + Words(r[end..])) == fs + [f] + Words(r[end..]);
      fs := fs + [f];
      at := end;
    }
  }

  lemma {:induction false} SkipFirst(t: string)
    ensures var u := SkipBlanks(t); Words(u) == Words(t) && (u == "" ==> Words(u) == []) && (u != "" ==> Words(u) != [])
  {
  }

  lemma {:induction false} WordsStep(r: string, at: nat, end: nat)
    requires at < |r| && !IsBlank(r[at]) && end == at + WordEnd(r[at..]) <= |r|
    ensures Words(r[at..]) == [r[at..end]] + Words(r[end..])
  {
    var t := r[at..];
    assert SkipBlanks(t) == t && t[..end - at] == r[at..end] && t[end - at..] == r[end..];
  }

  /** The current record and its fields. */
  class Record {
    var record: string
    var fields: seq<string>
    var donefld: bool
    var donerec: bool
    const nfields: nat
    const recsize: nat

    constructor (r: string, nfields: nat, recsize: nat)
      ensures record == r && !donefld && donerec && this.nfields == nfields && this.recsize == recsize
    {
      record, fields, donefld, donerec := r, [], false, true;
      this.nfields, this.recsize := nfields, recsize;
    }

    /** `fldbld` for a separator of one character; false if there are too many fields. */
    method FldBld(sep: char) returns (ok: bool)
      modifies this`fields, this`donefld
      requires nfields > 0
      ensures ok <==> old(donefld) || |FieldsOf(record, sep)| < nfields
      ensures ok && !old(donefld) ==> donefld && fields == FieldsOf(record, sep) && AreFields(record, sep, fields)
      ensures old(donefld) ==> fields == old(fields)
    {
      if donefld {
        return true;
      }
      var fs: seq<string> := [];
      ok := true;
      if sep == ' ' {
        fs, ok := SplitWords(record, nfields);
      } else if record != "" {
        fs, ok := SplitRecord(record, sep, nfields);
      }
      if !ok {
        return;
      }
      FieldsExactly(record, sep, fs);
      fields, donefld := fs, true;
    }

    /** `recbld`: a record that is too long is cut off. */
    method RecBld(ofs: string)
      modifies this`record, this`donerec
      ensures donerec
      ensures record == if old(donerec) then old(record)
        else Clip(Join(fields, ofs), if recsize > 0 then recsize - 1 else 0)
    {
      if donerec {
        return;
      }
      var limit := if recsize > 0 then recsize - 1 else 0;
      var rec := "";
      var i := 0;
      while i < |fields|
        invariant 0 <= i <= |fields| && fields == old(fields)
        invariant rec == Clip(Front(fields, i, ofs), limit)
      {
        rec := Append(rec, fields[i], limit);
        ClipAppend(Front(fields, i, ofs), fields[i], limit);
        if i + 1 < |fields| {
          rec := Append(rec, ofs, limit);
          ClipAppend(Front(fields, i, ofs) + fields[i], ofs, limit);
        }
        i := i + 1;
      }
      FrontIsJoin(fields, ofs);
      record, donerec := rec, true;
    }
  }

  /** The fields of a record: its words if the separator is a blank; an empty record has none. */
  function FieldsOf(r: string, sep: char): seq<string> {
    if sep == ' ' then Words(r) else if r == "" then [] else Cut(r, sep)
  }

  /** What the fields of a record are: words with gaps between them if the separator is a blank,
      else none of an empty record, and of any other the pieces without separator or newline that
      the separator joins to the record, but for its newlines. */
  ghost predicate AreFields(r: string, sep: char, fs: seq<string>) {
    if sep == ' ' then Woven(r, fs)
    else if r == "" then fs == []
    else
      && fs != [] && Join(fs, [sep]) == Blend(r, sep)
      && forall f :: f in fs ==> sep !in f && '\n' !in f
  }

  lemma {:induction false} FieldsExactly(r: string, sep: char, fs: seq<string>)
    ensures fs == FieldsOf(r, sep) <==> AreFields(r, sep, fs)
  {
    if sep == ' ' {
      WordsExactly(r, fs);
    } else if r != "" {
      CutExactly(r, fs, sep);
      assert Clean(fs, sep) <==> forall f :: f in fs ==> sep !in f && '\n' !in f;
    }
  }

  /** Copies as much of s as there is room for. */
  method Append(rec: string, s: string, limit: nat) returns (r: string)
    requires |rec| <= limit
    ensures r == Clip(rec + s, limit)
  {
    r := rec;
    var j := 0;
    while |r| < limit && j < |s|
      invariant 0 <= j <= |s| && |r| <= limit && r == rec + s[..j]
    {
      r := r + [s[j]];
      j := j + 1;
    }
    assert j == |s| ==> s[..j] == s;
    assert rec + s[..j] == (rec + s)[..|rec| + j];
  }

  lemma ClipAppend(a: string, b: string, n: nat)
    ensures Clip(Clip(a, n) + b, n) == Clip(a + b, n)
  {
    assert |a| > n ==> (a[..n] + b)[..n] == a[..n] == (a + b)[..n];
  }

  /** The first i fields, with what stands between them and behind them. */
  function Front(fs: seq<string>, i: nat, ofs: string): string
    requires i <= |fs|
  {
    if i == 0 then "" else Front(fs, i - 1, ofs) + fs[i - 1] + if i < |fs| then ofs else ""
  }

  lemma {:induction false} FrontShift(fs: seq<string>, i: nat, ofs: string)
    requires 1 <= i <= |fs| && |fs| > 1
    ensures Front(fs, i, ofs) == fs[0] + ofs + Front(fs[1..], i - 1, ofs)
  {
    if i == 1 {
      assert Front(fs, 0, ofs) == "" && "" + fs[0] + ofs == fs[0] + ofs + "";
    } else {
      FrontShift(fs, i - 1, ofs);
      var t := fs[1..];
      assert fs[i - 1] == t[i - 2];
      Regroup(fs[0] + ofs, Front(t, i - 2, ofs), fs[i - 1], if i < |fs| then ofs else "");
    }
  }

  lemma Regroup(a: string, b: string, c: string, d: string)
    ensures a + b + c + d == a + (b + c + d)
  {
  }

  lemma {:induction false} FrontIsJoin(fs: seq<string>, ofs: string)
    ensures Front(fs, |fs|, ofs) == Join(fs, ofs)
  {
    if |fs| == 1 {
      assert Front(fs, 0, ofs) == "" && "" + fs[0] + "" == fs[0];
    } else if |fs| > 1 {
      FrontShift(fs, |fs|, ofs);
      FrontIsJoin(fs[1..], ofs);
    }
  }

  /** With the separator as OFS, splitting and rebuilding gives the record back exactly if it has
      no newline and fits; there is one field more than separators. */
  lemma {:induction false} RebuiltExactly(r: string, sep: char, limit: nat)
    requires r != "" && sep != ' '
    ensures |FieldsOf(r, sep)| == 1 + Separators(r, sep)
    ensures Clip(Join(FieldsOf(r, sep), [sep]), limit) == r <==> |r| <= limit && (sep == '\n' || '\n' !in r)
  {
    CutCount(r, sep);
    JoinCut(r, sep);
    BlendKeeps(r, sep);
  }
}
