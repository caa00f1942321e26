/** `gsub` of cmd/awk/run.c over `pmatch`: the target is cut into stretches that are kept
    and matches that are replaced.
 */
module AwkGsub {
  import opened AwkRegex
  import opened AwkGlushkov
  import opened AwkFollow
  import opened AwkTable
  import opened AwkMatch
  import opened AwkDfa

  const AMPERSAND: nat := '&' as nat
  const BACKSLASH: nat := '\\' as nat

  /** SUBSIZE - 1, where SUBSIZE is twenty times RECSIZE. */
  const LIMIT: nat := 20 * 3 * 1024 - 1

  // ---------- what is to be computed ----------

  /** The replacement text for a match: `&` stands for the match, `\&` for an ampersand. */
  function Expand(repl: seq<nat>, matched: seq<nat>): seq<nat> {
    if repl == [] then []
    else if repl[0] == BACKSLASH && |repl| > 1 && repl[1] == AMPERSAND then
      [AMPERSAND] + Expand(repl[2..], matched)
    else if repl[0] == AMPERSAND then matched + Expand(repl[1..], matched)
    else [repl[0]] + Expand(repl[1..], matched)
  }

  datatype Piece = Keep(text: seq<nat>) | Subst(text: seq<nat>)

  /** The text that the pieces were cut from. */
  function Source(ps: seq<Piece>): seq<nat> {
    if ps == [] then [] else ps[0].text + Source(ps[1..])
  }

  /** The text after replacing every match. */
  function Rewritten(ps: seq<Piece>, repl: seq<nat>): seq<nat> {
    if ps == [] then []
    else (if ps[0].Keep? then ps[0].text else Expand(repl, ps[0].text)) + Rewritten(ps[1..], repl)
  }

  function Matches(ps: seq<Piece>): nat {
    if ps == [] then 0 else (if ps[0].Subst? then 1 else 0) + Matches(ps[1..])
  }

  /** What an empty match in front of a byte contributes. */
  function EmptyPieces(mflag: bool, s: seq<nat>): seq<Piece>
    requires s != []
  {
    (if mflag then [] else [Subst([])]) + [Keep(s[..1])]
  }

  /** The leftmost-longest match in `s`, if there is one. */
  datatype Best = NoMatch | BestAt(b: nat, n: nat)

  ghost function BestMatch(r: Re, s: seq<nat>, hat: bool): (m: Best)
    ensures m.BestAt? ==> m.b + m.n <= |s|
  {
    if b, n :| LeftmostLongest(r, s, hat, true, b, n) then BestAt(b, n) else NoMatch
  }

  /** Cut `s` at successive leftmost-longest matches. `hat` tells whether `^` can match at
      its front. An empty match right behind a non-empty one (`mflag`) is not replaced, and
      one byte is kept after each empty match. Nothing is tried behind a match that
      reaches the end. */
  ghost function Tiling(r: Re, s: seq<nat>, hat: bool, mflag: bool): seq<Piece>
    decreases |s|
  {
    match BestMatch(r, s, hat)
    case NoMatch => [Keep(s)]
    case BestAt(b, n) =>
      if n == 0 && b < |s| then
        EmptyPieces(mflag, s) + Tiling(r, s[1..], false, false)
      else if b + n == |s| then [Keep(s[..b]), Subst(s[b..])]
      else [Keep(s[..b]), Subst(s[b..b + n])] + Tiling(r, s[b + n..], false, true)
  }

  // ---------- facts about the cutting ----------

  /** A leftmost-longest match is unique, so what `pmatch` reports is the best match. */
  lemma BestIsOnly(r: Re, s: seq<nat>, hat: bool, found: bool, b: int, n: int)
    requires LeftmostLongest(r, s, hat, found, b, n)
    ensures found ==> 0 <= b && 0 <= n && b + n <= |s| && BestMatch(r, s, hat) == BestAt(b, n)
    ensures !found ==> BestMatch(r, s, hat) == NoMatch
  {
  }

  /** An empty match that is not at the end is found where the search begins. */
  lemma EmptyMatchIsLeft(r: Re, s: seq<nat>, hat: bool, b: int)
    requires LeftmostLongest(r, s, hat, true, b, 0) && b < |s|
    ensures b == 0
  {
    assert s[b..b + 0] == [] && s[0..0] == [];
    if In(r, []) {
      assert MatchAt(r, s, 0, 0, hat);
    }
  }

  /** The pieces of `s` when the match found is at `b` with length `n` and what comes
      behind it is cut into `tail`. */
  function CutAt(s: seq<nat>, mflag: bool, b: nat, n: nat, tail: seq<Piece>): seq<Piece>
    requires b + n <= |s|
  {
    if n == 0 && b < |s| then EmptyPieces(mflag, s) + tail
    else if b + n == |s| then [Keep(s[..b]), Subst(s[b..])]
    else [Keep(s[..b]), Subst(s[b..b + n])] + tail
  }

  /** How much of `s` a match deals with. */
  function Used(s: seq<nat>, b: nat, n: nat): nat {
    if n == 0 && b < |s| then 1 else b + n
  }

  /** How what lies behind the match is cut. */
  ghost function Tail(r: Re, s: seq<nat>, b: nat, n: nat): seq<Piece>
    requires b + n <= |s|
  {
    Tiling(r, s[Used(s, b, n)..], false, n > 0 || b == |s|)
  }

  lemma {:induction false} TilingAt(r: Re, s: seq<nat>, hat: bool, mflag: bool, b: nat, n: nat)
    requires BestMatch(r, s, hat) == BestAt(b, n)
    ensures b + n <= |s|
    ensures b + n == |s| || Tiling(r, s, hat, mflag) == CutAt(s, mflag, b, n, Tail(r, s, b, n))
    ensures b + n == |s| ==> Tiling(r, s, hat, mflag) == CutAt(s, mflag, b, n, [])
  {
    hide BestMatch, EmptyPieces;
    if n == 0 && b < |s| {
      assert Tiling(r, s, hat, mflag) == EmptyPieces(mflag, s) + Tiling(r, s[1..], false, false);
    } else if b + n < |s| {
      var tail := Tiling(r, s[b + n..], false, true);
      assert Tiling(r, s, hat, mflag) == [Keep(s[..b]), Subst(s[b..b + n])] + tail;
    }
  }

  lemma {:induction false} SourceConcat(ps: seq<Piece>, qs: seq<Piece>)
    ensures Source(ps + qs) == Source(ps) + Source(qs)
  {
    if ps == [] {
      assert ps + qs == qs;
    } else {
      assert (ps + qs)[1..] == ps[1..] + qs;
      SourceConcat(ps[1..], qs);
    }
  }

  lemma {:induction false} RewrittenConcat(ps: seq<Piece>, qs: seq<Piece>, repl: seq<nat>)
    ensures Rewritten(ps + qs, repl) == Rewritten(ps, repl) + Rewritten(qs, repl)
  {
    if ps == [] {
      assert ps + qs == qs;
    } else {
      assert (ps + qs)[1..] == ps[1..] + qs;
      RewrittenConcat(ps[1..], qs, repl);
    }
  }

  lemma {:induction false} MatchesConcat(ps: seq<Piece>, qs: seq<Piece>)
    ensures Matches(ps + qs) == Matches(ps) + Matches(qs)
  {
    if ps == [] {
      assert ps + qs == qs;
    } else {
      assert (ps + qs)[1..] == ps[1..] + qs;
      MatchesConcat(ps[1..], qs);
    }
  }

  lemma SourceTwo(p: Piece, q: Piece)
    ensures Source([p, q]) == p.text + q.text
  {
    assert [p, q][1..] == [q];
    assert Source([q]) == q.text + Source([]);
  }

  lemma CoverEmpty(mflag: bool, s: seq<nat>, rest: seq<Piece>)
    requires s != [] && Source(rest) == s[1..]
    ensures Source(EmptyPieces(mflag, s) + rest) == s
  {
    SourceConcat(EmptyPieces(mflag, s), rest);
    if mflag {
      assert EmptyPieces(mflag, s) == [Keep(s[..1])];
      assert Source([Keep(s[..1])]) == s[..1];
    } else {
      assert EmptyPieces(mflag, s) == [Subst([]), Keep(s[..1])];
      SourceTwo(Subst([]), Keep(s[..1]));
    }
    assert s == s[..1] + s[1..];
  }

  lemma CoverFull(s: seq<nat>, b: nat, n: nat, rest: seq<Piece>)
    requires b + n <= |s| && Source(rest) == s[b + n..]
    ensures Source([Keep(s[..b]), Subst(s[b..b + n])] + rest) == s
  {
    SourceConcat([Keep(s[..b]), Subst(s[b..b + n])], rest);
    SourceTwo(Keep(s[..b]), Subst(s[b..b + n]));
    assert s == s[..b] + s[b..b + n] + s[b + n..];
  }

  lemma CutCovers(s: seq<nat>, mflag: bool, b: nat, n: nat, tail: seq<Piece>)
    requires b + n <= |s| && (b + n == |s| || Source(tail) == s[Used(s, b, n)..])
    ensures Source(CutAt(s, mflag, b, n, tail)) == s
  {
    if n == 0 && b < |s| {
      CoverEmpty(mflag, s, tail);
    } else if b + n == |s| {
      CoverFull(s, b, n, []);
      assert s[b..b + n] == s[b..];
      assert [Keep(s[..b]), Subst(s[b..])] + [] == [Keep(s[..b]), Subst(s[b..])];
    } else {
      CoverFull(s, b, n, tail);
    }
  }

  /** Nothing is lost: the pieces, in order, are the target. */
  lemma {:induction false} TilingCovers(r: Re, s: seq<nat>, hat: bool, mflag: bool)
    ensures Source(Tiling(r, s, hat, mflag)) == s
    decreases |s|
  {
    match BestMatch(r, s, hat)
    case NoMatch =>
      assert Source([Keep(s)]) == s + Source([]);
    case BestAt(b, n) =>
      TilingAt(r, s, hat, mflag, b, n);
      if b + n < |s| {
        TilingCovers(r, s[Used(s, b, n)..], false, n > 0 || b == |s|);
        CutCovers(s, mflag, b, n, Tail(r, s, b, n));
      } else {
        CutCovers(s, mflag, b, n, []);
      }
  }

  /** Replacing every match by itself changes nothing. */
  lemma {:induction false} AmpersandKeeps(ps: seq<Piece>)
    ensures Rewritten(ps, [AMPERSAND]) == Source(ps)
  {
    if ps != [] {
      AmpersandKeeps(ps[1..]);
      assert Expand([AMPERSAND], ps[0].text) == ps[0].text;
    }
  }

  /** `gsub` with replacement "&" leaves every target unchanged. */
  lemma GsubAmpersand(r: Re, s: seq<nat>)
    ensures Rewritten(Tiling(r, s, true, false), [AMPERSAND]) == s
  {
    AmpersandKeeps(Tiling(r, s, true, false));
    TilingCovers(r, s, true, false);
  }

  // ---------- gsub ----------

  datatype GsubResult = ResultTooBig | Done(text: seq<nat>, num: nat)

  /** The buffer has what it should, or it is full and should be. */
  ghost predicate Copied(out: seq<nat>, should: seq<nat>) {
    out == should || (|out| >= LIMIT && |should| >= LIMIT)
  }

  // What a replacement is made of, apart from how it is read.

  /** The match, or a byte. */
  datatype Part = Match | Byte(c: nat)

  /** How it is written. */
  function PartText(p: Part): seq<nat> {
    if p.Match? then [AMPERSAND] else if p.c == AMPERSAND then [BACKSLASH, AMPERSAND] else [p.c]
  }

  function PartsText(ps: seq<Part>): seq<nat> {
    if ps == [] then [] else PartText(ps[0]) + PartsText(ps[1..])
  }

  /** What it gives. */
  function Meant(ps: seq<Part>, matched: seq<nat>): seq<nat> {
    if ps == [] then [] else (if ps[0].Match? then matched else [ps[0].c]) + Meant(ps[1..], matched)
  }

  /** A backslash in front of the match cannot be written. */
  predicate Writable(ps: seq<Part>) {
    forall i :: 0 <= i < |ps| - 1 ==> ps[i] == Byte(BACKSLASH) ==> ps[i + 1] != Match
  }

  /** A replacement that is written in this way gives what it should. */
  lemma {:induction false} ExpandMeans(ps: seq<Part>, matched: seq<nat>)
    requires Writable(ps)
    ensures Expand(PartsText(ps), matched) == Meant(ps, matched)
  {
    if ps != [] {
      var text, rest := PartsText(ps), PartsText(ps[1..]);
      forall i | 0 <= i < |ps[1..]| - 1 ensures ps[1..][i] == Byte(BACKSLASH) ==> ps[1..][i + 1] != Match {
        assert ps[1..][i] == ps[i + 1] && ps[1..][i + 1] == ps[i + 2];
      }
      ExpandMeans(ps[1..], matched);
      if ps[0] == Byte(AMPERSAND) {
        assert text[2..] == rest;
      } else {
        assert text[1..] == rest;
        if |ps| > 1 {
          assert rest == PartText(ps[1]) + PartsText(ps[1..][1..]) && rest[0] == PartText(ps[1])[0];
        }
      }
    }
  }

  /** And every replacement is written in this way. */
  lemma {:induction false} EveryReplacement(repl: seq<nat>) returns (ps: seq<Part>)
    ensures Writable(ps) && PartsText(ps) == repl
    decreases |repl|
  {
    if repl == [] {
      ps := [];
    } else if |repl| > 1 && repl[0] == BACKSLASH && repl[1] == AMPERSAND {
      var qs := EveryReplacement(repl[2..]);
      ps := [Byte(AMPERSAND)] + qs;
      assert ps[1..] == qs && repl == [BACKSLASH, AMPERSAND] + repl[2..];
    } else {
      var qs := EveryReplacement(repl[1..]);
      ps := [if repl[0] == AMPERSAND then Match else Byte(repl[0])] + qs;
      assert ps[1..] == qs && repl == [repl[0]] + repl[1..];
      if qs != [] && qs[0] == Match { assert PartsText(qs)[0] == AMPERSAND; }
    }
  }

  /** The replacement from its next byte on. */
  lemma ExpandNext(repl: seq<nat>, i: nat, matched: seq<nat>)
    requires i < |repl|
    ensures Expand(repl[i..], matched) ==
      if repl[i] == BACKSLASH && i + 1 < |repl| && repl[i + 1] == AMPERSAND then
        [AMPERSAND] + Expand(repl[i + 2..], matched)
      else if repl[i] == AMPERSAND then matched + Expand(repl[i + 1..], matched)
      else [repl[i]] + Expand(repl[i + 1..], matched)
  {
    var rest := repl[i..];
    assert rest[1..] == repl[i + 1..];
    if |rest| > 1 { assert rest[2..] == repl[i + 2..]; }
  }

  /** The loop that copies the replacement; it stops silently when the buffer is full. */
  method AppendReplacement(buf: seq<nat>, repl: seq<nat>, matched: seq<nat>) returns (out: seq<nat>)
    ensures Copied(out, buf + Expand(repl, matched)) && |out| >= |buf|
  {
    out := buf;
    var i := 0;
    ghost var all := buf + Expand(repl, matched);
    assert repl[0..] == repl && Expand([], matched) == [];
    hide Expand, Makes;
    MakesStart(buf, Expand(repl, matched));
    while i < |repl| && |out| < LIMIT
      invariant 0 <= i <= |repl| && |out| >= |buf|
      invariant Makes(out, Expand(repl[i..], matched), all)
    {
      ExpandNext(repl, i, matched);
      if repl[i] == BACKSLASH && i + 1 < |repl| && repl[i + 1] == AMPERSAND {
        MakesNext(out, [AMPERSAND], Expand(repl[i + 2..], matched), all);
        out := out + [AMPERSAND];
        i := i + 2;
      } else if repl[i] == AMPERSAND {
        MakesNext(out, matched, Expand(repl[i + 1..], matched), all);
        out := out + matched;
        i := i + 1;
      } else {
        MakesNext(out, [repl[i]], Expand(repl[i + 1..], matched), all);
        out := out + [repl[i]];
        i := i + 1;
      }
    }
    assert repl[|repl|..] == [];
    MakesEnd(out, Expand(repl[i..], matched), all);
  }

  /** What is there and what is still to come. */
  ghost predicate Makes(out: seq<nat>, rest: seq<nat>, all: seq<nat>) {
    out + rest == all
  }

  lemma MakesStart(out: seq<nat>, rest: seq<nat>)
    ensures Makes(out, rest, out + rest)
  {
  }

  lemma MakesNext(out: seq<nat>, part: seq<nat>, rest: seq<nat>, all: seq<nat>)
    requires Makes(out, part + rest, all)
    ensures Makes(out + part, rest, all)
  {
    Regroup(out, part, rest);
  }

  lemma MakesEnd(out: seq<nat>, rest: seq<nat>, all: seq<nat>)
    requires Makes(out, rest, all)
    ensures |out| <= |all| && (rest == [] ==> out == all)
  {
    assert out + [] == out;
  }

  lemma Regroup(a: seq<nat>, b: seq<nat>, c: seq<nat>)
    ensures a + (b + c) == a + b + c
  {
  }

  /** The loop that copies the text in front of a match. */
  method AppendText(buf: seq<nat>, text: seq<nat>) returns (out: seq<nat>)
    ensures Copied(out, buf + text) && |out| >= |buf|
  {
    out := buf;
    var i := 0;
    while i < |text| && |out| < LIMIT
      invariant 0 <= i <= |text|
      invariant out == buf + text[..i]
    {
      out := out + [text[i]];
      i := i + 1;
    }
  }

  /** When HAT makes no difference to the automaton, `^` makes none to the matches. */
  lemma HatIrrelevant(a: Auto, r: Re, s: seq<nat>, found: bool, b: int, n: int)
    requires Compiled(a, r) && Start(a, r) == Restart(r)
    requires LeftmostLongest(r, s, true, found, b, n)
    ensures LeftmostLongest(r, s, false, found, b, n)
  {
    forall i, m
      ensures MatchAt(r, s, i, m, true) <==> MatchAt(r, s, i, m, false)
    {
      if 0 <= i <= |s| {
        HitMeans(a, r, s, i, m, true);
        HitMeans(a, r, s, i, m, false);
      }
    }
  }

  // ---------- how `gsub` cuts, whatever the table does ----------

  /** The pieces that a match at `b` of length `n` makes. */
  function Head(s: seq<nat>, mflag: bool, b: nat, n: nat): seq<Piece>
    requires b + n <= |s|
  {
    if n == 0 && b < |s| then EmptyPieces(mflag, s) else [Keep(s[..b]), Subst(s[b..b + n])]
  }

  predicate InSubject(found: bool, b: nat, n: int, len: nat) {
    found ==> 0 <= n && b + n <= len
  }

  /** One call of `pmatch`. */
  ghost function Searched(re: seq<Row>, r: Re, d: Table, s: seq<nat>): (res: Search)
    requires Usable(re, r, true, d) && Text(s)
    ensures Usable(re, r, true, res.table) && InSubject(res.found, res.b, res.n, |s|)
    ensures res.table.clears >= d.clears && (d.initstat == 2 ==> res.table.initstat == 2)
  {
    SearchedKeeps(re, r, d, s);
    PMatched(re, r, d, s)
  }

  lemma SearchedKeeps(re: seq<Row>, r: Re, d: Table, s: seq<nat>)
    requires Usable(re, r, true, d) && Text(s)
    ensures var res := PMatched(re, r, d, s);
      && Usable(re, r, true, res.table) && InSubject(res.found, res.b, res.n, |s|)
      && res.table.clears >= d.clears && (d.initstat == 2 ==> res.table.initstat == 2)
  {
    hide Usable, PMatched, LeftmostLongest;
    PMatchedAnswers(re, r, d, s);
  }

  lemma TextFrom(s: seq<nat>, i: nat)
    requires Text(s) && i <= |s|
    ensures Text(s[i..])
  {
    assert forall c :: c in s[i..] ==> c in s;
  }

  /** The pieces of `s` from the result of a search in it on, and the table in the end. */
  ghost function CutsFrom(re: seq<Row>, r: Re, res: Search, s: seq<nat>, mflag: bool): (out: (seq<Piece>, Table))
    requires Usable(re, r, true, res.table) && Text(s) && InSubject(res.found, res.b, res.n, |s|)
    ensures Usable(re, r, true, out.1)
    ensures out.1.clears >= res.table.clears && (res.table.initstat == 2 ==> out.1.initstat == 2)
    decreases |s|
  {
    if !res.found then ([Keep(s)], res.table)
    else if res.b + res.n == |s| then (Head(s, mflag, res.b, res.n), res.table)
    else
      TextFrom(s, Used(s, res.b, res.n));
      var rest := s[Used(s, res.b, res.n)..];
      var out := CutsFrom(re, r, Searched(re, r, res.table, rest), rest, res.n > 0);
      (Head(s, mflag, res.b, res.n) + out.0, out.1)
  }

  lemma MovedUsable(re: seq<Row>, r: Re, d: Table, s: nat)
    requires Usable(re, r, true, d) && (s == 2 || s == BeginState(re, r))
    ensures Usable(re, r, true, d.(initstat := s))
  {
  }

  /** The pieces that `gsub` makes of a target, and the table behind it: the first search begins
      where `initstat` says, the later ones in state 2, and in the end `initstat` is put back. */
  ghost function GsubCuts(re: seq<Row>, r: Re, d: Table, str: seq<nat>): (out: (seq<Piece>, Table))
    requires Usable(re, r, true, d) && Text(str)
    ensures out.1.clears >= d.clears
  {
    var res := Searched(re, r, d, str);
    if !res.found then ([Keep(str)], res.table)
    else
      MovedUsable(re, r, res.table, 2);
      var out := CutsFrom(re, r, res.(table := res.table.(initstat := 2)), str, false);
      (out.0, out.1.(initstat := res.table.initstat))
  }

  // ---------- when that is the tiling ----------

  /** The tiling of `s`, from the result of a search in it on. */
  ghost function TilingFrom(r: Re, s: seq<nat>, mflag: bool, found: bool, b: nat, n: int): seq<Piece>
    requires InSubject(found, b, n, |s|)
  {
    if !found then [Keep(s)]
    else if b + n == |s| then Head(s, mflag, b, n)
    else Head(s, mflag, b, n) + Tiling(r, s[Used(s, b, n)..], false, n > 0)
  }

  /** The tiling of `s` begins as the result of a search says. */
  ghost predicate Found(r: Re, s: seq<nat>, hat: bool, mflag: bool, found: bool, b: nat, n: int) {
    InSubject(found, b, n, |s|) && Tiling(r, s, hat, mflag) == TilingFrom(r, s, mflag, found, b, n)
  }

  lemma BestIsFound(r: Re, s: seq<nat>, hat: bool, mflag: bool, found: bool, b: nat, n: int)
    requires LeftmostLongest(r, s, hat, found, b, n)
    ensures Found(r, s, hat, mflag, found, b, n)
  {
    BestIsOnly(r, s, hat, found, b, n);
    if found {
      TilingAt(r, s, hat, mflag, b, n);
      if b + n == |s| { assert s[b..b + n] == s[b..]; }
    }
  }

  /** The first search, when it clears nothing. */
  lemma FirstFound(re: seq<Row>, r: Re, d: Table, s: seq<nat>)
    requires Usable(re, r, true, d) && Text(s) && (d.reset || d.initstat == BeginState(re, r))
    ensures var res := Searched(re, r, d, s);
      res.table.clears == d.clears ==>
        !res.table.reset && res.table.initstat == d.initstat && Found(r, s, true, false, res.found, res.b, res.n)
  {
    hide Usable, PMatched, LeftmostLongest, Found, Calm;
    PMatchedAnswers(re, r, d, s);
    var res := Searched(re, r, d, s);
    if res.table.clears == d.clears { BestIsFound(r, s, true, false, res.found, res.b, res.n); }
  }

  /** A later search, when the table is not cleared: `initstat` is 2, so `^` is not usable. */
  lemma NextFound(re: seq<Row>, r: Re, d: Table, s: seq<nat>, mflag: bool)
    requires Usable(re, r, true, d) && Text(s) && d.initstat == 2 && !d.reset
    ensures var res := Searched(re, r, d, s);
      res.table.clears == d.clears ==> !res.table.reset && Found(r, s, false, mflag, res.found, res.b, res.n)
  {
    hide PMatched, LeftmostLongest, Found, Calm, Fit;
    PMatchedAnswers(re, r, d, s);
    var res := Searched(re, r, d, s);
    if res.table.clears == d.clears {
      if BeginState(re, r) == 2 { HatIrrelevant(AutoOf(re), r, s, res.found, res.b, res.n); }
      BestIsFound(r, s, false, mflag, res.found, res.b, res.n);
    }
  }

  lemma {:induction false} CutsFromRight(re: seq<Row>, r: Re, res: Search, s: seq<nat>, mflag: bool)
    requires Usable(re, r, true, res.table) && Text(s) && InSubject(res.found, res.b, res.n, |s|)
    requires res.table.initstat == 2 && !res.table.reset
    ensures var out := CutsFrom(re, r, res, s, mflag);
      out.1.clears == res.table.clears ==> !out.1.reset && out.0 == TilingFrom(r, s, mflag, res.found, res.b, res.n)
    decreases |s|
  {
    hide Usable, Searched, Tiling, Head;
    if res.found && res.b + res.n < |s| {
      TextFrom(s, Used(s, res.b, res.n));
      var rest := s[Used(s, res.b, res.n)..];
      var next := Searched(re, r, res.table, rest);
      NextFound(re, r, res.table, rest, res.n > 0);
      if next.table.clears == res.table.clears { CutsFromRight(re, r, next, rest, res.n > 0); }
    }
  }

  /** Nothing cleared: the pieces are those of the tiling. */
  lemma CutsRight(re: seq<Row>, r: Re, d: Table, str: seq<nat>)
    requires Usable(re, r, true, d) && Text(str) && (d.reset || d.initstat == BeginState(re, r))
    ensures var out := GsubCuts(re, r, d, str);
      out.1.clears == d.clears ==> out.0 == Tiling(r, str, true, false) && out.1.initstat == d.initstat
  {
    hide Usable, Searched, Tiling, TilingFrom, CutsFrom;
    FirstFound(re, r, d, str);
    var res := Searched(re, r, d, str);
    if res.found {
      MovedUsable(re, r, res.table, 2);
      if res.table.clears == d.clears {
        CutsFromRight(re, r, res.(table := res.table.(initstat := 2)), str, false);
      }
    } else {
      NotFound(r, str);
    }
  }

  lemma NotFound(r: Re, str: seq<nat>)
    ensures TilingFrom(r, str, false, false, 0, -1) == [Keep(str)]
    ensures forall b, n :: TilingFrom(r, str, false, false, b, n) == [Keep(str)]
  {
  }

  // ---------- where the matches are replaced ----------

  /** A match of length `n` at offset `at` of the target. */
  datatype Spot = Spot(at: nat, n: nat)

  /** Where the substituted pieces are, if the first piece is at offset `o`. */
  function Spots(ps: seq<Piece>, o: nat): seq<Spot> {
    if ps == [] then []
    else (if ps[0].Subst? then [Spot(o, |ps[0].text|)] else []) + Spots(ps[1..], o + |ps[0].text|)
  }

  /** An empty match right behind a non-empty one. */
  predicate Behind(x: Spot, y: Spot) {
    x.n > 0 && y.n == 0 && y.at == x.at + x.n
  }

  /** The matches without those right behind the one before, which for the first is `last`. */
  function Without(last: Spot, xs: seq<Spot>): seq<Spot>
    decreases xs
  {
    if xs == [] then [] else (if Behind(last, xs[0]) then [] else [xs[0]]) + Without(xs[0], xs[1..])
  }

  /** Where a match found in `s`, which is at offset `o`, is replaced. */
  function SpotAt(o: nat, s: seq<nat>, b: nat, n: nat): Spot {
    if n == 0 && b < |s| then Spot(o, 0) else Spot(o + b, n)
  }

  /** The leftmost-longest matches of successive searches in `str` from offset `o` on: one behind
      each non-empty match, and one a byte further on behind each empty one. */
  ghost function Bests(r: Re, str: seq<nat>, o: nat): seq<Spot>
    requires o <= |str|
    decreases |str| - o
  {
    match BestMatch(r, str[o..], o == 0)
    case NoMatch => []
    case BestAt(b, n) =>
      [Spot(o + b, n)] +
      if o + b + n == |str| then [] else if n == 0 then Bests(r, str, o + 1) else Bests(r, str, o + b + n)
  }

  /** The same for what the searches of a `gsub` report, whatever the table does. */
  ghost function Reports(re: seq<Row>, r: Re, res: Search, s: seq<nat>, o: nat): seq<Spot>
    requires Usable(re, r, true, res.table) && Text(s) && InSubject(res.found, res.b, res.n, |s|)
    decreases |s|
  {
    if !res.found then []
    else
      [SpotAt(o, s, res.b, res.n)] +
      if res.b + res.n == |s| then []
      else
        var used := Used(s, res.b, res.n);
        TextFrom(s, used);
        Reports(re, r, Searched(re, r, res.table, s[used..]), s[used..], o + used)
  }

  lemma {:induction false} SpotsConcat(ps: seq<Piece>, qs: seq<Piece>, o: nat)
    ensures Spots(ps + qs, o) == Spots(ps, o) + Spots(qs, o + |Source(ps)|)
  {
    if ps == [] {
      assert ps + qs == qs;
    } else {
      assert (ps + qs)[1..] == ps[1..] + qs;
      SpotsConcat(ps[1..], qs, o + |ps[0].text|);
    }
  }

  /** `mflag` tells whether the match before, `last`, was not empty and ends at `o`. */
  predicate Marks(mflag: bool, last: Spot, o: nat, s: seq<nat>) {
    if mflag then last.n > 0 && last.at + last.n == o && s != [] else last.n == 0
  }

  lemma HeadSpots(s: seq<nat>, mflag: bool, b: nat, n: nat, o: nat, last: Spot)
    requires b + n <= |s| && Marks(mflag, last, o, s)
    ensures var x := SpotAt(o, s, b, n);
      && Spots(Head(s, mflag, b, n), o) == (if Behind(last, x) then [] else [x])
      && |Source(Head(s, mflag, b, n))| == Used(s, b, n)
    ensures b + n < |s| ==> Marks(n > 0, SpotAt(o, s, b, n), o + Used(s, b, n), s[Used(s, b, n)..])
  {
    if n == 0 && b < |s| {
      var k := [Keep(s[..1])];
      assert Spots(k, o) == [] by { assert k[1..] == []; }
      SourceOne(Keep(s[..1]));
      if mflag {
        assert EmptyPieces(mflag, s) == k;
      } else {
        assert EmptyPieces(mflag, s) == [Subst([])] + k;
        assert ([Subst([])] + k)[1..] == k;
        SourceTwo(Subst([]), Keep(s[..1]));
      }
    } else {
      var ps := [Keep(s[..b]), Subst(s[b..b + n])];
      assert ps[1..] == [Subst(s[b..b + n])] && ps[1..][1..] == [];
      assert Spots(ps[1..], o + b) == [Spot(o + b, n)];
      SourceTwo(Keep(s[..b]), Subst(s[b..b + n]));
    }
  }

  /** The first match and those behind it. */
  lemma SpotsJoin(head: seq<Piece>, tail: seq<Piece>, o: nat, last: Spot, x: Spot, more: seq<Spot>)
    requires Spots(head, o) == if Behind(last, x) then [] else [x]
    requires Spots(tail, o + |Source(head)|) == Without(x, more)
    ensures Spots(head + tail, o) == Without(last, [x] + more)
  {
    SpotsConcat(head, tail, o);
    assert ([x] + more)[1..] == more;
  }

  lemma SourceOne(p: Piece)
    ensures Source([p]) == p.text
  {
    assert [p][1..] == [];
  }

  lemma BestsStep(r: Re, str: seq<nat>, o: nat)
    requires o <= |str|
    ensures var best := BestMatch(r, str[o..], o == 0);
      if best.NoMatch? then Bests(r, str, o) == []
      else
        && o + best.b + best.n <= |str|
        && (best.n == 0 && o + best.b < |str| ==> best.b == 0)
        && Bests(r, str, o) == [SpotAt(o, str[o..], best.b, best.n)] +
             if o + best.b + best.n == |str| then [] else Bests(r, str, o + Used(str[o..], best.b, best.n))
  {
    hide BestMatch;
    BestEmptyLeft(r, str[o..], o == 0);
  }

  /** Exactly the leftmost-longest matches of the searches are replaced, but for an empty one right
      behind a non-empty one. */
  lemma {:induction false} TilingSpots(r: Re, str: seq<nat>, o: nat, mflag: bool, last: Spot)
    requires o <= |str| && Marks(mflag, last, o, str[o..])
    ensures Spots(Tiling(r, str[o..], o == 0, mflag), o) == Without(last, Bests(r, str, o))
    decreases |str| - o
  {
    hide BestMatch, Bests, Head, Without, Spots, Tiling, Source, SpotAt, Used;
    var s := str[o..];
    var best := BestMatch(r, s, o == 0);
    BestsStep(r, str, o);
    if best.NoMatch? {
      NoSpots(r, s, o == 0, mflag, o, last);
    } else {
      var b, n := best.b, best.n;
      UsedSome(s, b, n);
      var x, used, head := SpotAt(o, s, b, n), Used(s, b, n), Head(s, mflag, b, n);
      TilingHead(r, s, o == 0, mflag, b, n);
      HeadSpots(s, mflag, b, n, o, last);
      if b + n == |s| {
        NoMore(head, o, last, x);
      } else {
        assert s[used..] == str[o + used..];
        TilingSpots(r, str, o + used, n > 0, x);
        SpotsJoin(head, Tiling(r, s[used..], false, n > 0), o, last, x, Bests(r, str, o + used));
      }
    }
  }

  lemma UsedSome(s: seq<nat>, b: nat, n: nat)
    requires b + n <= |s|
    ensures Used(s, b, n) <= |s| && (b + n < |s| ==> 0 < Used(s, b, n))
  {
  }

  lemma NoSpots(r: Re, s: seq<nat>, hat: bool, mflag: bool, o: nat, last: Spot)
    requires BestMatch(r, s, hat) == NoMatch
    ensures Spots(Tiling(r, s, hat, mflag), o) == Without(last, [])
  {
    hide BestMatch;
    assert [Keep(s)][1..] == [];
  }

  lemma NoMore(head: seq<Piece>, o: nat, last: Spot, x: Spot)
    requires Spots(head, o) == if Behind(last, x) then [] else [x]
    ensures Spots(head, o) == Without(last, [x] + [])
  {
    assert [x] + [] == [x] && [x][1..] == [];
    assert Without(x, []) == [];
  }

  lemma TilingHead(r: Re, s: seq<nat>, hat: bool, mflag: bool, b: nat, n: nat)
    requires BestMatch(r, s, hat) == BestAt(b, n)
    ensures b + n <= |s|
    ensures Tiling(r, s, hat, mflag) ==
      if b + n == |s| then Head(s, mflag, b, n)
      else Head(s, mflag, b, n) + Tiling(r, s[Used(s, b, n)..], false, n > 0)
  {
    hide BestMatch, EmptyPieces;
    if b + n == |s| { assert s[b..] == s[b..b + n]; }
  }

  lemma BestEmptyLeft(r: Re, s: seq<nat>, hat: bool)
    ensures var m := BestMatch(r, s, hat); m.BestAt? && m.n == 0 && m.b < |s| ==> m.b == 0
  {
    var m := BestMatch(r, s, hat);
    if m.BestAt? && m.n == 0 && m.b < |s| {
      assert LeftmostLongest(r, s, hat, true, m.b, 0);
      EmptyMatchIsLeft(r, s, hat, m.b);
    }
  }

  /** And what the searches report is replaced so for every table. */
  lemma {:induction false} CutsSpots(
      re: seq<Row>, r: Re, res: Search, s: seq<nat>, mflag: bool, o: nat, last: Spot)
    requires Usable(re, r, true, res.table) && Text(s) && InSubject(res.found, res.b, res.n, |s|)
    requires Marks(mflag, last, o, s)
    ensures Spots(CutsFrom(re, r, res, s, mflag).0, o) == Without(last, Reports(re, r, res, s, o))
    decreases |s|
  {
    hide Usable, Searched, Head, Without, Spots, Source;
    if !res.found {
      KeepSpots(s, o, last);
    } else {
      var b, n := res.b, res.n as nat;
      var x, used, head := SpotAt(o, s, b, n), Used(s, b, n), Head(s, mflag, b, n);
      HeadSpots(s, mflag, b, n, o, last);
      if b + n == |s| {
        NoMore(head, o, last, x);
      } else {
        TextFrom(s, used);
        var next := Searched(re, r, res.table, s[used..]);
        CutsSpots(re, r, next, s[used..], n > 0, o + used, x);
        var more := Reports(re, r, next, s[used..], o + used);
        SpotsJoin(head, CutsFrom(re, r, next, s[used..], n > 0).0, o, last, x, more);
      }
    }
  }

  lemma KeepSpots(s: seq<nat>, o: nat, last: Spot)
    ensures Spots([Keep(s)], o) == Without(last, [])
  {
    assert [Keep(s)][1..] == [];
  }

  // what that means for the offsets

  /** Later matches lie further on: no two are at one offset, and they do not overlap. */
  ghost predicate InOrder(xs: seq<Spot>, o: nat) {
    && (forall i :: 0 <= i < |xs| ==> o <= xs[i].at)
    && (forall i, j :: 0 <= i < j < |xs| ==> xs[i].at < xs[j].at && xs[i].at + xs[i].n <= xs[j].at)
  }

  lemma {:induction false} BestsInOrder(r: Re, str: seq<nat>, o: nat)
    requires o <= |str|
    ensures InOrder(Bests(r, str, o), o)
    decreases |str| - o
  {
    hide BestMatch, Bests, InOrder;
    var best := BestMatch(r, str[o..], o == 0);
    BestsStep(r, str, o);
    OrderNone(o);
    if best.BestAt? {
      var b, n := best.b, best.n;
      if o + b + n < |str| {
        var o' := if n == 0 then o + 1 else o + b + n;
        BestsInOrder(r, str, o');
        OrderJoin(Spot(o + b, n), Bests(r, str, o'), o, o');
      } else {
        OrderNone(o + b + n + 1);
        OrderJoin(Spot(o + b, n), [], o, o + b + n + 1);
      }
    }
  }

  lemma {:induction false} ReportsInOrder(re: seq<Row>, r: Re, res: Search, s: seq<nat>, o: nat)
    requires Usable(re, r, true, res.table) && Text(s) && InSubject(res.found, res.b, res.n, |s|)
    ensures InOrder(Reports(re, r, res, s, o), o)
    decreases |s|
  {
    hide Usable, Searched, InOrder;
    OrderNone(o);
    if res.found {
      var b, n := res.b, res.n as nat;
      var used := Used(s, b, n);
      if b + n < |s| {
        TextFrom(s, used);
        var next := Searched(re, r, res.table, s[used..]);
        ReportsInOrder(re, r, next, s[used..], o + used);
        OrderJoin(SpotAt(o, s, b, n), Reports(re, r, next, s[used..], o + used), o, o + used);
      } else {
        OrderNone(o + b + n + 1);
        OrderJoin(SpotAt(o, s, b, n), [], o, o + b + n + 1);
      }
    }
  }

  lemma OrderNone(o: nat)
    ensures InOrder([], o)
  {
  }

  lemma OrderJoin(x: Spot, xs: seq<Spot>, o: nat, o': nat)
    requires InOrder(xs, o') && o <= x.at < o' && x.at + x.n <= o'
    ensures InOrder([x] + xs, o)
  {
    var ys := [x] + xs;
    assert forall i :: 0 < i < |ys| ==> ys[i] == xs[i - 1];
  }

  /** Of matches in order, exactly those stay behind which no non-empty one ends. */
  lemma {:induction false} WithoutExactly(last: Spot, xs: seq<Spot>, o: nat, y: Spot)
    requires InOrder(xs, o) && last.at + last.n <= o
    ensures y in Without(last, xs) <==>
      y in xs && !Behind(last, y) && !exists x :: x in xs && Behind(x, y)
    decreases xs
  {
    if xs != [] {
      var x0, rest := xs[0], xs[1..];
      assert InOrder(rest, x0.at + x0.n);
      WithoutExactly(x0, rest, x0.at + x0.n, y);
      assert forall x :: x in xs <==> x == x0 || x in rest;
      assert forall x :: x in rest ==> x.at > x0.at && x.at >= x0.at + x0.n;
    }
  }

  /** What becomes of the matches `xs` in the pieces: exactly those are replaced behind which no
      non-empty one ends, each once, and that is their number. */
  ghost predicate ReplacesFirm(ps: seq<Piece>, xs: seq<Spot>) {
    && InOrder(xs, 0)
    && (forall y :: y in Spots(ps, 0) <==> y in Firm(xs))
    && InOrder(Spots(ps, 0), 0)
    && (forall x, y :: x in Spots(ps, 0) && y in Spots(ps, 0) ==> !Behind(x, y))
    && Matches(ps) == |Spots(ps, 0)| == |Firm(xs)|
  }

  /** The matches behind which no other ends that is not empty, if they are empty themselves. */
  ghost function Firm(xs: seq<Spot>): set<Spot> {
    set y | y in xs && !exists x :: x in xs && Behind(x, y)
  }

  lemma {:induction false} SpotsCount(ps: seq<Piece>, o: nat)
    ensures |Spots(ps, o)| == Matches(ps)
  {
    if ps != [] { SpotsCount(ps[1..], o + |ps[0].text|); }
  }

  lemma {:induction false} WithoutInOrder(last: Spot, xs: seq<Spot>, o: nat)
    requires InOrder(xs, o)
    ensures InOrder(Without(last, xs), o)
    decreases xs
  {
    if xs != [] {
      var x, rest := xs[0], xs[1..];
      var o' := if x.n > 0 then x.at + x.n else x.at + 1;
      assert InOrder(rest, o');
      WithoutInOrder(x, rest, o');
      OrderLess(Without(x, rest), o', o);
      if !Behind(last, x) { OrderJoin(x, Without(x, rest), o, o'); }
      assert [] + Without(x, rest) == Without(x, rest);
    }
  }

  lemma OrderLess(xs: seq<Spot>, o': nat, o: nat)
    requires InOrder(xs, o') && o <= o'
    ensures InOrder(xs, o)
  {
  }

  lemma {:induction false} DistinctCount(xs: seq<Spot>, s: set<Spot>, o: nat)
    requires InOrder(xs, o) && forall y :: y in s <==> y in xs
    ensures |s| == |xs|
    decreases xs
  {
    if xs == [] {
      assert s == {};
    } else {
      var x, rest := xs[0], xs[1..];
      assert InOrder(rest, x.at);
      assert x !in rest && forall y :: y in xs <==> y == x || y in rest;
      DistinctCount(rest, s - {x}, x.at);
    }
  }

  lemma SpotsReplace(ps: seq<Piece>, xs: seq<Spot>)
    requires Spots(ps, 0) == Without(Spot(0, 0), xs) && InOrder(xs, 0)
    ensures ReplacesFirm(ps, xs)
  {
    hide Spots, Without, InOrder;
    var ys := Spots(ps, 0);
    WithoutInOrder(Spot(0, 0), xs, 0);
    forall y ensures y in ys <==> y in Firm(xs) { WithoutExactly(Spot(0, 0), xs, 0, y); }
    forall x, y | x in ys && y in ys ensures !Behind(x, y) {
      assert x in Firm(xs) && y in Firm(xs);
    }
    DistinctCount(ys, Firm(xs), 0);
    SpotsCount(ps, 0);
  }

  /** Of the leftmost-longest matches of successive searches exactly those are replaced that do not
      stand, empty, right behind a non-empty one. */
  lemma TilingReplaces(r: Re, str: seq<nat>)
    ensures ReplacesFirm(Tiling(r, str, true, false), Bests(r, str, 0))
  {
    hide Tiling, Bests, Spots, Without, InOrder;
    assert str[0..] == str;
    TilingSpots(r, str, 0, false, Spot(0, 0));
    BestsInOrder(r, str, 0);
    SpotsReplace(Tiling(r, str, true, false), Bests(r, str, 0));
  }

  /** And whatever the table does, exactly those of the matches that the searches report. */
  lemma CutsReplace(re: seq<Row>, r: Re, d: Table, str: seq<nat>)
    requires Usable(re, r, true, d) && Text(str)
    ensures var res := Searched(re, r, d, str);
      && Usable(re, r, true, res.table.(initstat := 2))
      && ReplacesFirm(GsubCuts(re, r, d, str).0, Reports(re, r, res.(table := res.table.(initstat := 2)), str, 0))
  {
    hide Usable, Searched, CutsFrom, Reports, Spots, Without, InOrder;
    var res := Searched(re, r, d, str);
    MovedUsable(re, r, res.table, 2);
    var first := res.(table := res.table.(initstat := 2));
    CutsSpots(re, r, first, str, false, 0, Spot(0, 0));
    ReportsInOrder(re, r, first, str, 0);
    CutsNotFound(re, r, first, str);
    SpotsReplace(GsubCuts(re, r, d, str).0, Reports(re, r, first, str, 0));
  }

  lemma CutsNotFound(re: seq<Row>, r: Re, res: Search, s: seq<nat>)
    requires Usable(re, r, true, res.table) && Text(s) && InSubject(res.found, res.b, res.n, |s|)
    ensures !res.found ==> CutsFrom(re, r, res, s, false).0 == [Keep(s)]
  {
  }

  // ---------- room for the work of a `gsub` ----------

  /** The symbols that `gsub` can look at in n bytes, with one search from each of them. */
  function GsubWork(n: nat): nat {
    Work(n) + if n == 0 then 0 else GsubWork(n - 1)
  }

  lemma {:induction false} GsubWorkIs(n: nat)
    ensures GsubWork(n) == (n + 1) * (n + 2) * (n + 3) / 6
  {
    WorkIs(n);
    if n > 0 {
      GsubWorkIs(n - 1);
      SixTimes(n);
    }
  }

  /** Sums of the triangular numbers are the tetrahedral ones. */
  lemma SixTimes(n: nat)
    ensures (n + 1) * (n + 2) / 2 + n * (n + 1) * (n + 2) / 6 == (n + 1) * (n + 2) * (n + 3) / 6
  {
    var t := (n + 1) * (n + 2);
    assert n * (n + 1) * (n + 2) == n * t && (n + 1) * (n + 2) * (n + 3) == n * t + 3 * t;
    Even(n + 1);
  }

  lemma {:induction false} Even(n: nat)
    ensures n * (n + 1) % 2 == 0
  {
    if n > 0 {
      Even(n - 1);
      assert n * (n + 1) == (n - 1) * n + 2 * n;
    }
  }

  /** The same behind the first byte. */
  function LaterWork(n: nat): nat {
    if n == 0 then 0 else GsubWork(n - 1)
  }

  lemma {:induction false} WorkGrows(n: nat, m: nat)
    requires n < m
    ensures GsubWork(n) <= LaterWork(m)
    decreases m
  {
    if n < m - 1 { WorkGrows(n, m - 1); }
  }

  lemma SearchedCalm(re: seq<Row>, r: Re, d: Table, s: seq<nat>, m: nat)
    requires Usable(re, r, true, d) && Text(s) && Calm(re, true, d, Work(|s|) + m)
    ensures var res := Searched(re, r, d, s); res.table.clears == d.clears && Calm(re, true, res.table, m)
  {
    hide Usable, PMatched, Calm;
    PMatchedCalm(re, r, d, s, m);
  }

  lemma {:induction false} CutsCalm(re: seq<Row>, r: Re, res: Search, s: seq<nat>, mflag: bool)
    requires Usable(re, r, true, res.table) && Text(s) && InSubject(res.found, res.b, res.n, |s|)
    requires Calm(re, true, res.table, LaterWork(|s|))
    ensures CutsFrom(re, r, res, s, mflag).1.clears == res.table.clears
    decreases |s|
  {
    hide Usable, Searched, Calm, LaterWork, Work;
    if res.found && res.b + res.n < |s| {
      TextFrom(s, Used(s, res.b, res.n));
      var rest := s[Used(s, res.b, res.n)..];
      CalmAfter(re, res.table, |s|, |rest|);
      SearchedCalm(re, r, res.table, rest, LaterWork(|rest|));
      CutsCalm(re, r, Searched(re, r, res.table, rest), rest, res.n > 0);
    }
  }

  /** Room for the work behind the first byte of n is room for the search in m < n bytes and the
      work behind their first byte. */
  lemma CalmAfter(re: seq<Row>, d: Table, n: nat, m: nat)
    requires Calm(re, true, d, LaterWork(n)) && m < n
    ensures Calm(re, true, d, Work(m) + LaterWork(m))
  {
    hide Calm, Work;
    WorkGrows(m, n);
    CalmLess(re, true, d, LaterWork(n), Work(m) + LaterWork(m));
  }

  /** With room for its work `gsub` clears nothing. */
  lemma GsubCalm(re: seq<Row>, r: Re, d: Table, str: seq<nat>)
    requires Usable(re, r, true, d) && Text(str) && Calm(re, true, d, GsubWork(|str|))
    ensures GsubCuts(re, r, d, str).1.clears == d.clears
  {
    hide Usable, Searched, Calm, CutsFrom, Work;
    assert GsubWork(|str|) == Work(|str|) + LaterWork(|str|);
    SearchedCalm(re, r, d, str, LaterWork(|str|));
    var res := Searched(re, r, d, str);
    if res.found {
      MovedUsable(re, r, res.table, 2);
      CalmFrom(re, true, res.table, LaterWork(|str|), 2);
      CutsCalm(re, r, res.(table := res.table.(initstat := 2)), str, false);
    }
  }

  /** In closed form: a target of n bytes with (n + 1)(n + 2)(n + 3) / 6 states to spare is cut
      into its tiling, whatever the expression is. */
  lemma GsubShort(re: seq<Row>, r: Re, d: Table, str: seq<nat>)
    requires Usable(re, r, true, d) && Text(str) && (d.reset || d.initstat == BeginState(re, r))
    requires Taken(re, r, d) + (|str| + 1) * (|str| + 2) * (|str| + 3) / 6 <= NSTATES
    ensures Calm(re, true, d, GsubWork(|str|))
    ensures GsubCuts(re, r, d, str).0 == Tiling(r, str, true, false) && GsubCuts(re, r, d, str).1.clears == d.clears
  {
    hide Usable, Calm, Taken, GsubWork, GsubCuts, Tiling;
    GsubWorkIs(|str|);
    CalmRoom(re, r, true, d, GsubWork(|str|));
    GsubCalm(re, r, d, str);
    CutsRight(re, r, d, str);
  }

  lemma UsableBegins(re: seq<Row>, r: Re, d: Table)
    requires Usable(re, r, true, d)
    ensures AutoOf(re).Valid() && (d.initstat == 2 || d.initstat == BeginState(re, r))
  {
  }

  lemma CalmZero(re: seq<Row>, r: Re, d: Table)
    requires Usable(re, r, true, d)
    ensures Calm(re, true, d, 0)
  {
    StartedAt(re, r, true, d);
  }

  /** The last piece is a match: nothing is kept behind it. */
  predicate EndsMatched(ps: seq<Piece>) {
    ps != [] && ps[|ps| - 1].Subst?
  }

  // ---------- the buffer ----------

  /** The pieces `done` are in the buffer and counted, or it is full and should be. */
  ghost predicate Written(done: seq<Piece>, repl: seq<nat>, buf: seq<nat>, num: nat) {
    || (buf == Rewritten(done, repl) && num == Matches(done))
    || (|buf| >= LIMIT && |Rewritten(done, repl)| >= LIMIT)
  }

  lemma WrittenStep(
      done: seq<Piece>, ps: seq<Piece>, repl: seq<nat>, buf: seq<nat>, num: nat, out: seq<nat>, num': nat)
    requires Written(done, repl, buf, num) && num' == num + Matches(ps)
    requires Copied(out, buf + Rewritten(ps, repl)) && |out| >= |buf|
    ensures Written(done + ps, repl, out, num')
  {
    hide Rewritten, Matches;
    RewrittenConcat(done, ps, repl);
    MatchesConcat(done, ps);
  }

  lemma EndsConcat(ps: seq<Piece>, rest: seq<Piece>)
    ensures EndsMatched(ps + rest) <==> if rest == [] then EndsMatched(ps) else EndsMatched(rest)
  {
    if rest != [] {
      assert (ps + rest)[|ps + rest| - 1] == rest[|rest| - 1];
    } else {
      assert ps + rest == ps;
    }
  }

  lemma RewrittenOne(p: Piece, repl: seq<nat>)
    ensures Rewritten([p], repl) == if p.Keep? then p.text else Expand(repl, p.text)
    ensures Matches([p]) == if p.Subst? then 1 else 0
  {
    assert [p][1..] == [];
  }

  /** The result and its NUL stay inside the buffer, or nothing is replaced; behind a match that
      reaches the end one byte more is free. */
  predicate Fits(all: seq<Piece>, repl: seq<nat>) {
    Matches(all) == 0 || |Rewritten(all, repl)| + (if EndsMatched(all) then 0 else 1) < LIMIT
  }

  /** What `gsub` gives for these pieces. */
  function Replaced(all: seq<Piece>, repl: seq<nat>): GsubResult {
    if Fits(all, repl) then Done(Rewritten(all, repl), Matches(all)) else ResultTooBig
  }

  /** An empty match in front of a byte: replace it unless it follows a non-empty match,
      and keep the byte. */
  method EmptyMatch(buf: seq<nat>, num: nat, mflag: bool, repl: seq<nat>, s: seq<nat>, ghost done: seq<Piece>)
    returns (out: seq<nat>, num': nat)
    requires s != [] && Written(done, repl, buf, num)
    ensures Written(done + EmptyPieces(mflag, s), repl, out, num')
  {
    hide Written, Rewritten, Matches, Expand;
    out, num' := buf, num;
    ghost var k := [Keep(s[..1])];
    ghost var before := done;
    RewrittenOne(Keep(s[..1]), repl);
    if !mflag {
      num' := num + 1;
      out := AppendReplacement(buf, repl, []);
      RewrittenOne(Subst([]), repl);
      before := done + [Subst([])];
      WrittenStep(done, [Subst([])], repl, buf, num, out, num');
    }
    ghost var mid := out;
    out := out + [s[0]];
    assert s[..1] == [s[0]];
    WrittenStep(before, k, repl, mid, num', out, num');
    assert before + k == done + EmptyPieces(mflag, s);
  }

  /** A non-empty match, or an empty one at the end: keep the text in front of it and
      replace it. */
  method FullMatch(
      buf: seq<nat>, num: nat, repl: seq<nat>, front: seq<nat>, matched: seq<nat>, ghost done: seq<Piece>)
    returns (out: seq<nat>)
    requires Written(done, repl, buf, num)
    ensures Written(done + [Keep(front), Subst(matched)], repl, out, num + 1)
  {
    hide Written, Rewritten, Matches, Expand;
    RewrittenOne(Keep(front), repl);
    RewrittenOne(Subst(matched), repl);
    var mid := AppendText(buf, front);
    WrittenStep(done, [Keep(front)], repl, buf, num, mid, num);
    out := AppendReplacement(mid, repl, matched);
    WrittenStep(done + [Keep(front)], [Subst(matched)], repl, mid, num, out, num + 1);
    assert done + [Keep(front)] + [Subst(matched)] == done + [Keep(front), Subst(matched)];
  }

  /** The body of the `do` loop for the match at `b` of length `n` in the rest `s` of the
      target: `used` bytes of it are dealt with. */
  method OneMatch(
      s: seq<nat>, mflag: bool, b: nat, n: nat, buf: seq<nat>, num: nat, repl: seq<nat>, ghost done: seq<Piece>)
    returns (out: seq<nat>, num': nat, used: nat, mflag': bool, atEnd: bool)
    requires b + n <= |s| && Written(done, repl, buf, num)
    ensures used == Used(s, b, n) && atEnd == (b + n == |s|)
    ensures used <= |s| && (used > 0 || atEnd) && (!atEnd ==> mflag' == (n > 0))
    ensures Written(done + Head(s, mflag, b, n), repl, out, num')
  {
    hide Written;
    if n == 0 && b < |s| {
      out, num' := EmptyMatch(buf, num, mflag, repl, s, done);
      used, mflag', atEnd := 1, false, false;
    } else {
      used, mflag', atEnd := b + n, true, b + n == |s|;
      out := FullMatch(buf, num, repl, s[..b], s[b..b + n], done);
      num' := num + 1;
    }
  }

  // ---------- gsub ----------

  /** Where a `gsub` stands. */
  datatype Progress = Progress(t: nat, buf: seq<nat>, num: nat, mflag: bool, atEnd: bool, found: bool, b: nat, n: int)

  /** Offsets within the target. */
  ghost predicate InRange(p: Progress, len: nat) {
    && p.t <= len && (p.atEnd ==> p.t == len)
    && (!p.atEnd ==> InSubject(p.found, p.b, p.n, len - p.t))
  }

  /** What is still to come. */
  ghost function Coming(re: seq<Row>, r: Re, d: Table, str: seq<nat>, p: Progress): (out: (seq<Piece>, Table))
    requires Usable(re, r, true, d) && Text(str) && InRange(p, |str|)
    ensures out.1.clears >= d.clears && (d.initstat == 2 ==> out.1.initstat == 2)
  {
    if p.atEnd then ([], d)
    else
      TextFrom(str, p.t);
      CutsFrom(re, r, Search(d, p.found, p.b, p.n), str[p.t..], p.mflag)
  }

  /** What is still to come if nothing is cleared. */
  ghost function Wanted(r: Re, str: seq<nat>, p: Progress): seq<Piece>
    requires InRange(p, |str|)
  {
    if p.atEnd then [] else TilingFrom(r, str[p.t..], p.mflag, p.found, p.b, p.n)
  }

  /** The pieces `done` and what is still to come are all there is, and without a clear also all
      that is wanted. */
  ghost predicate OnTrack(
      re: seq<Row>, r: Re, d: Table, str: seq<nat>, p: Progress, done: seq<Piece>, all: (seq<Piece>, Table),
      clears: nat)
  {
    && Usable(re, r, true, d) && Text(str) && InRange(p, |str|) && d.initstat == 2 && d.clears >= clears
    && all == (done + Coming(re, r, d, str, p).0, Coming(re, r, d, str, p).1)
    && (d.clears == clears ==> !d.reset && Tiling(r, str, true, false) == done + Wanted(r, str, p))
    && (p.atEnd ==> EndsMatched(done))
  }

  /** `done` is not all, but it is more than fits. */
  ghost predicate Overfull(
      r: Re, d: Table, str: seq<nat>, done: seq<Piece>, all: (seq<Piece>, Table), clears: nat)
  {
    && clears <= d.clears <= all.1.clears && d.initstat == 2
    && done <= all.0 && (d.clears == clears ==> done <= Tiling(r, str, true, false))
  }

  /** The first match of what is still to come is dealt with. */
  lemma TurnCuts(
      re: seq<Row>, r: Re, d: Table, str: seq<nat>, p: Progress, done: seq<Piece>, all: (seq<Piece>, Table),
      clears: nat, head: seq<Piece>)
    requires OnTrack(re, r, d, str, p, done, all, clears) && p.found && !p.atEnd
    requires head == Head(str[p.t..], p.mflag, p.b, p.n)
    ensures Overfull(r, d, str, done + head, all, clears)
    ensures var s := str[p.t..];
      var q := Progress(|str|, [], 0, true, true, true, 0, 0);
      p.b + p.n == |s| ==> OnTrack(re, r, d, str, q, done + head, all, clears)
  {
    hide Usable, Searched, Tiling, CutsFrom;
    var s := str[p.t..];
    TextFrom(str, p.t);
    var res := Search(d, p.found, p.b, p.n);
    CutsStep(re, r, res, s, p.mflag);
    EndsConcat(done, head);
    var out := CutsFrom(re, r, res, s, p.mflag);
    assert done + out.0 == (done + head) + out.0[|head|..];
    if p.b + p.n < |s| {
      var tail := Tiling(r, s[Used(s, p.b, p.n)..], false, p.n > 0);
      assert done + (head + tail) == (done + head) + tail;
    } else {
      assert done + head + [] == done + head;
    }
  }

  lemma CutsStep(re: seq<Row>, r: Re, res: Search, s: seq<nat>, mflag: bool)
    requires Usable(re, r, true, res.table) && Text(s) && InSubject(res.found, res.b, res.n, |s|) && res.found
    ensures var head := Head(s, mflag, res.b, res.n);
      var rest := s[Used(s, res.b, res.n)..];
      && Text(rest) && head != []
      && CutsFrom(re, r, res, s, mflag) ==
           if res.b + res.n == |s| then (head, res.table)
           else
             var out := CutsFrom(re, r, Searched(re, r, res.table, rest), rest, res.n > 0);
             (head + out.0, out.1)
  {
    hide Usable, Searched;
    TextFrom(s, Used(s, res.b, res.n));
  }

  /** And the next search is made. */
  lemma TurnSearches(
      re: seq<Row>, r: Re, d: Table, str: seq<nat>, p: Progress, done: seq<Piece>, all: (seq<Piece>, Table),
      clears: nat, q: Progress)
    requires OnTrack(re, r, d, str, p, done, all, clears) && p.found && !p.atEnd && p.t + p.b + p.n < |str|
    requires q.t == p.t + Used(str[p.t..], p.b, p.n) && q.t <= |str| && Text(str[q.t..])
    requires !q.atEnd && q.mflag == (p.n > 0)
    requires var next := Searched(re, r, d, str[q.t..]); (q.found, q.b, q.n) == (next.found, next.b, next.n)
    ensures var next := Searched(re, r, d, str[q.t..]);
      OnTrack(re, r, next.table, str, q, done + Head(str[p.t..], p.mflag, p.b, p.n), all, clears)
  {
    hide Usable, Searched, Tiling, CutsFrom, Head;
    var s := str[p.t..];
    TextFrom(str, p.t);
    CutsStep(re, r, Search(d, p.found, p.b, p.n), s, p.mflag);
    assert s[Used(s, p.b, p.n)..] == str[q.t..];
    var next := Searched(re, r, d, str[q.t..]);
    var head := Head(s, p.mflag, p.b, p.n);
    var out := CutsFrom(re, r, next, str[q.t..], p.n > 0);
    assert done + (head + out.0) == (done + head) + out.0;
    assert Search(next.table, q.found, q.b, q.n) == next;
    if d.clears == clears {
      NextFound(re, r, d, str[q.t..], p.n > 0);
      var tail := Tiling(r, str[q.t..], false, p.n > 0);
      assert done + (head + tail) == (done + head) + tail;
    }
  }

  /** One turn of the loop; `big` reports that the buffer is full. */
  method Turn(
      f: Fa, str: seq<nat>, repl: seq<nat>, p: Progress, ghost done: seq<Piece>, ghost all: (seq<Piece>, Table),
      ghost clears: nat)
    returns (q: Progress, big: bool, ghost done': seq<Piece>)
    requires f.Valid() && f.anchor && Text(str) && p.found && !p.atEnd
    requires OnTrack(f.re, f.pat, f.table, str, p, done, all, clears) && Written(done, repl, p.buf, p.num)
    modifies f`curstat, f`initstat, f`reset, f`table
    modifies f.gototab, f.posns, f.out, f.sets, f.sets.vec
    ensures f.Valid() && f.table.clears >= old(f.table).clears && InRange(p, |str|)
    ensures done' == done + Head(str[p.t..], p.mflag, p.b, p.n)
    ensures Written(done', repl, q.buf, q.num)
    ensures if big then |q.buf| >= LIMIT && Overfull(f.pat, f.table, str, done', all, clears)
            else OnTrack(f.re, f.pat, f.table, str, q, done', all, clears) && (q.t > p.t || q.atEnd)
  {
    hide Tiling, Head, Written, Coming, Wanted, Overfull, LeftmostLongest, Calm, PMatched, Usable;
    assert InRange(p, |str|);
    ghost var s := str[p.t..];
    var buf, num, used, mflag, atEnd := OneMatch(str[p.t..], p.mflag, p.b, p.n, p.buf, p.num, repl, done);
    ghost var d := f.table;
    done' := done + Head(s, p.mflag, p.b, p.n);
    TurnCuts(f.re, f.pat, d, str, p, done, all, clears, Head(s, p.mflag, p.b, p.n));
    var t := p.t + used;
    if atEnd {
      q := Progress(t, buf, num, true, true, true, 0, 0);
      big := false;
      AtEndAnyway(f.re, f.pat, d, str, q, done', all, clears);
    } else if |buf| >= LIMIT {
      q := Progress(t, buf, num, mflag, false, true, 0, 0);
      big := true;
    } else {
      TextFrom(str, t);
      var found, b, n := f.PMatch(str[t..]);
      q := Progress(t, buf, num, mflag, false, found, b, n);
      big := false;
      TurnSearches(f.re, f.pat, d, str, p, done, all, clears, q);
    }
  }

  /** At the end the buffer plays no part in what is to come. */
  lemma AtEndAnyway(
      re: seq<Row>, r: Re, d: Table, str: seq<nat>, q: Progress, done: seq<Piece>, all: (seq<Piece>, Table),
      clears: nat)
    requires OnTrack(re, r, d, str, Progress(|str|, [], 0, true, true, true, 0, 0), done, all, clears)
    requires q.atEnd && q.t == |str|
    ensures OnTrack(re, r, d, str, q, done, all, clears)
  {
  }

  /** Sets `initstat`. */
  method SetInitial(f: Fa, s: nat)
    requires f.Valid() && (s == 2 || s == BeginState(f.re, f.pat))
    modifies f`initstat, f`table
    ensures f.Valid() && f.initstat == s && f.table == old(f.table).(initstat := s)
  {
    f.initstat := s;
    f.table := f.table.(initstat := s);
  }

  /** `gsub`: the pieces that the searches make of the target are put together again with every
      match replaced, and they are counted; the result is too big exactly if it does not fit. If
      the table is not cleared, and so with room for its work, they are those of the tiling. */
  method Gsub(f: Fa, str: seq<nat>, repl: seq<nat>) returns (res: GsubResult)
    requires f.Valid() && f.anchor && (f.reset || f.initstat == BeginState(f.re, f.pat))
    requires Text(str)
    modifies f`curstat, f`initstat, f`reset, f`table
    modifies f.gototab, f.posns, f.out, f.sets, f.sets.vec
    ensures f.Valid() && f.table.clears >= old(f.table).clears
    ensures res == Replaced(GsubCuts(f.re, f.pat, old(f.table), str).0, repl)
    ensures res.Done? ==> f.table == GsubCuts(f.re, f.pat, old(f.table), str).1
    ensures f.table.clears == old(f.table).clears ==>
      res == Replaced(Tiling(f.pat, str, true, false), repl) && f.initstat == old(f.initstat)
    ensures f.table.clears == old(f.table).clears && res.Done? ==> res.num == |Firm(Bests(f.pat, str, 0))|
    ensures old(Calm(f.re, true, f.table, GsubWork(|str|))) ==>
      f.table.clears == old(f.table).clears && Calm(f.re, true, f.table, 0)
  {
    hide Usable, Fa.SameLists, Fa.SameRows, Good, Calm, Tiling, Rewritten, Matches, CutsFrom, PMatched, LeftmostLongest,
      Found, GsubWork;
    ghost var d := f.table;
    ghost var all := GsubCuts(f.re, f.pat, d, str);
    TilingCount(f.pat, str, repl);
    if Calm(f.re, true, d, GsubWork(|str|)) { GsubCalm(f.re, f.pat, d, str); }
    FirstFound(f.re, f.pat, d, str);
    var found, b, n := f.PMatch(str);
    CalmZero(f.re, f.pat, f.table);
    if !found {
      NothingReplaced(f.pat, str, repl, b, n);
      return Done(str, 0);
    }
    var tempstat := f.initstat;
    UsableBegins(f.re, f.pat, f.table);
    SetInitial(f, 2);
    var start := Progress(0, [], 0, false, false, true, b, n);
    StartOnTrack(f.re, f.pat, d, str, Searched(f.re, f.pat, d, str), start);
    res := Turns(f, str, repl, start, CutsFrom(f.re, f.pat, Search(f.table, true, b, n), str, false), d.clears);
    SetInitial(f, tempstat);
    CalmZero(f.re, f.pat, f.table);
  }

  /** `gsub` counts the matches that it replaces. */
  lemma TilingCount(r: Re, str: seq<nat>, repl: seq<nat>)
    ensures var res := Replaced(Tiling(r, str, true, false), repl); res.Done? ==> res.num == |Firm(Bests(r, str, 0))|
  {
    TilingReplaces(r, str);
  }

  lemma NothingReplaced(r: Re, str: seq<nat>, repl: seq<nat>, b: nat, n: int)
    ensures Replaced([Keep(str)], repl) == Done(str, 0)
    ensures Found(r, str, true, false, false, b, n) ==> Tiling(r, str, true, false) == [Keep(str)]
  {
    RewrittenOne(Keep(str), repl);
  }

  lemma StartOnTrack(re: seq<Row>, r: Re, d: Table, str: seq<nat>, res: Search, p: Progress)
    requires Usable(re, r, true, d) && Text(str) && res == Searched(re, r, d, str) && res.found
    requires res.table.clears == d.clears ==> !res.table.reset && Found(r, str, true, false, res.found, res.b, res.n)
    requires p == Progress(0, [], 0, false, false, true, res.b, res.n)
    ensures Usable(re, r, true, res.table.(initstat := 2))
    ensures OnTrack(re, r, res.table.(initstat := 2), str, p, [],
      CutsFrom(re, r, Search(res.table.(initstat := 2), true, res.b, res.n), str, false), d.clears)
  {
    hide Usable, Tiling, CutsFrom, PMatched;
    MovedUsable(re, r, res.table, 2);
    assert str[0..] == str;
    var out := CutsFrom(re, r, Search(res.table.(initstat := 2), true, res.b, res.n), str, false);
    assert [] + out.0 == out.0;
    var want := TilingFrom(r, str, false, true, res.b, res.n);
    assert [] + want == want;
  }

  /** The loop, and the text behind the last match. */
  method Turns(
      f: Fa, str: seq<nat>, repl: seq<nat>, start: Progress, ghost all: (seq<Piece>, Table), ghost clears: nat)
    returns (res: GsubResult)
    requires f.Valid() && f.anchor && Text(str) && start.found && !start.atEnd && start.buf == [] && start.num == 0
    requires OnTrack(f.re, f.pat, f.table, str, start, [], all, clears) && start.t == 0 && !start.mflag
    modifies f`curstat, f`initstat, f`reset, f`table
    modifies f.gototab, f.posns, f.out, f.sets, f.sets.vec
    ensures f.Valid() && f.initstat == 2 && f.table.clears >= old(f.table).clears
    ensures clears <= f.table.clears <= all.1.clears
    ensures res == Replaced(all.0, repl) && (res.Done? ==> f.table == all.1)
    ensures f.table.clears == clears ==> res == Replaced(Tiling(f.pat, str, true, false), repl)
  {
    hide Tiling, Head, Written, Rewritten, Matches, OnTrack, Usable, Fa.SameLists, Fa.SameRows, Good;
    var p := start;
    ghost var done: seq<Piece> := [];
    NothingWritten(repl);
    OnTrackParts(f.re, f.pat, f.table, str, p, done, all, clears);
    while p.found && !p.atEnd
      invariant f.Valid() && f.initstat == 2 && f.table.clears >= old(f.table).clears && InRange(p, |str|)
      invariant OnTrack(f.re, f.pat, f.table, str, p, done, all, clears) && Written(done, repl, p.buf, p.num)
      invariant if done == [] then p == start else Matches(done) > 0
      decreases |str| - p.t, !p.atEnd
    {
      ghost var was, s := done, str[p.t..];
      HeadMatches(s, p.mflag, p.b, p.n);
      MatchesConcat(was, Head(s, p.mflag, p.b, p.n));
      var big;
      p, big, done := Turn(f, str, repl, p, was, all, clears);
      if big {
        BigIsTooBig(f.pat, f.table, str, repl, p.buf, p.num, done, all, clears);
        return ResultTooBig;
      }
      OnTrackParts(f.re, f.pat, f.table, str, p, done, all, clears);
    }
    var buf := p.buf;
    if !p.atEnd {
      buf := buf + str[p.t..];
    }
    EndIs(f.re, f.pat, f.table, str, repl, p, done, all, clears);
    if |buf| + (if p.atEnd then 0 else 1) >= LIMIT {
      return ResultTooBig;
    }
    res := Done(buf, p.num);
  }

  lemma NothingWritten(repl: seq<nat>)
    ensures Written([], repl, [], 0) && Matches([]) == 0
  {
  }

  lemma OnTrackParts(
      re: seq<Row>, r: Re, d: Table, str: seq<nat>, p: Progress, done: seq<Piece>, all: (seq<Piece>, Table),
      clears: nat)
    requires OnTrack(re, r, d, str, p, done, all, clears)
    ensures InRange(p, |str|) && d.initstat == 2 && clears <= d.clears <= all.1.clears
  {
  }

  /** The first match is always replaced. */
  lemma HeadMatches(s: seq<nat>, mflag: bool, b: nat, n: nat)
    requires b + n <= |s|
    ensures Head(s, mflag, b, n) != [] && (!mflag ==> Matches(Head(s, mflag, b, n)) > 0)
  {
    if n == 0 && b < |s| {
      if !mflag { assert EmptyPieces(mflag, s) == [Subst([]), Keep(s[..1])]; }
    } else {
      assert Head(s, mflag, b, n)[1..] == [Subst(s[b..b + n])];
    }
  }

  lemma BigIsTooBig(
      r: Re, d: Table, str: seq<nat>, repl: seq<nat>, buf: seq<nat>, num: nat, done: seq<Piece>,
      all: (seq<Piece>, Table), clears: nat)
    requires Overfull(r, d, str, done, all, clears) && Written(done, repl, buf, num)
    requires |buf| >= LIMIT && Matches(done) > 0
    ensures Replaced(all.0, repl) == ResultTooBig
    ensures d.clears == clears ==> Replaced(Tiling(r, str, true, false), repl) == ResultTooBig
  {
    hide Rewritten, Matches, Tiling;
    PrefixTooBig(done, all.0, repl);
    if d.clears == clears { PrefixTooBig(done, Tiling(r, str, true, false), repl); }
  }

  lemma PrefixTooBig(done: seq<Piece>, all: seq<Piece>, repl: seq<nat>)
    requires done <= all && |Rewritten(done, repl)| >= LIMIT && Matches(done) > 0
    ensures Replaced(all, repl) == ResultTooBig
  {
    hide Rewritten, Matches;
    var rest := all[|done|..];
    assert all == done + rest;
    RewrittenConcat(done, rest, repl);
    MatchesConcat(done, rest);
  }

  /** What the program makes of the buffer in the end. */
  function Finished(buf: seq<nat>, num: nat, more: bool): GsubResult {
    if |buf| + (if more then 1 else 0) >= LIMIT then ResultTooBig else Done(buf, num)
  }

  lemma FinishedIs(done: seq<Piece>, text: seq<nat>, more: bool, repl: seq<nat>, buf: seq<nat>, num: nat)
    requires Written(done, repl, buf, num) && Matches(done) > 0 && (!more ==> text == [] && EndsMatched(done))
    ensures Finished(buf + text, num, more) == Replaced(done + if more then [Keep(text)] else [], repl)
  {
    hide Rewritten, Matches, EndsMatched;
    var tail := if more then [Keep(text)] else [];
    RewrittenConcat(done, tail, repl);
    MatchesConcat(done, tail);
    RewrittenOne(Keep(text), repl);
    EndsConcat(done, tail);
    KeepsNot(text);
    assert done + [] == done && buf + [] == buf;
  }

  lemma KeepsNot(text: seq<nat>)
    ensures !EndsMatched([Keep(text)])
  {
  }

  lemma EndIs(
      re: seq<Row>, r: Re, d: Table, str: seq<nat>, repl: seq<nat>, p: Progress, done: seq<Piece>,
      all: (seq<Piece>, Table), clears: nat)
    requires OnTrack(re, r, d, str, p, done, all, clears) && Written(done, repl, p.buf, p.num) && Matches(done) > 0
    requires (p.atEnd || !p.found) && InRange(p, |str|)
    ensures var buf := if p.atEnd then p.buf else p.buf + str[p.t..];
      && all.1 == d && Finished(buf, p.num, !p.atEnd) == Replaced(all.0, repl)
      && (d.clears == clears ==> Replaced(Tiling(r, str, true, false), repl) == Replaced(all.0, repl))
  {
    hide Rewritten, Matches, Tiling, Usable, Finished, Replaced, Written;
    var text := if p.atEnd then [] else str[p.t..];
    FinishedIs(done, text, !p.atEnd, repl, p.buf, p.num);
    assert p.buf + [] == p.buf;
  }
}
