/** What the parser of cmd/awk/b.c accepts: the grammar of regular expressions over tokens, stated
    without an order of reading, against the recursive descent.
 */
module AwkGrammar {
  import opened AwkRegex
  import opened AwkFollow
  import opened AwkTable
  import opened AwkParser

  // ---------- the grammar ----------

  /** A leaf by itself. The text of a class must have a meaning. */
  predicate LeafOf(t: Token, r: Re) {
    match t
    case TChar(v) => r == Leaf(Chr(v), 0)
    case TDot => r == Leaf(Dot, 0)
    case TCcl(str) => ClassChars(str, []).Class? && r == Leaf(Ccl(ClassChars(str, []).cs), 0)
    case TNccl(str) => ClassChars(str, []).Class? && r == Leaf(Nccl(ClassChars(str, []).cs), 0)
    case THat => r == Leaf(Chr(HAT), 0)
    case TDollar => r == Leaf(Chr(NUL), 0)
    case _ => false
  }

  predicate IsSuffix(t: Token) {
    t == TStar || t == TPlus || t == TQuest
  }

  predicate SuffixOf(t: Token, r: Re) {
    match t
    case TStar => r.Star?
    case TPlus => r.Plus?
    case TQuest => r.Quest?
    case _ => false
  }

  /** An expression is a sequence, or an expression, a bar and a sequence. */
  ghost predicate IsExpression(ts: seq<Token>, r: Re)
    decreases |ts|, 5
  {
    IsSequence(ts, r) || exists i: nat :: BarAt(ts, r, i)
  }

  ghost predicate BarAt(ts: seq<Token>, r: Re, i: nat)
    decreases |ts|, 4
  {
    i < |ts| && ts[i] == TOr && r.Or? && IsExpression(ts[..i], r.l) && IsSequence(ts[i + 1..], r.r)
  }

  /** A sequence is a primary, or a sequence and a primary that does not begin with `^`. */
  ghost predicate IsSequence(ts: seq<Token>, r: Re)
    decreases |ts|, 3
  {
    IsPrimary(ts, r) || exists i: nat :: JoinAt(ts, r, i)
  }

  ghost predicate JoinAt(ts: seq<Token>, r: Re, i: nat)
    decreases |ts|, 2
  {
    0 < i < |ts| && ts[i] != THat && r.Cat? && IsSequence(ts[..i], r.l) && IsPrimary(ts[i..], r.r)
  }

  /** A primary is a leaf, `()`, an expression in parentheses, or a primary and a suffix. */
  ghost predicate IsPrimary(ts: seq<Token>, r: Re)
    decreases |ts|, 1
  {
    || (|ts| == 1 && LeafOf(ts[0], r))
    || (ts == [TOpen, TClose] && r == Leaf(Ccl([]), 0))
    || IsGroup(ts, r)
    || IsSuffixed(ts, r)
  }

  ghost predicate IsGroup(ts: seq<Token>, r: Re)
    decreases |ts|, 0
  {
    |ts| > 2 && ts[0] == TOpen && ts[|ts| - 1] == TClose && IsExpression(ts[1..|ts| - 1], r)
  }

  ghost predicate IsSuffixed(ts: seq<Token>, r: Re)
    decreases |ts|, 0
  {
    |ts| > 1 && SuffixOf(ts[|ts| - 1], r) && IsPrimary(ts[..|ts| - 1], r.x)
  }

  // ---------- tokens ----------

  /** The tokens from one state of the lexer to another. */
  ghost predicate Reads(s: Scan, ts: seq<Token>, s': Scan)
    decreases |ts|
  {
    if ts == [] then s == s'
    else s.rtok == ts[0] != TEnd && Lex(s.prestr).Lexed? && Reads(Lex(s.prestr).s, ts[1..], s')
  }

  /** The tokens of a text. */
  ghost predicate Tokens(text: seq<nat>, ts: seq<Token>) {
    Lex(text).Lexed? && Reads(Lex(text).s, ts, Scan(TEnd, []))
  }

  lemma {:induction false} ReadsSplit(s: Scan, ts: seq<Token>, i: nat, s': Scan) returns (m: Scan)
    requires Reads(s, ts, s') && i <= |ts|
    ensures Reads(s, ts[..i], m) && Reads(m, ts[i..], s')
    decreases i
  {
    hide Lex;
    m := s;
    if i > 0 {
      m := ReadsSplit(Lex(s.prestr).s, ts[1..], i - 1, s');
      assert ts[..i][1..] == ts[1..][..i - 1] && ts[1..][i - 1..] == ts[i..];
    } else {
      assert ts[0..] == ts;
    }
  }

  lemma {:induction false} ReadsJoin(s: Scan, ts: seq<Token>, m: Scan, us: seq<Token>, s': Scan)
    requires Reads(s, ts, m) && Reads(m, us, s')
    ensures Reads(s, ts + us, s')
    decreases |ts|
  {
    hide Lex;
    if ts == [] {
      assert ts + us == us;
    } else {
      ReadsJoin(Lex(s.prestr).s, ts[1..], m, us, s');
      assert (ts + us)[1..] == ts[1..] + us;
    }
  }

  lemma ReadsOne(s: Scan, s': Scan)
    requires s.rtok != TEnd && Lex(s.prestr) == Lexed(s')
    ensures Reads(s, [s.rtok], s')
  {
    hide Lex;
    assert [s.rtok][1..] == [];
  }

  /** The lexer gives one list of tokens. */
  lemma {:induction false} ReadsUnique(s: Scan, ts: seq<Token>, us: seq<Token>)
    requires Reads(s, ts, Scan(TEnd, [])) && Reads(s, us, Scan(TEnd, []))
    ensures ts == us
    decreases |ts|
  {
    hide Lex;
    if ts != [] {
      ReadsUnique(Lex(s.prestr).s, ts[1..], us[1..]);
      assert ts == [ts[0]] + ts[1..] && us == [us[0]] + us[1..];
    }
  }

  /** A state at the end of the text has nothing left. */
  lemma {:induction false} ReadsEnd(text: seq<nat>, ts: seq<Token>, s: Scan)
    requires Lex(text).Lexed? && Reads(Lex(text).s, ts, s) && s.rtok == TEnd
    ensures s.prestr == []
    decreases |ts|
  {
    if ts == [] {
      assert text == [];
    } else {
      hide Lex;
      ReadsEnd(Lex(text).s.prestr, ts[1..], s);
    }
  }

  /** The inside of a class: a backslash takes the next byte with it, and neither a bracket nor a
      newline stands by itself. */
  predicate ClassBody(b: seq<nat>)
    decreases |b|
  {
    || b == []
    || (b[0] == BACKSLASH && |b| > 1 && ClassBody(b[2..]))
    || (b[0] != BACKSLASH && b[0] != RBRACKET && b[0] != NEWLINE && ClassBody(b[1..]))
  }

  /** A class is read up to the first bracket by itself, if it fits into the buffer. */
  lemma {:induction false} LexClassExactly(p: seq<nat>, buf: seq<nat>, neg: bool, b: seq<nat>, k: seq<nat>)
    ensures LexClass(p, buf, neg) == Lexed(Scan(if neg then TNccl(buf + b) else TCcl(buf + b), k)) <==>
      p == b + [RBRACKET] + k && ClassBody(b) && |buf| + |b| < MAXLIN - 1
    decreases |p|
  {
    var q := b + [RBRACKET] + k;
    if p == [] || |buf| >= MAXLIN - 1 {
    } else if p[0] == BACKSLASH && |p| > 1 {
      if b != [] && |b| > 1 && b[..2] == p[..2] {
        LexClassExactly(p[2..], buf + p[..2], neg, b[2..], k);
        assert buf + p[..2] + b[2..] == buf + b && buf + p[..2] == buf + [BACKSLASH, p[1]];
        assert p == p[..2] + p[2..] && b[0] == p[..2][0];
        assert q == p[..2] + (b[2..] + [RBRACKET] + k);
      } else {
        LexClassPrefix(p[2..], buf + [BACKSLASH, p[1]], neg);
        SameFront(buf, [BACKSLASH, p[1]], b);
      }
    } else if p[0] == BACKSLASH {
    } else if p[0] == RBRACKET {
      assert b == [] ==> buf + b == buf && q == [RBRACKET] + k;
      assert buf + b == buf ==> |b| == 0;
      assert p == [RBRACKET] + p[1..];
    } else if p[0] != NEWLINE {
      if b != [] && b[0] == p[0] {
        LexClassExactly(p[1..], buf + [p[0]], neg, b[1..], k);
        assert buf + [p[0]] + b[1..] == buf + b;
        assert q == [p[0]] + (b[1..] + [RBRACKET] + k);
      } else {
        LexClassPrefix(p[1..], buf + [p[0]], neg);
        SameFront(buf, [p[0]], b);
      }
    }
  }

  lemma SameFront(buf: seq<nat>, u: seq<nat>, b: seq<nat>)
    ensures buf + u <= buf + b <==> u <= b
  {
    if buf + u <= buf + b { assert b[..|u|] == (buf + b)[|buf|..|buf| + |u|] == u; }
    if u <= b { assert buf + b == buf + u + b[|u|..]; }
  }

  /** The text read so far stays in the token. */
  lemma {:induction false} LexClassPrefix(p: seq<nat>, buf: seq<nat>, neg: bool)
    ensures var l := LexClass(p, buf, neg);
      l.Lexed? ==> if neg then l.s.rtok.TNccl? && buf <= l.s.rtok.str else l.s.rtok.TCcl? && buf <= l.s.rtok.str
    decreases |p|
  {
    if p == [] || |buf| >= MAXLIN - 1 {
    } else if p[0] == BACKSLASH && |p| > 1 {
      LexClassPrefix(p[2..], buf + [BACKSLASH, p[1]], neg);
    } else if p[0] != BACKSLASH && p[0] != RBRACKET && p[0] != NEWLINE {
      LexClassPrefix(p[1..], buf + [p[0]], neg);
    }
  }

  // ---------- what the grammar derives is parsed ----------

  predicate Opens(t: Token) {
    StartsPrimary(t) || t == THat
  }

  lemma {:induction false} PrimaryOpens(ts: seq<Token>, r: Re)
    requires IsPrimary(ts, r)
    ensures ts != [] && Opens(ts[0]) && !HasFinal(r)
    decreases |ts|, 1
  {
    if IsGroup(ts, r) {
      ExpressionOpens(ts[1..|ts| - 1], r);
    } else if IsSuffixed(ts, r) {
      PrimaryOpens(ts[..|ts| - 1], r.x);
    }
  }

  lemma {:induction false} SequenceOpens(ts: seq<Token>, r: Re)
    requires IsSequence(ts, r)
    ensures ts != [] && Opens(ts[0]) && !HasFinal(r)
    decreases |ts|, 2
  {
    if IsPrimary(ts, r) {
      PrimaryOpens(ts, r);
    } else {
      var i: nat :| JoinAt(ts, r, i);
      SequenceOpens(ts[..i], r.l);
      PrimaryOpens(ts[i..], r.r);
    }
  }

  lemma {:induction false} ExpressionOpens(ts: seq<Token>, r: Re)
    requires IsExpression(ts, r)
    ensures ts != [] && Opens(ts[0]) && !HasFinal(r)
    decreases |ts|, 3
  {
    if IsSequence(ts, r) {
      SequenceOpens(ts, r);
    } else {
      var i: nat :| BarAt(ts, r, i);
      ExpressionOpens(ts[..i], r.l);
      SequenceOpens(ts[i + 1..], r.r);
    }
  }

  /** A primary and the operands behind it. */
  function Run(s: Scan): Parsed {
    var p := Primary(s);
    if p.Failed? then p else Concat(p.tree, p.s)
  }

  lemma {:induction false} PrimaryRuns(ts: seq<Token>, r: Re, s: Scan, s': Scan)
    requires Reads(s, ts, s') && IsPrimary(ts, r)
    ensures !HasFinal(r) && Primary(s) == Unary(r, s')
    decreases |ts|, 1
  {
    hide Lex, ClassChars, Regexp;
    PrimaryOpens(ts, r);
    if IsGroup(ts, r) {
      GroupRuns(ts, r, s, s');
    } else if IsSuffixed(ts, r) {
      var n := |ts| - 1;
      var m := ReadsSplit(s, ts, n, s');
      PrimaryRuns(ts[..n], r.x, s, m);
      assert ts[n..] == [ts[n]] && [ts[n]][1..] == [];
    } else if |ts| == 1 {
      LeafRuns(ts, r, s, s');
    } else {
      EmptyGroupRuns(s, s');
    }
  }

  lemma LeafRuns(ts: seq<Token>, r: Re, s: Scan, s': Scan)
    requires Reads(s, ts, s') && |ts| == 1 && LeafOf(ts[0], r) && !HasFinal(r)
    ensures Primary(s) == Unary(r, s')
  {
    hide Lex, ClassChars, Regexp;
    assert ts[1..] == [];
    assert Primary(s) == Then(r, s.prestr);
  }

  lemma EmptyGroupRuns(s: Scan, s': Scan)
    requires Reads(s, [TOpen, TClose], s')
    ensures Primary(s) == Unary(Leaf(Ccl([]), 0), s')
  {
    hide Lex, ClassChars, Regexp;
    var ts := [TOpen, TClose];
    assert ts[1..] == [TClose] && [TClose][1..] == [];
  }

  lemma {:induction false} GroupRuns(ts: seq<Token>, r: Re, s: Scan, s': Scan)
    requires Reads(s, ts, s') && IsGroup(ts, r) && !HasFinal(r)
    ensures Primary(s) == Unary(r, s')
    decreases |ts|, 0
  {
    hide Lex, Primary, Regexp, Alt, Unary, IsExpression;
    var n := |ts| - 1;
    var m := ReadsSplit(s, ts, 1, s');
    var e := ReadsSplit(m, ts[1..], n - 1, s');
    assert ts[..1] == [TOpen] && [TOpen][1..] == [];
    assert ts[1..][..n - 1] == ts[1..n] && ts[1..][n - 1..] == [TClose] && [TClose][1..] == [];
    ExpressionRuns(ts[1..n], r, m, e);
    ExpressionOpens(ts[1..n], r);
    assert m.rtok == ts[1..n][0];
    GroupPrimary(s, m, r, e, s');
  }

  lemma GroupPrimary(s: Scan, m: Scan, r: Re, e: Scan, s': Scan)
    requires s.rtok == TOpen && Lex(s.prestr) == Lexed(m) && m.rtok != TClose && !HasFinal(r)
    requires Regexp(m) == Alt(r, e) && e.rtok == TClose && Lex(e.prestr) == Lexed(s')
    ensures Primary(s) == Unary(r, s')
  {
    hide Lex, ClassChars, Regexp;
  }

  lemma {:induction false} SequenceRuns(ts: seq<Token>, r: Re, s: Scan, s': Scan)
    requires Reads(s, ts, s') && IsSequence(ts, r) && !IsSuffix(s'.rtok)
    ensures !HasFinal(r) && Run(s) == Concat(r, s')
    decreases |ts|, 2
  {
    hide Lex, Primary, Concat, IsPrimary;
    SequenceOpens(ts, r);
    if IsPrimary(ts, r) {
      PrimaryRuns(ts, r, s, s');
    } else {
      var i: nat :| JoinAt(ts, r, i);
      var m := ReadsSplit(s, ts, i, s');
      PrimaryOpens(ts[i..], r.r);
      assert m.rtok == ts[i];
      SequenceRuns(ts[..i], r.l, s, m);
      PrimaryRuns(ts[i..], r.r, m, s');
      ConcatTakes(r.l, m, r.r, s');
    }
  }

  lemma ConcatTakes(l: Re, s: Scan, m: Re, s': Scan)
    requires !HasFinal(l) && !HasFinal(m) && StartsPrimary(s.rtok) && Primary(s) == Parsed(m, s')
    ensures Concat(l, s) == Concat(Cat(l, m), s')
  {
    hide Primary;
  }

  lemma {:induction false} ExpressionRuns(ts: seq<Token>, r: Re, s: Scan, s': Scan)
    requires Reads(s, ts, s') && IsExpression(ts, r) && !IsSuffix(s'.rtok) && !StartsPrimary(s'.rtok)
    ensures !HasFinal(r) && Regexp(s) == Alt(r, s')
    decreases |ts|, 3
  {
    hide Lex, Primary, Concat, Alt, IsSequence;
    ExpressionOpens(ts, r);
    if IsSequence(ts, r) {
      SequenceRuns(ts, r, s, s');
      ConcatEnds(r, s');
    } else {
      var i: nat :| BarAt(ts, r, i);
      var m := ReadsSplit(s, ts, i, s');
      var n := ReadsSplit(m, ts[i..], 1, s');
      assert ts[i..][..1] == [TOr] && [TOr][1..] == [] && ts[i..][1..] == ts[i + 1..];
      ExpressionRuns(ts[..i], r.l, s, m);
      SequenceRuns(ts[i + 1..], r.r, n, s');
      ConcatEnds(r.r, s');
      AltTakes(r.l, m, n, r.r, s');
    }
  }

  lemma ConcatEnds(r: Re, s: Scan)
    requires !HasFinal(r) && !StartsPrimary(s.rtok)
    ensures Concat(r, s) == Parsed(r, s)
  {
  }

  lemma AltTakes(l: Re, s: Scan, v: Scan, m: Re, s': Scan)
    requires !HasFinal(l) && !HasFinal(m) && s.rtok == TOr && Lex(s.prestr) == Lexed(v) && Run(v) == Parsed(m, s')
    ensures Alt(l, s) == Alt(Or(l, m), s')
  {
    hide Lex, Primary, Concat;
  }

  // ---------- what is parsed, the grammar derives ----------

  lemma {:induction false} MoreSuffix(ts: seq<Token>, x: Re, t: Token, r: Re)
    requires IsPrimary(ts, x) && SuffixOf(t, r) && r.x == x
    ensures IsPrimary(ts + [t], r)
  {
    hide IsExpression;
    PrimaryOpens(ts, x);
    var us := ts + [t];
    assert us[..|us| - 1] == ts;
    assert IsSuffixed(us, r);
  }

  lemma SuffixRead(np: Re, m: Scan) returns (r: Re, next: Scan)
    requires IsSuffix(m.rtok) && !HasFinal(np) && Unary(np, m).Parsed?
    ensures !HasFinal(r) && SuffixOf(m.rtok, r) && r.x == np
    ensures Lex(m.prestr) == Lexed(next) && Unary(np, m) == Unary(r, next) && Size(next) < Size(m)
  {
    hide Lex;
    r := if m.rtok == TStar then Star(np) else if m.rtok == TPlus then Plus(np) else Quest(np);
    next := Lex(m.prestr).s;
    assert Unary(np, m) == Then(r, m.prestr);
  }

  lemma NoSuffix(np: Re, m: Scan)
    requires !IsSuffix(m.rtok) && !HasFinal(np)
    ensures Unary(np, m) == Parsed(np, m)
  {
  }

  /** The suffixes behind a primary. */
  lemma {:induction false} UnaryDerives(np: Re, m: Scan, s: Scan, ts: seq<Token>) returns (us: seq<Token>)
    requires Reads(s, ts, m) && IsPrimary(ts, np) && !HasFinal(np) && Unary(np, m).Parsed?
    ensures Reads(s, us, Unary(np, m).s) && IsPrimary(us, Unary(np, m).tree)
    decreases Size(m)
  {
    hide Lex, Unary, IsPrimary, Reads, Size, SuffixOf;
    us := ts;
    if IsSuffix(m.rtok) {
      var r, next := SuffixRead(np, m);
      ReadsOne(m, next);
      ReadsJoin(s, ts, m, [m.rtok], next);
      MoreSuffix(ts, np, m.rtok, r);
      us := UnaryDerives(r, next, s, ts + [m.rtok]);
    } else {
      NoSuffix(np, m);
    }
  }

  lemma {:induction false} LeafDerives(s: Scan, k: Kind) returns (ts: seq<Token>)
    requires LeafOf(s.rtok, Leaf(k, 0)) && Primary(s).Parsed?
    requires k != Final && Primary(s) == Then(Leaf(k, 0), s.prestr)
    ensures Reads(s, ts, Primary(s).s) && IsPrimary(ts, Primary(s).tree)
  {
    hide Lex, ClassChars, Primary, IsExpression;
    var next := Lex(s.prestr).s;
    ReadsOne(s, next);
    assert IsPrimary([s.rtok], Leaf(k, 0));
    ts := UnaryDerives(Leaf(k, 0), next, s, [s.rtok]);
  }

  lemma {:induction false} PrimaryDerives(s: Scan) returns (ts: seq<Token>)
    requires Primary(s).Parsed?
    ensures Reads(s, ts, Primary(s).s) && IsPrimary(ts, Primary(s).tree)
    decreases Size(s), 1
  {
    hide Lex, ClassChars, Then, Regexp, IsPrimary;
    match s.rtok
    case TChar(v) => ts := LeafDerives(s, Chr(v));
    case TDot => ts := LeafDerives(s, Dot);
    case TCcl(str) => ts := LeafDerives(s, Ccl(ClassChars(str, []).cs));
    case TNccl(str) => ts := LeafDerives(s, Nccl(ClassChars(str, []).cs));
    case THat => ts := LeafDerives(s, Chr(HAT));
    case TDollar => ts := LeafDerives(s, Chr(NUL));
    case TOpen => ts := GroupDerives(s);
    case _ => assert false;
  }

  lemma {:induction false} GroupDerives(s: Scan) returns (ts: seq<Token>)
    requires Primary(s).Parsed? && s.rtok == TOpen
    ensures Reads(s, ts, Primary(s).s) && IsPrimary(ts, Primary(s).tree)
    decreases Size(s), 0
  {
    hide Lex, ClassChars, Regexp, IsExpression;
    var m := Lex(s.prestr).s;
    ReadsOne(s, m);
    if m.rtok == TClose {
      var next := Lex(m.prestr).s;
      ReadsOne(m, next);
      ReadsJoin(s, [TOpen], m, [TClose], next);
      assert [TOpen] + [TClose] == [TOpen, TClose];
      ts := UnaryDerives(Leaf(Ccl([]), 0), next, s, [TOpen, TClose]);
    } else {
      var p := Regexp(m);
      var us := ExpressionDerives(m);
      var next := Lex(p.s.prestr).s;
      ReadsOne(p.s, next);
      ReadsJoin(m, us, p.s, [TClose], next);
      ReadsJoin(s, [TOpen], m, us + [TClose], next);
      ExpressionOpens(us, p.tree);
      var vs := [TOpen] + (us + [TClose]);
      assert vs[1..|vs| - 1] == us;
      assert IsGroup(vs, p.tree);
      ts := UnaryDerives(p.tree, next, s, vs);
    }
  }

  /** The operands behind a sequence. */
  lemma {:induction false} ConcatDerives(np: Re, m: Scan, s: Scan, ts: seq<Token>) returns (us: seq<Token>)
    requires Reads(s, ts, m) && IsSequence(ts, np) && !HasFinal(np) && Concat(np, m).Parsed?
    ensures Reads(s, us, Concat(np, m).s) && IsSequence(us, Concat(np, m).tree)
    decreases Size(m), 2
  {
    hide Lex, Primary, IsPrimary;
    us := ts;
    if StartsPrimary(m.rtok) {
      var p := Primary(m);
      var vs := PrimaryDerives(m);
      ReadsJoin(s, ts, m, vs, p.s);
      SequenceOpens(ts, np);
      PrimaryOpens(vs, p.tree);
      var ws := ts + vs;
      assert ws[..|ts|] == ts && ws[|ts|..] == vs && vs[0] == m.rtok;
      assert JoinAt(ws, Cat(np, p.tree), |ts|);
      us := ConcatDerives(Cat(np, p.tree), p.s, s, ws);
    }
  }

  lemma {:induction false} RunDerives(s: Scan) returns (ts: seq<Token>)
    requires Run(s).Parsed?
    ensures Reads(s, ts, Run(s).s) && IsSequence(ts, Run(s).tree)
    decreases Size(s), 3
  {
    hide Lex, Primary, Concat, IsPrimary;
    var us := PrimaryDerives(s);
    ts := ConcatDerives(Primary(s).tree, Primary(s).s, s, us);
  }

  /** The alternatives behind an expression. */
  lemma {:induction false} AltDerives(np: Re, m: Scan, s: Scan, ts: seq<Token>) returns (us: seq<Token>)
    requires Reads(s, ts, m) && IsExpression(ts, np) && !HasFinal(np) && Alt(np, m).Parsed?
    ensures Reads(s, us, Alt(np, m).s) && IsExpression(us, Alt(np, m).tree)
    decreases Size(m), 4
  {
    hide Lex, Primary, Concat, IsSequence;
    us := ts;
    if m.rtok == TOr {
      var next := Lex(m.prestr).s;
      ReadsOne(m, next);
      var c := Run(next);
      var vs := RunDerives(next);
      ReadsJoin(m, [TOr], next, vs, c.s);
      ReadsJoin(s, ts, m, [TOr] + vs, c.s);
      var ws := ts + ([TOr] + vs);
      assert ws[..|ts|] == ts && ws[|ts|] == TOr && ws[|ts| + 1..] == vs;
      assert BarAt(ws, Or(np, c.tree), |ts|);
      us := AltDerives(Or(np, c.tree), c.s, s, ws);
    }
  }

  lemma {:induction false} ExpressionDerives(s: Scan) returns (ts: seq<Token>)
    requires Regexp(s).Parsed?
    ensures Reads(s, ts, Regexp(s).s) && IsExpression(ts, Regexp(s).tree)
    decreases Size(s), 5
  {
    hide Lex, Primary, Concat, Alt, IsSequence;
    var us := RunDerives(s);
    ts := AltDerives(Run(s).tree, Run(s).s, s, us);
  }

  // ---------- the parser ----------

  /** A text parses to a tree exactly if the grammar derives the tree from its tokens. Hence every
      other text is refused: a missing or superfluous parenthesis, an operator without an operand,
      a `^` behind an operand, a class without meaning, and what the lexer refuses. */
  lemma {:induction false} ParsesExactly(text: seq<nat>, r: Re)
    ensures Reparse(text).Parsed? && Reparse(text).tree == r <==> exists ts :: Tokens(text, ts) && IsExpression(ts, r)
  {
    hide Lex, Regexp, IsExpression;
    if Reparse(text).Parsed? && Reparse(text).tree == r {
      var ts := ExpressionDerives(Lex(text).s);
      ReadsEnd(text, ts, Regexp(Lex(text).s).s);
      assert Tokens(text, ts);
    }
    if ts :| Tokens(text, ts) && IsExpression(ts, r) {
      ExpressionRuns(ts, r, Lex(text).s, Scan(TEnd, []));
      ExpressionOpens(ts, r);
    }
  }

  /** The tree that the grammar gives a text is the only one. */
  lemma OneTree(text: seq<nat>, ts: seq<Token>, us: seq<Token>, r: Re, q: Re)
    requires Tokens(text, ts) && IsExpression(ts, r) && Tokens(text, us) && IsExpression(us, q)
    ensures ts == us && r == q
  {
    hide Lex, Reparse, IsExpression;
    ReadsUnique(Lex(text).s, ts, us);
    ParsesExactly(text, r);
    ParsesExactly(text, q);
  }
}
