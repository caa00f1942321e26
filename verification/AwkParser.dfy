/** The recursive-descent parser of cmd/awk/b.c: `reparse` .. `relex`, with `quoted` and
    `cclenter`. The text is a sequence of bytes without its terminating NUL.
 */
module AwkParser {
  import opened AwkRegex
  import opened AwkFollow
  import opened AwkTable
  import opened AwkMatch
  import opened AwkDfa

  const BACKSLASH: nat := '\\' as nat
  const LPAREN: nat := '(' as nat
  const RPAREN: nat := ')' as nat
  const LBRACKET: nat := '[' as nat
  const RBRACKET: nat := ']' as nat
  const BAR: nat := '|' as nat
  const ASTERISK: nat := '*' as nat
  const PLUSSIGN: nat := '+' as nat
  const QUESTION: nat := '?' as nat
  const PERIOD: nat := '.' as nat
  const CARET: nat := '^' as nat
  const DOLLAR: nat := '$' as nat
  const DASH: nat := '-' as nat
  const ZERO: nat := '0' as nat
  const NEWLINE: nat := '\n' as nat

  /** Reasons for which awk gives up; `PastEnd` is a backslash as last byte, behind which
      the scanner would run past the end of the string. */
  datatype Error =
    | EmptyExpression | SyntaxError | IllegalPrimary
    | NonterminatedClass | NewlineInClass | ClassTooLong | ClassTooBig | PastEnd

  /** Tokens, with what `rlxval` or `rlxstr` holds. */
  datatype Token =
    | TChar(v: nat) | TDot | TCcl(str: seq<nat>) | TNccl(str: seq<nat>)
    | TOr | TStar | TPlus | TQuest | THat | TDollar | TOpen | TClose | TEnd

  /** Look-ahead token and text behind it. */
  datatype Scan = Scan(rtok: Token, prestr: seq<nat>)

  datatype Lexed = Lexed(s: Scan) | LexError(e: Error)
  datatype Parsed = Parsed(tree: Re, s: Scan) | Failed(e: Error)

  // ---------- quoted ----------

  predicate IsOctal(c: nat) {
    ZERO <= c <= ZERO + 8
  }

  predicate IsHex(c: nat) {
    ZERO <= c <= ZERO + 9 || 'a' as nat <= c <= 'f' as nat || 'A' as nat <= c <= 'F' as nat
  }

  function HexValue(c: nat): nat
    requires IsHex(c)
  {
    if c <= ZERO + 9 then c - ZERO
    else if c >= 'a' as nat then c - 'a' as nat + 10
    else c - 'A' as nat + 10
  }

  /** Value of the leading hex digits of `p` after `n`, and how many there are. */
  function HexString(p: seq<nat>, n: nat): (r: (nat, nat))
    ensures r.1 <= |p|
    decreases |p|
  {
    if p == [] || !IsHex(p[0]) then (n, 0)
    else var r := HexString(p[1..], 16 * n + HexValue(p[0])); (r.0, r.1 + 1)
  }

  /** What stands behind a backslash: the value and the number of bytes used. */
  function Quoted(p: seq<nat>): (r: (nat, nat))
    requires p != []
    ensures 1 <= r.1 <= |p|
  {
    var c := p[0];
    if c == 't' as nat then (9, 1)
    else if c == 'n' as nat then (10, 1)
    else if c == 'f' as nat then (12, 1)
    else if c == 'r' as nat then (13, 1)
    else if c == 'b' as nat then (8, 1)
    else if c == BACKSLASH then (BACKSLASH, 1)
    else if c == 'x' as nat then var h := HexString(p[1..], 0); (h.0, h.1 + 1)
    else if IsOctal(c) then
      if |p| > 1 && IsOctal(p[1]) then
        if |p| > 2 && IsOctal(p[2]) then
          (64 * (c - ZERO) + 8 * (p[1] - ZERO) + (p[2] - ZERO), 3)
        else (8 * (c - ZERO) + (p[1] - ZERO), 2)
      else (c - ZERO, 1)
    else (c, 1)
  }

  // ---------- relex ----------

  /** The raw text of a character class up to its `]`; `buf` has been collected so far. */
  function LexClass(p: seq<nat>, buf: seq<nat>, neg: bool): (r: Lexed)
    ensures r.Lexed? ==> r.s.rtok.TCcl? || r.s.rtok.TNccl?
    ensures r.Lexed? ==> |r.s.prestr| < |p|
    decreases |p|
  {
    if |buf| >= MAXLIN - 1 then LexError(ClassTooLong)
    else if p == [] then LexError(NonterminatedClass)
    else if p[0] == BACKSLASH then
      if |p| == 1 then LexError(NonterminatedClass)
      else LexClass(p[2..], buf + [BACKSLASH, p[1]], neg)
    else if p[0] == RBRACKET then Lexed(Scan(if neg then TNccl(buf) else TCcl(buf), p[1..]))
    else if p[0] == NEWLINE then LexError(NewlineInClass)
    else LexClass(p[1..], buf + [p[0]], neg)
  }

  function Lex(p: seq<nat>): (r: Lexed)
    ensures r.Lexed? ==> Size(r.s) <= |p|
    ensures r.Lexed? && r.s.rtok == TEnd ==> p == []
  {
    if p == [] then Lexed(Scan(TEnd, p))
    else
      var c, q := p[0], p[1..];
      if c == BAR then Lexed(Scan(TOr, q))
      else if c == ASTERISK then Lexed(Scan(TStar, q))
      else if c == PLUSSIGN then Lexed(Scan(TPlus, q))
      else if c == QUESTION then Lexed(Scan(TQuest, q))
      else if c == PERIOD then Lexed(Scan(TDot, q))
      else if c == CARET then Lexed(Scan(THat, q))
      else if c == DOLLAR then Lexed(Scan(TDollar, q))
      else if c == LPAREN then Lexed(Scan(TOpen, q))
      else if c == RPAREN then Lexed(Scan(TClose, q))
      else if c == BACKSLASH then
        if q == [] then LexError(PastEnd)
        else var v := Quoted(q); Lexed(Scan(TChar(v.0), q[v.1..]))
      else if c == LBRACKET then
        if q != [] && q[0] == CARET then LexClass(q[1..], [], true) else LexClass(q, [], false)
      else Lexed(Scan(TChar(c), q))
  }

  /** What the parser still has in front of it: every parsing step makes this smaller. */
  function Size(s: Scan): nat {
    |s.prestr| + if s.rtok == TEnd then 0 else 1
  }

  // ---------- cclenter ----------

  datatype Class = Class(cs: seq<nat>) | ClassError(e: Error)

  /** The bytes lo + 1 .. hi. */
  function Upward(lo: nat, hi: nat): seq<nat>
    decreases hi - lo
  {
    if lo >= hi then [] else [(lo + 1) % 256] + Upward(lo + 1, hi)
  }

  /** The part of a buffer that a C string keeps. */
  function BeforeNul(s: seq<nat>): seq<nat> {
    if s == [] || s[0] == NUL then [] else [s[0]] + BeforeNul(s[1..])
  }

  /** Expand escapes and ranges of a class text; `chars` has been collected so far. */
  function ClassChars(p: seq<nat>, chars: seq<nat>): Class
    decreases |p|
  {
    if p == [] then Class(BeforeNul(chars))
    else if p[0] == BACKSLASH && |p| > 1 then
      var v := Quoted(p[1..]);
      if |chars| >= MAXLIN - 1 then ClassError(ClassTooBig)
      else ClassChars(p[1 + v.1..], chars + [v.0 % 256])
    else if p[0] == BACKSLASH then ClassError(PastEnd)
    else if p[0] == DASH && chars != [] && chars[|chars| - 1] != NUL && |p| > 1 then
      var lo := chars[|chars| - 1];
      if p[1] == BACKSLASH && |p| == 2 then ClassError(PastEnd)
      else
        var v := if p[1] == BACKSLASH then Quoted(p[2..]) else (p[1], 0);
        var up := Upward(lo, v.0);
        if |chars| + |up| > MAXLIN - 1 then ClassError(ClassTooBig)
        else ClassChars(p[2 + v.1..], chars + up)
    else if |chars| >= MAXLIN - 1 then ClassError(ClassTooBig)
    else ClassChars(p[1..], chars + [p[0]])
  }

  // ---------- the grammar ----------

  predicate StartsPrimary(t: Token) {
    t.TChar? || t.TDot? || t.TCcl? || t.TNccl? || t.TDollar? || t.TOpen?
  }

  function Regexp(s: Scan): (r: Parsed)
    ensures r.Parsed? ==> Size(r.s) < Size(s) && !HasFinal(r.tree)
    decreases Size(s), 2
  {
    var p := Primary(s);
    if p.Failed? then p else
      var c := Concat(p.tree, p.s);
      if c.Failed? then c else Alt(c.tree, c.s)
  }

  /** Read the next token and go on with `Unary`. */
  function Then(np: Re, prestr: seq<nat>): (r: Parsed)
    requires !HasFinal(np)
    ensures r.Parsed? ==> Size(r.s) <= |prestr| && !HasFinal(r.tree)
    decreases |prestr| + 1, 0
  {
    var l := Lex(prestr);
    if l.LexError? then Failed(l.e) else Unary(np, l.s)
  }

  function Primary(s: Scan): (r: Parsed)
    ensures r.Parsed? ==> Size(r.s) < Size(s) && !HasFinal(r.tree)
    decreases Size(s), 1
  {
    match s.rtok
    case TChar(v) => Then(Leaf(Chr(v), 0), s.prestr)
    case TDot => Then(Leaf(Dot, 0), s.prestr)
    case TCcl(str) =>
      var cs := ClassChars(str, []);
      if cs.ClassError? then Failed(cs.e) else Then(Leaf(Ccl(cs.cs), 0), s.prestr)
    case TNccl(str) =>
      var cs := ClassChars(str, []);
      if cs.ClassError? then Failed(cs.e) else Then(Leaf(Nccl(cs.cs), 0), s.prestr)
    case THat => Then(Leaf(Chr(HAT), 0), s.prestr)
    case TDollar => Then(Leaf(Chr(NUL), 0), s.prestr)
    case TOpen =>
      var l := Lex(s.prestr);
      if l.LexError? then Failed(l.e)
      else if l.s.rtok == TClose then Then(Leaf(Ccl([]), 0), l.s.prestr)
      else
        var p := Regexp(l.s);
        if p.Failed? then p
        else if p.s.rtok == TClose then Then(p.tree, p.s.prestr)
        else Failed(SyntaxError)
    case _ => Failed(IllegalPrimary)
  }

  function Concat(np: Re, s: Scan): (r: Parsed)
    requires !HasFinal(np)
    ensures r.Parsed? ==> Size(r.s) <= Size(s) && !HasFinal(r.tree)
    decreases Size(s), 2
  {
    if StartsPrimary(s.rtok) then
      var p := Primary(s);
      if p.Failed? then p else Concat(Cat(np, p.tree), p.s)
    else Parsed(np, s)
  }

  function Alt(np: Re, s: Scan): (r: Parsed)
    requires !HasFinal(np)
    ensures r.Parsed? ==> Size(r.s) <= Size(s) && !HasFinal(r.tree)
    decreases Size(s), 2
  {
    if s.rtok == TOr then
      var l := Lex(s.prestr);
      if l.LexError? then Failed(l.e) else
        var p := Primary(l.s);
        if p.Failed? then p else
          var c := Concat(p.tree, p.s);
          if c.Failed? then c else Alt(Or(np, c.tree), c.s)
    else Parsed(np, s)
  }

  function Unary(np: Re, s: Scan): (r: Parsed)
    requires !HasFinal(np)
    ensures r.Parsed? ==> Size(r.s) <= Size(s) && !HasFinal(r.tree)
    decreases Size(s), 1
  {
    match s.rtok
    case TStar => Then(Star(np), s.prestr)
    case TPlus => Then(Plus(np), s.prestr)
    case TQuest => Then(Quest(np), s.prestr)
    case _ => Parsed(np, s)
  }

  function Reparse(text: seq<nat>): (r: Parsed)
    ensures r.Parsed? ==> !HasFinal(r.tree)
  {
    var l := Lex(text);
    if l.LexError? then Failed(l.e)
    else if l.s.rtok == TEnd then Failed(EmptyExpression)
    else
      var p := Regexp(l.s);
      if p.Failed? then p
      else if p.s.rtok != TEnd then Failed(SyntaxError)
      else p
  }

  // ---------- the parser as it runs, on the globals rtok and prestr ----------

  datatype Outcome = Tree(tree: Re) | Fatal(e: Error)

  class ReParser {
    var rtok: Token
    var prestr: seq<nat>

    constructor (text: seq<nat>)
      ensures prestr == text
    {
      rtok, prestr := TEnd, text;
    }

    ghost function State(): Scan
      reads this
    {
      Scan(rtok, prestr)
    }

    /** The new globals and the result are those of `p`. */
    ghost predicate Yields(res: Outcome, p: Parsed)
      reads this
    {
      match p
      case Parsed(tree, s) => res == Tree(tree) && State() == s
      case Failed(e) => res == Fatal(e)
    }

    /** `relex`; returns the fatal error, if any. */
    method Relex() returns (ok: bool, e: Error)
      modifies this
      ensures match Lex(old(prestr)) case Lexed(s) => ok && State() == s case LexError(err) => !ok && e == err
    {
      ok, e := true, SyntaxError;
      if prestr == [] {
        rtok := TEnd;
        return;
      }
      var c := prestr[0];
      prestr := prestr[1..];
      if c == BAR { rtok := TOr; }
      else if c == ASTERISK { rtok := TStar; }
      else if c == PLUSSIGN { rtok := TPlus; }
      else if c == QUESTION { rtok := TQuest; }
      else if c == PERIOD { rtok := TDot; }
      else if c == CARET { rtok := THat; }
      else if c == DOLLAR { rtok := TDollar; }
      else if c == LPAREN { rtok := TOpen; }
      else if c == RPAREN { rtok := TClose; }
      else if c == BACKSLASH {
        if prestr == [] {
          return false, PastEnd;
        }
        var v := Quoted(prestr);
        rtok := TChar(v.0);
        prestr := prestr[v.1..];
      } else if c == LBRACKET {
        var cflag := prestr != [] && prestr[0] == CARET;
        if cflag {
          prestr := prestr[1..];
        }
        ok, e := RelexClass(cflag);
      } else {
        rtok := TChar(c);
      }
    }

    /** The loop of `relex` that collects a character class into `cbuf`. */
    method RelexClass(cflag: bool) returns (ok: bool, e: Error)
      modifies this
      ensures match LexClass(old(prestr), [], cflag)
              case Lexed(s) => ok && State() == s
              case LexError(err) => !ok && e == err
    {
      var cbuf := [];
      while |cbuf| < MAXLIN - 1
        invariant LexClass(prestr, cbuf, cflag) == LexClass(old(prestr), [], cflag)
        decreases |prestr|
      {
        if prestr == [] {
          return false, NonterminatedClass;
        }
        var c := prestr[0];
        if c == BACKSLASH {
          if |prestr| == 1 {
            return false, NonterminatedClass;
          }
          cbuf := cbuf + [BACKSLASH, prestr[1]];
          prestr := prestr[2..];
        } else if c == RBRACKET {
          prestr := prestr[1..];
          rtok := if cflag then TNccl(cbuf) else TCcl(cbuf);
          return true, SyntaxError;
        } else if c == NEWLINE {
          return false, NewlineInClass;
        } else {
          cbuf := cbuf + [c];
          prestr := prestr[1..];
        }
      }
      return false, ClassTooLong;
    }

    /** The loop of `cclenter` for a range. */
    static method AppendRange(chars: seq<nat>, lo: nat, hi: nat) returns (out: seq<nat>, fits: bool)
      requires |chars| <= MAXLIN - 1
      ensures fits <==> |chars| + |Upward(lo, hi)| <= MAXLIN - 1
      ensures fits ==> out == chars + Upward(lo, hi)
    {
      out := chars;
      var i := lo;
      while i < hi
        invariant out + Upward(i, hi) == chars + Upward(lo, hi) && |out| <= MAXLIN - 1
        decreases if i < hi then hi - i else 0
      {
        assert |out| + |Upward(i, hi)| == |chars| + |Upward(lo, hi)|;
        if |out| >= MAXLIN - 1 { return out, false; }
        ghost var head, tail := [(i + 1) % 256], Upward(i + 1, hi);
        assert Upward(i, hi) == head + tail;
        assert out + (head + tail) == (out + head) + tail;
        i := i + 1;
        out := out + [i % 256];
      }
      fits := true;
    }

    /** One turn of `cclenter`: a quoted byte, a range, or a byte as it is. */
    static lemma ClassNext(p: seq<nat>, chars: seq<nat>)
      requires p != []
      ensures p[0] == BACKSLASH && |p| > 1 ==>
        ClassChars(p, chars) ==
          if |chars| >= MAXLIN - 1 then ClassError(ClassTooBig)
          else ClassChars(p[1 + Quoted(p[1..]).1..], chars + [Quoted(p[1..]).0 % 256])
      ensures p == [BACKSLASH] ==> ClassChars(p, chars) == ClassError(PastEnd)
      ensures p[0] == DASH && chars != [] && chars[|chars| - 1] != NUL && |p| > 1 ==>
        ClassChars(p, chars) ==
          if p[1] == BACKSLASH && |p| == 2 then ClassError(PastEnd)
          else
            var v := if p[1] == BACKSLASH then Quoted(p[2..]) else (p[1], 0);
            var up := Upward(chars[|chars| - 1], v.0);
            if |chars| + |up| > MAXLIN - 1 then ClassError(ClassTooBig) else ClassChars(p[2 + v.1..], chars + up)
      ensures p[0] != BACKSLASH && !(p[0] == DASH && chars != [] && chars[|chars| - 1] != NUL && |p| > 1) ==>
        ClassChars(p, chars) ==
          if |chars| >= MAXLIN - 1 then ClassError(ClassTooBig) else ClassChars(p[1..], chars + [p[0]])
    {
      hide Upward, Quoted, BeforeNul;
    }

    /** `cclenter`. */
    static method CclEnter(text: seq<nat>) returns (r: Class)
      ensures r == ClassChars(text, [])
    {
      hide Upward, Quoted, BeforeNul, ClassChars;
      var chars: seq<nat> := [];
      var p := text;
      while p != []
        invariant ClassChars(p, chars) == ClassChars(text, []) && |chars| <= MAXLIN - 1
        decreases |p|
      {
        ClassNext(p, chars);
        var c := p[0];
        if c == BACKSLASH {
          if |p| == 1 { return ClassError(PastEnd); }
          var v := Quoted(p[1..]);
          if |chars| >= MAXLIN - 1 { return ClassError(ClassTooBig); }
          chars := chars + [v.0 % 256];
          p := p[1 + v.1..];
        } else if c == DASH && chars != [] && chars[|chars| - 1] != NUL && |p| > 1 {
          if p[1] == BACKSLASH && |p| == 2 { return ClassError(PastEnd); }
          var v := if p[1] == BACKSLASH then Quoted(p[2..]) else (p[1], 0);
          var fits;
          chars, fits := AppendRange(chars, chars[|chars| - 1], v.0);
          if !fits { return ClassError(ClassTooBig); }
          p := p[2 + v.1..];
        } else {
          if |chars| >= MAXLIN - 1 { return ClassError(ClassTooBig); }
          chars := chars + [c];
          p := p[1..];
        }
      }
      ClassEnd(chars);
      r := Class(BeforeNul(chars));
    }

    static lemma ClassEnd(chars: seq<nat>)
      ensures ClassChars([], chars) == Class(BeforeNul(chars))
    {
    }

    method ParseRegexp() returns (res: Outcome)
      modifies this
      ensures Yields(res, Regexp(old(State())))
      decreases Size(State()), 2
    {
      res := ParsePrimary();
      if res.Tree? {
        res := ParseConcat(res.tree);
      }
      if res.Tree? {
        res := ParseAlt(res.tree);
      }
    }

    /** `rtok = relex(); return unary(np)`. */
    method ParseThen(np: Re) returns (res: Outcome)
      requires !HasFinal(np)
      modifies this
      ensures Yields(res, Then(np, old(prestr)))
      decreases |prestr| + 1, 0
    {
      var ok, e := Relex();
      if !ok {
        return Fatal(e);
      }
      res := ParseUnary(np);
    }

    method ParseClass(str: seq<nat>, neg: bool) returns (res: Outcome)
      modifies this
      ensures match ClassChars(str, [])
              case ClassError(e) => res == Fatal(e)
              case Class(cs) => Yields(res, Then(Leaf(if neg then Nccl(cs) else Ccl(cs), 0), old(prestr)))
      decreases |prestr| + 1, 1
    {
      var cs := CclEnter(str);
      if cs.ClassError? {
        return Fatal(cs.e);
      }
      res := ParseThen(Leaf(if neg then Nccl(cs.cs) else Ccl(cs.cs), 0));
    }

    method ParseGroup() returns (res: Outcome)
      requires rtok == TOpen
      modifies this
      ensures Yields(res, Primary(old(State())))
      decreases Size(State()), 0
    {
      var ok, e := Relex();
      if !ok {
        return Fatal(e);
      }
      if rtok == TClose {
        res := ParseThen(Leaf(Ccl([]), 0));
        return;
      }
      res := ParseRegexp();
      if res.Tree? {
        if rtok == TClose {
          res := ParseThen(res.tree);
        } else {
          res := Fatal(SyntaxError);
        }
      }
    }

    method ParsePrimary() returns (res: Outcome)
      modifies this
      ensures Yields(res, Primary(old(State())))
      decreases Size(State()), 1
    {
      match rtok
      case TChar(v) => res := ParseThen(Leaf(Chr(v), 0));
      case TDot => res := ParseThen(Leaf(Dot, 0));
      case TCcl(str) => res := ParseClass(str, false);
      case TNccl(str) => res := ParseClass(str, true);
      case THat => res := ParseThen(Leaf(Chr(HAT), 0));
      case TDollar => res := ParseThen(Leaf(Chr(NUL), 0));
      case TOpen => res := ParseGroup();
      case _ => res := Fatal(IllegalPrimary);
    }

    method ParseConcat(np: Re) returns (res: Outcome)
      requires !HasFinal(np)
      modifies this
      ensures Yields(res, Concat(np, old(State())))
      decreases Size(State()), 2
    {
      if StartsPrimary(rtok) {
        res := ParsePrimary();
        if res.Tree? {
          res := ParseConcat(Cat(np, res.tree));
        }
      } else {
        res := Tree(np);
      }
    }

    method ParseAlt(np: Re) returns (res: Outcome)
      requires !HasFinal(np)
      modifies this
      ensures Yields(res, Alt(np, old(State())))
      decreases Size(State()), 2
    {
      if rtok == TOr {
        var ok, e := Relex();
        if !ok {
          return Fatal(e);
        }
        res := ParsePrimary();
        if res.Tree? {
          res := ParseConcat(res.tree);
        }
        if res.Tree? {
          res := ParseAlt(Or(np, res.tree));
        }
      } else {
        res := Tree(np);
      }
    }

    method ParseUnary(np: Re) returns (res: Outcome)
      requires !HasFinal(np)
      modifies this
      ensures Yields(res, Unary(np, old(State())))
      decreases Size(State()), 1
    {
      match rtok
      case TStar => res := ParseThen(Star(np));
      case TPlus => res := ParseThen(Plus(np));
      case TQuest => res := ParseThen(Quest(np));
      case _ => res := Tree(np);
    }

    /** `reparse`. */
    static method ParseText(text: seq<nat>) returns (res: Outcome)
      ensures match Reparse(text) case Parsed(t, _) => res == Tree(t) case Failed(e) => res == Fatal(e)
    {
      var p := new ReParser(text);
      var ok, e := p.Relex();
      if !ok {
        return Fatal(e);
      }
      if p.rtok == TEnd {
        return Fatal(EmptyExpression);
      }
      res := p.ParseRegexp();
      if res.Tree? && p.rtok != TEnd {
        res := Fatal(SyntaxError);
      }
    }

    /** `mkdfa` from text: null when the text does not parse or has too many positions. */
    static method MkDfa(text: seq<nat>, anchored: bool) returns (f: Fa?)
      ensures f == null <==> Reparse(text).Failed? || LeafCount(Reparse(text).tree) + 2 > MAXLIN
      ensures f != null ==> fresh(f) && f.Valid() && !f.reset && f.initstat == BeginState(f.re, f.pat)
      ensures f != null ==> f.pat == Reparse(text).tree && f.anchor == anchored
    {
      var res := ParseText(text);
      if res.Fatal? {
        return null;
      }
      f := Fa.MakeDfa(res.tree, anchored);
    }
  }

  // ---------- every tree has a spelling that parses back to it ----------

  function Octal(c: nat): seq<nat> {
    [BACKSLASH, ZERO + c / 64 % 8, ZERO + c / 8 % 8, ZERO + c % 8]
  }

  /** The bytes that mean something in a class. */
  predicate IsSpecial(c: nat) {
    c == BACKSLASH || c == RBRACKET || c == DASH || c == CARET || c == NEWLINE
  }

  function ClassByte(c: nat): seq<nat> {
    if c == NEWLINE then [BACKSLASH, 'n' as nat] else if IsSpecial(c) then [BACKSLASH, c] else [c]
  }

  function Escaped(cs: seq<nat>): seq<nat> {
    if cs == [] then [] else ClassByte(cs[0]) + Escaped(cs[1..])
  }

  /** Fully parenthesised spelling, every literal byte outside a class in octal. */
  function Spell(r: Re): seq<nat> {
    match r
    case Leaf(k, _) => SpellLeaf(k)
    case Star(x) => Group(Spell(x)) + [ASTERISK]
    case Plus(x) => Group(Spell(x)) + [PLUSSIGN]
    case Quest(x) => Group(Spell(x)) + [QUESTION]
    case Cat(l, m) => Group(Spell(l)) + Group(Spell(m))
    case Or(l, m) => Group(Spell(l)) + [BAR] + Group(Spell(m))
  }

  function Group(t: seq<nat>): seq<nat> {
    [LPAREN] + t + [RPAREN]
  }

  function SpellLeaf(k: Kind): seq<nat> {
    match k
    case Chr(c) => if c == NUL then [DOLLAR] else if c == HAT then [CARET] else Octal(c)
    case Dot => [PERIOD]
    case Ccl(cs) => [LBRACKET] + Escaped(cs) + [RBRACKET]
    case Nccl(cs) => [LBRACKET, CARET] + Escaped(cs) + [RBRACKET]
    case All => []
    case Final => []
  }

  /** Trees over bytes whose classes fit the scanner's buffer. ALL and FINAL have no spelling. */
  predicate Spellable(r: Re) {
    match r
    case Leaf(k, p) => p == 0 && SpellableKind(k)
    case Star(x) => Spellable(x)
    case Plus(x) => Spellable(x)
    case Quest(x) => Spellable(x)
    case Cat(l, m) => Spellable(l) && Spellable(m)
    case Or(l, m) => Spellable(l) && Spellable(m)
  }

  predicate SpellableKind(k: Kind) {
    match k
    case Chr(c) => c <= HAT
    case Dot => true
    case Ccl(cs) => |Escaped(cs)| < MAXLIN - 1 && forall c :: c in cs ==> 0 < c < 256
    case Nccl(cs) => |Escaped(cs)| < MAXLIN - 1 && forall c :: c in cs ==> 0 < c < 256
    case All => false
    case Final => false
  }

  lemma LexOctal(c: nat, k: seq<nat>)
    requires c < 512
    ensures Lex(Octal(c) + k) == Lexed(Scan(TChar(c), k))
  {
    var p := Octal(c) + k;
    QuotedOctal(c, k);
    assert p[1..] == Octal(c)[1..] + k;
    assert (Octal(c)[1..] + k)[3..] == k;
  }

  lemma QuotedOctal(c: nat, k: seq<nat>)
    requires c < 512
    ensures Quoted(Octal(c)[1..] + k) == (c, 3)
  {
    var a, b, d := c / 64 % 8, c / 8 % 8, c % 8;
    QuotedDigits(a, b, d, k);
    OctalValue(c);
    assert Octal(c)[1..] == [ZERO + a, ZERO + b, ZERO + d];
  }

  lemma QuotedDigits(a: nat, b: nat, d: nat, k: seq<nat>)
    requires a < 8 && b < 8 && d < 8
    ensures Quoted([ZERO + a, ZERO + b, ZERO + d] + k) == (64 * a + 8 * b + d, 3)
  {
    var q := [ZERO + a, ZERO + b, ZERO + d] + k;
    assert q[0] == ZERO + a && q[1] == ZERO + b && q[2] == ZERO + d;
  }

  lemma OctalValue(c: nat)
    requires c < 512
    ensures 64 * (c / 64 % 8) + 8 * (c / 8 % 8) + c % 8 == c
  {
    var e := c / 8;
    assert c == 8 * e + c % 8;
    assert e == 8 * (e / 8) + e % 8;
    assert c / 64 == e / 8 && e / 8 < 8;
  }

  lemma {:induction false} LexEscaped(cs: seq<nat>, buf: seq<nat>, neg: bool, k: seq<nat>)
    requires |buf| + |Escaped(cs)| < MAXLIN - 1
    ensures LexClass(Escaped(cs) + [RBRACKET] + k, buf, neg) ==
      Lexed(Scan(if neg then TNccl(buf + Escaped(cs)) else TCcl(buf + Escaped(cs)), k))
  {
    var p := Escaped(cs) + [RBRACKET] + k;
    if cs == [] {
      assert p[0] == RBRACKET && p[1..] == k;
      assert buf + Escaped(cs) == buf;
    } else {
      hide LexClass, ClassByte;
      var o := ClassByte(cs[0]);
      var p' := Escaped(cs[1..]) + [RBRACKET] + k;
      assert p == o + p';
      LexClassByte(cs[0], p', buf, neg);
      LexEscaped(cs[1..], buf + o, neg, k);
      assert buf + o + Escaped(cs[1..]) == buf + Escaped(cs);
    }
  }

  lemma {:induction false} LexClassByte(c: nat, p: seq<nat>, buf: seq<nat>, neg: bool)
    requires |buf| + |ClassByte(c)| < MAXLIN - 1
    ensures LexClass(ClassByte(c) + p, buf, neg) == LexClass(p, buf + ClassByte(c), neg)
  {
    var o := ClassByte(c);
    var q := o + p;
    assert q[|o|..] == p && q[0] == o[0];
  }

  lemma {:induction false} ClassCharsByte(c: nat, rest: seq<nat>, chars: seq<nat>)
    requires 0 < c < 256 && |chars| < MAXLIN - 1
    ensures ClassChars(ClassByte(c) + rest, chars) == ClassChars(rest, chars + [c])
  {
    var o := ClassByte(c);
    var p := o + rest;
    assert p[0] == o[0] && p[|o|..] == rest;
    if IsSpecial(c) {
      assert p[1..] == [o[1]] + rest && Quoted(p[1..]) == (c, 1);
    }
  }

  lemma {:induction false} ClassCharsEscaped(cs: seq<nat>, chars: seq<nat>)
    requires |chars| + |Escaped(cs)| < MAXLIN - 1 && forall c :: c in cs ==> 0 < c < 256
    ensures ClassChars(Escaped(cs), chars) == Class(BeforeNul(chars + cs))
  {
    if cs == [] {
      assert chars + cs == chars;
    } else {
      hide ClassChars, ClassByte;
      assert cs[0] in cs && forall c :: c in cs[1..] ==> c in cs;
      assert |ClassByte(cs[0])| > 0 by { ClassByteSize(cs[0]); }
      ClassCharsByte(cs[0], Escaped(cs[1..]), chars);
      ClassCharsEscaped(cs[1..], chars + [cs[0]]);
      assert chars + [cs[0]] + cs[1..] == chars + cs;
    }
  }

  lemma ClassByteSize(c: nat)
    ensures 1 <= |ClassByte(c)| <= 2 && ClassByte(c)[0] != CARET
  {
  }

  lemma {:induction false} BeforeNulKeeps(cs: seq<nat>)
    requires forall c :: c in cs ==> 0 < c
    ensures BeforeNul(cs) == cs
  {
    if cs != [] {
      assert cs[0] in cs && forall c :: c in cs[1..] ==> c in cs;
      BeforeNulKeeps(cs[1..]);
    }
  }

  lemma ClassPrimary(cs: seq<nat>, neg: bool, t: seq<nat>)
    requires |Escaped(cs)| < MAXLIN - 1 && forall c :: c in cs ==> 0 < c < 256
    ensures LexClass(Escaped(cs) + [RBRACKET] + t, [], neg) ==
            Lexed(Scan(if neg then TNccl(Escaped(cs)) else TCcl(Escaped(cs)), t))
    ensures ClassChars(Escaped(cs), []) == Class(cs)
  {
    LexEscaped(cs, [], neg, t);
    ClassCharsEscaped(cs, []);
    BeforeNulKeeps(cs);
    assert [] + cs == cs && [] + Escaped(cs) == Escaped(cs);
  }

  lemma EscapedHead(cs: seq<nat>)
    ensures cs != [] ==> Escaped(cs) != [] && Escaped(cs)[0] != CARET
  {
    if cs != [] { ClassByteSize(cs[0]); }
  }

  /** A bracket opens a class, complemented when a caret follows. */
  lemma {:induction false} LexBracket(q: seq<nat>)
    ensures Lex([LBRACKET] + q) ==
      if q != [] && q[0] == CARET then LexClass(q[1..], [], true) else LexClass(q, [], false)
  {
    var p := [LBRACKET] + q;
    assert p[0] == LBRACKET && p[1..] == q;
  }

  lemma LexCcl(cs: seq<nat>, t: seq<nat>)
    requires SpellableKind(Ccl(cs))
    ensures Lex(SpellLeaf(Ccl(cs)) + t) == Lexed(Scan(TCcl(Escaped(cs)), t))
  {
    var q := Escaped(cs) + [RBRACKET] + t;
    assert SpellLeaf(Ccl(cs)) + t == [LBRACKET] + q;
    ClassPrimary(cs, false, t);
    EscapedHead(cs);
    LexBracket(q);
  }

  lemma LexNccl(cs: seq<nat>, t: seq<nat>)
    requires SpellableKind(Nccl(cs))
    ensures Lex(SpellLeaf(Nccl(cs)) + t) == Lexed(Scan(TNccl(Escaped(cs)), t))
  {
    var q := Escaped(cs) + [RBRACKET] + t;
    assert SpellLeaf(Nccl(cs)) + t == [LBRACKET] + ([CARET] + q);
    ClassPrimary(cs, true, t);
    LexBracket([CARET] + q);
    assert ([CARET] + q)[1..] == q;
  }

  /** A leaf's spelling is one token, which `Primary` turns into that leaf. */
  lemma PrimaryLeaf(k: Kind, t: seq<nat>)
    requires SpellableKind(k)
    ensures Lex(SpellLeaf(k) + t).Lexed?
    ensures var s := Lex(SpellLeaf(k) + t).s;
            s.rtok != TClose && s.rtok != TEnd && Primary(s) == Then(Leaf(k, 0), t)
  {
    var p := SpellLeaf(k) + t;
    match k
    case Chr(c) =>
      if c != NUL && c != HAT { LexOctal(c, t); } else { assert p[1..] == t; }
    case Dot => assert p[1..] == t;
    case Ccl(cs) => LexCcl(cs, t); ClassPrimary(cs, false, t);
    case Nccl(cs) => LexNccl(cs, t); ClassPrimary(cs, true, t);
  }

  /** Text at which a complete expression ends. */
  predicate Ends(t: seq<nat>) {
    t == [] || t[0] == RPAREN
  }

  function AfterEnd(t: seq<nat>): Scan
    requires Ends(t)
  {
    if t == [] then Scan(TEnd, t) else Scan(TClose, t[1..])
  }

  lemma LexEnds(t: seq<nat>)
    requires Ends(t)
    ensures Lex(t) == Lexed(AfterEnd(t))
  {
  }

  /** A primary on its own is an expression. */
  lemma RegexpOne(s: Scan, r: Re, t: seq<nat>)
    requires Ends(t) && Primary(s) == Parsed(r, AfterEnd(t)) && !HasFinal(r)
    ensures Regexp(s) == Parsed(r, AfterEnd(t))
  {
    assert Concat(r, AfterEnd(t)) == Parsed(r, AfterEnd(t));
    assert Alt(r, AfterEnd(t)) == Parsed(r, AfterEnd(t));
  }

  /** Two primaries in a row are a concatenation. */
  lemma RegexpTwo(s: Scan, s2: Scan, l: Re, m: Re, t: seq<nat>)
    requires Ends(t) && Primary(s) == Parsed(l, s2) && StartsPrimary(s2.rtok)
    requires Primary(s2) == Parsed(m, AfterEnd(t))
    ensures Regexp(s) == Parsed(Cat(l, m), AfterEnd(t))
  {
    assert Concat(Cat(l, m), AfterEnd(t)) == Parsed(Cat(l, m), AfterEnd(t));
  }

  /** Two primaries with a bar between them are an alternation. */
  lemma RegexpEither(s: Scan, v: seq<nat>, l: Re, m: Re, t: seq<nat>)
    requires Ends(t) && Primary(s) == Parsed(l, Scan(TOr, v)) && Lex(v).Lexed?
    requires Primary(Lex(v).s) == Parsed(m, AfterEnd(t))
    ensures Regexp(s) == Parsed(Or(l, m), AfterEnd(t))
  {
    assert Concat(l, Scan(TOr, v)) == Parsed(l, Scan(TOr, v));
    assert Concat(m, AfterEnd(t)) == Parsed(m, AfterEnd(t));
    assert Alt(Or(l, m), AfterEnd(t)) == Parsed(Or(l, m), AfterEnd(t));
  }

  lemma ThenEnds(r: Re, t: seq<nat>)
    requires Ends(t) && !HasFinal(r)
    ensures Then(r, t) == Parsed(r, AfterEnd(t))
  {
    LexEnds(t);
  }

  lemma {:induction false} SuffixSpell(x: Re, op: nat, r: Re, t: seq<nat>, p: seq<nat>)
    requires Spellable(x) && Ends(t) && p == Spell(r) + t
    requires (op == ASTERISK && r == Star(x)) || (op == PLUSSIGN && r == Plus(x)) || (op == QUESTION && r == Quest(x))
    ensures Opens(p) && Regexp(Lex(p).s) == Parsed(r, AfterEnd(t))
    decreases r, 0
  {
    var u := [op] + t;
    assert p == Group(Spell(x)) + u;
    PrimaryGroup(x, u, p);
    assert u[1..] == t;
    ThenEnds(r, t);
    var tok := if op == ASTERISK then TStar else if op == PLUSSIGN then TPlus else TQuest;
    assert Lex(u) == Lexed(Scan(tok, t));
    assert Then(x, u) == Then(r, t);
    RegexpOne(Lex(p).s, r, t);
  }

  lemma {:induction false} CatSpell(l: Re, m: Re, t: seq<nat>, u: seq<nat>, p: seq<nat>)
    requires Spellable(l) && Spellable(m) && Ends(t)
    requires u == Group(Spell(m)) + t && p == Group(Spell(l)) + u
    ensures Opens(p) && Regexp(Lex(p).s) == Parsed(Cat(l, m), AfterEnd(t))
    decreases Cat(l, m), 0
  {
    PrimaryGroup(l, u, p);
    PrimaryGroup(m, t, u);
    ThenEnds(m, t);
    ThenPlain(l, u);
    RegexpTwo(Lex(p).s, Lex(u).s, l, m, t);
  }

  lemma {:induction false} OrSpell(l: Re, m: Re, t: seq<nat>, v: seq<nat>, u: seq<nat>, p: seq<nat>)
    requires Spellable(l) && Spellable(m) && Ends(t)
    requires v == Group(Spell(m)) + t && u == [BAR] + v && p == Group(Spell(l)) + u
    ensures Opens(p) && Regexp(Lex(p).s) == Parsed(Or(l, m), AfterEnd(t))
    decreases Or(l, m), 0
  {
    PrimaryGroup(l, u, p);
    PrimaryGroup(m, t, v);
    ThenEnds(m, t);
    assert u[0] == BAR && u[1..] == v;
    ThenPlain(l, u);
    RegexpEither(Lex(p).s, v, l, m, t);
  }

  predicate Opens(p: seq<nat>) {
    p != [] && p[0] == LPAREN && Lex(p) == Lexed(Scan(TOpen, p[1..]))
  }

  /** In front of a group or a bar no operator follows. */
  lemma ThenPlain(r: Re, u: seq<nat>)
    requires u != [] && (u[0] == LPAREN || u[0] == BAR) && !HasFinal(r)
    ensures Then(r, u) == Parsed(r, Scan(if u[0] == BAR then TOr else TOpen, u[1..]))
  {
  }

  /** A parenthesised spelling is a primary. */
  lemma {:induction false} PrimaryGroup(r: Re, t: seq<nat>, p: seq<nat>)
    requires Spellable(r) && p == Group(Spell(r)) + t
    ensures !HasFinal(r) && Opens(p) && Primary(Lex(p).s) == Then(r, t)
    decreases r, 2
  {
    hide Spell, Regexp, Then, Quoted, ClassChars, LexClass;
    var u := [RPAREN] + t;
    assert p[0] == LPAREN && p[1..] == Spell(r) + u;
    RegexpSpell(r, u, p[1..]);
    assert AfterEnd(u) == Scan(TClose, t) by { assert u[1..] == t; }
    PrimaryOpen(p[1..], r, t);
  }

  lemma PrimaryOpen(q: seq<nat>, r: Re, t: seq<nat>)
    requires Lex(q).Lexed? && Lex(q).s.rtok != TClose
    requires Regexp(Lex(q).s) == Parsed(r, Scan(TClose, t))
    ensures !HasFinal(r) && Primary(Scan(TOpen, q)) == Then(r, t)
  {
    hide Regexp, ClassChars, Lex;
  }

  /** Parsing the spelling of `r` gives `r` and stops in front of `t`. */
  lemma {:induction false} RegexpSpell(r: Re, t: seq<nat>, p: seq<nat>)
    requires Spellable(r) && Ends(t) && p == Spell(r) + t
    ensures Lex(p).Lexed?
    ensures Lex(p).s.rtok != TClose && Lex(p).s.rtok != TEnd
    ensures Regexp(Lex(p).s) == Parsed(r, AfterEnd(t))
    decreases r, 1
  {
    hide Quoted, Alt;
    match r
    case Leaf(k, _) =>
      PrimaryLeaf(k, t);
      ThenEnds(r, t);
      RegexpOne(Lex(p).s, r, t);
    case Star(x) =>
      SuffixSpell(x, ASTERISK, r, t, p);
    case Plus(x) =>
      SuffixSpell(x, PLUSSIGN, r, t, p);
    case Quest(x) =>
      SuffixSpell(x, QUESTION, r, t, p);
    case Cat(l, m) =>
      var u := Group(Spell(m)) + t;
      assert p == Group(Spell(l)) + u;
      CatSpell(l, m, t, u, p);
    case Or(l, m) =>
      var v := Group(Spell(m)) + t;
      var u := [BAR] + v;
      assert p == Group(Spell(l)) + u;
      OrSpell(l, m, t, v, u, p);
  }

  /** Parsing the spelling of any tree gives that tree back. */
  lemma ParseSpell(r: Re)
    requires Spellable(r)
    ensures Reparse(Spell(r)) == Parsed(r, Scan(TEnd, []))
  {
    assert Spell(r) + [] == Spell(r);
    RegexpSpell(r, [], Spell(r));
  }
}
