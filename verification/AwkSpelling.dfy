/** How the regular expressions of cmd/awk/b.c are written: the parser against spellings with no
    more parentheses than precedence needs, character classes with ranges, and the escapes.
 */
module AwkSpelling {
  import opened AwkRegex
  import opened AwkFollow
  import opened AwkTable
  import opened AwkMatch
  import opened AwkParser

  // ---------- bytes that stand for themselves ----------

  /** The bytes with a meaning outside a class. */
  predicate IsOperator(c: nat) {
    c == BAR || c == ASTERISK || c == PLUSSIGN || c == QUESTION || c == PERIOD || c == CARET || c == DOLLAR
    || c == LPAREN || c == RPAREN || c == BACKSLASH || c == LBRACKET
  }

  /** A leaf as it is usually written: a byte is itself, with a backslash if it is an operator. */
  function Plain(k: Kind): seq<nat> {
    if k.Chr? && k.c != NUL && k.c != HAT then if IsOperator(k.c) then [BACKSLASH, k.c] else [k.c]
    else SpellLeaf(k)
  }

  lemma LexByte(c: nat, t: seq<nat>)
    requires 0 < c < 256
    ensures Lex(Plain(Chr(c)) + t) == Lexed(Scan(TChar(c), t))
  {
    hide LexClass, HexString;
    var p := Plain(Chr(c)) + t;
    if IsOperator(c) {
      assert p[1..] == [c] + t && ([c] + t)[1..] == t;
      assert Quoted(p[1..]) == (c, 1);
    } else {
      assert p[0] == c && p[1..] == t;
    }
  }

  /** A leaf is one token, and `primary` makes that leaf of it. */
  lemma PlainLeaf(k: Kind, t: seq<nat>)
    requires SpellableKind(k)
    ensures Lex(Plain(k) + t).Lexed?
    ensures var s := Lex(Plain(k) + t).s;
      && Primary(s) == Then(Leaf(k, 0), t)
      && if k == Chr(HAT) then s.rtok == THat else StartsPrimary(s.rtok) && s.rtok != TOpen
  {
    hide Lex, LexClass, Quoted, Then, Escaped, ClassChars;
    if k.Chr? && k.c != NUL && k.c != HAT {
      LexByte(k.c, t);
    } else {
      PrimaryLeaf(k, t);
      LeafToken(k, t);
    }
  }

  lemma LeafToken(k: Kind, t: seq<nat>)
    requires SpellableKind(k) && (k.Chr? ==> k.c == NUL || k.c == HAT)
    ensures var l := Lex(SpellLeaf(k) + t);
      l.Lexed? && if k == Chr(HAT) then l.s.rtok == THat else StartsPrimary(l.s.rtok) && l.s.rtok != TOpen
  {
    hide LexClass, Escaped;
    match k
    case Ccl(cs) => LexCcl(cs, t);
    case Nccl(cs) => LexNccl(cs, t);
    case _ =>
  }

  // ---------- the spelling with the fewest parentheses ----------

  /** Alternatives, separated by bars. */
  function SpellOr(r: Re): seq<nat>
    decreases r, 2
  {
    if r.Or? then SpellOr(r.l) + [BAR] + SpellCat(r.r) else SpellCat(r)
  }

  /** Operands of a concatenation, one behind the other. */
  function SpellCat(r: Re): seq<nat>
    decreases r, 1
  {
    if r.Cat? then SpellCat(r.l) + SpellOperand(r.r) else SpellSuffix(r)
  }

  /** An operand behind the first one. `^` begins no operand there, so it is put into parentheses. */
  function SpellOperand(r: Re): seq<nat>
    decreases r, 1
  {
    if BeginsHat(r) then Group(SpellSuffix(r)) else SpellSuffix(r)
  }

  /** A leaf or group with the suffixes behind it. */
  function SpellSuffix(r: Re): seq<nat>
    decreases r, 0
  {
    match r
    case Leaf(k, _) => Plain(k)
    case Star(x) => SpellSuffix(x) + [ASTERISK]
    case Plus(x) => SpellSuffix(x) + [PLUSSIGN]
    case Quest(x) => SpellSuffix(x) + [QUESTION]
    case Cat(l, m) => Group(SpellCat(l) + SpellOperand(m))
    case Or(l, m) => Group(SpellOr(l) + [BAR] + SpellCat(m))
  }

  predicate BeginsHat(r: Re) {
    match r
    case Leaf(k, _) => k == Chr(HAT)
    case Star(x) => BeginsHat(x)
    case Plus(x) => BeginsHat(x)
    case Quest(x) => BeginsHat(x)
    case Cat(_, _) => false
    case Or(_, _) => false
  }

  // ---------- it parses back ----------

  /** What `concat(primary())` gives. */
  function Sequence(s: Scan): Parsed {
    var p := Primary(s);
    if p.Failed? then p else Concat(p.tree, p.s)
  }

  /** No suffix operator comes next. */
  predicate Quiet(t: seq<nat>) {
    var l := Lex(t);
    l.Lexed? && l.s.rtok != TStar && l.s.rtok != TPlus && l.s.rtok != TQuest
  }

  lemma ThenQuiet(r: Re, t: seq<nat>)
    requires Quiet(t) && !HasFinal(r)
    ensures Then(r, t) == Parsed(r, Lex(t).s)
  {
    hide Lex;
  }

  /** The text begins with a primary that is `r` before any suffix in `t` is read. */
  predicate Begins(p: seq<nat>, r: Re, t: seq<nat>)
    requires !HasFinal(r)
  {
    var l := Lex(p);
    l.Lexed? && (StartsPrimary(l.s.rtok) || l.s.rtok == THat) && Primary(l.s) == Then(r, t)
  }

  lemma {:induction false} SpellableLacksFinal(r: Re)
    requires Spellable(r)
    ensures !HasFinal(r)
  {
    match r
    case Leaf(_, _) =>
    case Star(x) => SpellableLacksFinal(x);
    case Plus(x) => SpellableLacksFinal(x);
    case Quest(x) => SpellableLacksFinal(x);
    case Cat(l, m) => SpellableLacksFinal(l); SpellableLacksFinal(m);
    case Or(l, m) => SpellableLacksFinal(l); SpellableLacksFinal(m);
  }

  /** A suffix operator is read into the primary in front of it. */
  lemma SuffixBegins(p: seq<nat>, x: Re, op: nat, r: Re, t: seq<nat>)
    requires !HasFinal(x) && Begins(p, x, [op] + t)
    requires (op == ASTERISK && r == Star(x)) || (op == PLUSSIGN && r == Plus(x)) || (op == QUESTION && r == Quest(x))
    ensures !HasFinal(r) && Begins(p, r, t)
  {
    hide Primary, LexClass, Quoted;
    var u := [op] + t;
    assert u[0] == op && u[1..] == t;
    var tok := if op == ASTERISK then TStar else if op == PLUSSIGN then TPlus else TQuest;
    assert Lex(u) == Lexed(Scan(tok, t));
    assert Then(x, u) == Then(r, t);
  }

  /** Parentheses make a primary of an expression. */
  lemma GroupBegins(q: seq<nat>, r: Re, t: seq<nat>)
    requires !HasFinal(r)
    requires Lex(q + ([RPAREN] + t)).Lexed? && Lex(q + ([RPAREN] + t)).s.rtok != TClose
    requires Regexp(Lex(q + ([RPAREN] + t)).s) == Parsed(r, Scan(TClose, t))
    ensures Begins(Group(q) + t, r, t) && Lex(Group(q) + t).s.rtok == TOpen
  {
    hide Regexp, Then, ClassChars;
    var u := [RPAREN] + t;
    var p := Group(q) + t;
    assert p[0] == LPAREN && p[1..] == q + u && u[0] == RPAREN && u[1..] == t;
    LexOpen(p);
    LexClose(u);
    PrimaryOpen(q + u, r, t);
  }

  lemma LexOpen(p: seq<nat>)
    requires p != [] && p[0] == LPAREN
    ensures Lex(p) == Lexed(Scan(TOpen, p[1..]))
  {
  }

  lemma LexClose(u: seq<nat>)
    requires u != [] && u[0] == RPAREN
    ensures Lex(u) == Lexed(Scan(TClose, u[1..])) && Quiet(u)
  {
  }

  lemma LexBar(u: seq<nat>)
    requires u != [] && u[0] == BAR
    ensures Lex(u) == Lexed(Scan(TOr, u[1..])) && Closes(u) && Quiet(u)
  {
  }

  /** The end of an alternative or of the whole: nothing that goes on with a concatenation. */
  predicate Closes(t: seq<nat>) {
    Quiet(t) && !StartsPrimary(Lex(t).s.rtok)
  }

  /** The text begins with a token that can begin an expression. */
  predicate Opening(p: seq<nat>) {
    var l := Lex(p); l.Lexed? && (StartsPrimary(l.s.rtok) || l.s.rtok == THat)
  }

  function Level(r: Re): nat {
    if r.Cat? || r.Or? then 3 else 0
  }

  /** Suffixes bind tightest. */
  lemma {:induction false} SuffixParses(r: Re, t: seq<nat>)
    requires Spellable(r)
    ensures !HasFinal(r) && Begins(SpellSuffix(r) + t, r, t)
    ensures !BeginsHat(r) ==> StartsPrimary(Lex(SpellSuffix(r) + t).s.rtok)
    decreases r, Level(r)
  {
    hide Lex, Then, Primary, Plain, Group, Closes, Begins;
    SpellableLacksFinal(r);
    match r
    case Leaf(k, _) => PlainBegins(k, t);
    case Star(x) => SuffixOn(x, ASTERISK, r, t);
    case Plus(x) => SuffixOn(x, PLUSSIGN, r, t);
    case Quest(x) => SuffixOn(x, QUESTION, r, t);
    case _ =>
      ClosesGroup(t);
      OrParses(r, [RPAREN] + t);
      AltStops(r, t);
      GroupBegins(SpellOr(r), r, t);
      assert SpellSuffix(r) == Group(SpellOr(r));
  }

  lemma PlainBegins(k: Kind, t: seq<nat>)
    requires SpellableKind(k)
    ensures !HasFinal(Leaf(k, 0)) && Begins(Plain(k) + t, Leaf(k, 0), t)
    ensures k != Chr(HAT) ==> StartsPrimary(Lex(Plain(k) + t).s.rtok)
  {
    hide Lex, Then, Primary, Plain;
    PlainLeaf(k, t);
  }

  lemma ClosesGroup(t: seq<nat>)
    ensures Closes([RPAREN] + t) && Lex([RPAREN] + t) == Lexed(Scan(TClose, t))
  {
    var u := [RPAREN] + t;
    LexClose(u);
    assert u[1..] == t;
  }

  lemma AltStops(r: Re, t: seq<nat>)
    requires !HasFinal(r)
    ensures Alt(r, Scan(TClose, t)) == Parsed(r, Scan(TClose, t))
  {
  }

  lemma {:induction false} SuffixOn(x: Re, op: nat, r: Re, t: seq<nat>)
    requires Spellable(x) && x < r
    requires (op == ASTERISK && r == Star(x)) || (op == PLUSSIGN && r == Plus(x)) || (op == QUESTION && r == Quest(x))
    ensures !HasFinal(r) && Begins(SpellSuffix(r) + t, r, t)
    ensures !BeginsHat(x) ==> StartsPrimary(Lex(SpellSuffix(r) + t).s.rtok)
    decreases x, 4
  {
    hide Lex, Then, Primary, Begins;
    assert SpellSuffix(r) + t == SpellSuffix(x) + ([op] + t);
    SuffixParses(x, [op] + t);
    SuffixBegins(SpellSuffix(r) + t, x, op, r, t);
  }

  /** A concatenation takes in operand after operand, and a bar or the end ends it. */
  lemma {:induction false} CatParses(r: Re, t: seq<nat>)
    requires Spellable(r) && Quiet(t)
    ensures !HasFinal(r) && Opening(SpellCat(r) + t)
    ensures Sequence(Lex(SpellCat(r) + t).s) == Concat(r, Lex(t).s)
    decreases r, if r.Cat? then 1 else 5
  {
    hide Lex, Then, Primary, Concat, SpellSuffix, SpellOperand;
    if r.Cat? {
      var u := SpellOperand(r.r) + t;
      OperandParses(r.r, t);
      CatParses(r.l, u);
      ThenQuiet(r.r, t);
      assert SpellCat(r) + t == SpellCat(r.l) + u;
      ConcatTakes(r.l, Lex(u).s, r.r, Lex(t).s);
    } else {
      SuffixParses(r, t);
      ThenQuiet(r, t);
    }
  }

  lemma ConcatTakes(l: Re, s: Scan, m: Re, s': Scan)
    requires !HasFinal(l) && !HasFinal(m) && StartsPrimary(s.rtok) && Primary(s) == Parsed(m, s')
    ensures Concat(l, s) == Concat(Cat(l, m), s')
  {
    hide Primary;
  }

  /** An operand behind the first one begins with a token that `concat` goes on with. */
  lemma {:induction false} OperandParses(r: Re, t: seq<nat>)
    requires Spellable(r)
    ensures !HasFinal(r) && Begins(SpellOperand(r) + t, r, t)
    ensures Quiet(SpellOperand(r) + t) && StartsPrimary(Lex(SpellOperand(r) + t).s.rtok)
    decreases r, 4
  {
    hide Lex, Then, Primary, SpellSuffix, Concat, Alt;
    if BeginsHat(r) {
      var u := [RPAREN] + t;
      ClosesGroup(t);
      SuffixParses(r, u);
      ThenQuiet(r, u);
      ConcatStops(r, t);
      AltStops(r, t);
      assert Regexp(Lex(SpellSuffix(r) + u).s) == Parsed(r, Scan(TClose, t));
      GroupBegins(SpellSuffix(r), r, t);
    } else {
      SuffixParses(r, t);
    }
  }

  lemma ConcatStops(r: Re, t: seq<nat>)
    requires !HasFinal(r)
    ensures Concat(r, Scan(TClose, t)) == Parsed(r, Scan(TClose, t))
  {
  }

  /** Bars bind loosest. */
  lemma {:induction false} OrParses(r: Re, t: seq<nat>)
    requires Spellable(r) && Closes(t)
    ensures !HasFinal(r) && Opening(SpellOr(r) + t)
    ensures Regexp(Lex(SpellOr(r) + t).s) == Alt(r, Lex(t).s)
    decreases r, if r.Cat? || r.Or? then 2 else 6
  {
    hide Lex, Regexp, Sequence, Opening, Concat, Alt, SpellCat, StartsPrimary, Closes, SpellableKind;
    ClosesQuiet(t);
    if r.Or? {
      var v := SpellCat(r.r) + t;
      var u := [BAR] + v;
      assert u[1..] == v;
      LexBar(u);
      OrParses(r.l, u);
      CatParses(r.r, t);
      ConcatCloses(r.r, t);
      assert SpellOr(r) + t == SpellOr(r.l) + u;
      AltTakes(r.l, v, r.r, Lex(t).s);
    } else {
      CatParses(r, t);
      ConcatCloses(r, t);
      RegexpIs(SpellCat(r) + t, r, t);
    }
  }

  lemma RegexpIs(p: seq<nat>, r: Re, t: seq<nat>)
    requires !HasFinal(r) && Opening(p) && Quiet(t) && Sequence(Lex(p).s) == Parsed(r, Lex(t).s)
    ensures Regexp(Lex(p).s) == Alt(r, Lex(t).s)
  {
    hide Primary, Concat;
  }

  lemma ClosesQuiet(t: seq<nat>)
    requires Closes(t)
    ensures Quiet(t)
  {
  }

  lemma ConcatCloses(r: Re, t: seq<nat>)
    requires !HasFinal(r) && Closes(t)
    ensures Concat(r, Lex(t).s) == Parsed(r, Lex(t).s)
  {
    hide Lex;
  }

  lemma AltTakes(l: Re, v: seq<nat>, m: Re, s': Scan)
    requires !HasFinal(l) && !HasFinal(m) && Opening(v) && Sequence(Lex(v).s) == Parsed(m, s')
    ensures Alt(l, Scan(TOr, v)) == Alt(Or(l, m), s')
  {
    hide Lex, Primary, Concat;
  }

  /** Suffixes bind tighter than concatenation, and concatenation tighter than bars; both are left
      associative. For every tree, the spelling with the fewest parentheses parses to that tree. */
  lemma ParseFewest(r: Re)
    requires Spellable(r)
    ensures Reparse(SpellOr(r)) == Parsed(r, Scan(TEnd, []))
  {
    hide Primary, Concat, SpellOr;
    var e: seq<nat> := [];
    assert SpellOr(r) + e == SpellOr(r);
    assert Lex(e) == Lexed(Scan(TEnd, e));
    OrParses(r, e);
  }

  // ---------- classes with ranges ----------

  /** What a class is made of: single bytes and ranges. */
  datatype Item = One(c: nat) | Span(lo: nat, hi: nat)

  /** Bytes, with the ends of a range in order. */
  predicate GoodItem(i: Item) {
    match i
    case One(c) => 0 < c < 256
    case Span(lo, hi) => 0 < lo <= hi < 256
  }

  /** How the items are written, special bytes with a backslash. */
  function ItemText(i: Item): seq<nat> {
    match i
    case One(c) => ClassByte(c)
    case Span(lo, hi) => ClassByte(lo) + [DASH] + ClassByte(hi)
  }

  function ItemsText(items: seq<Item>): seq<nat> {
    if items == [] then [] else ItemText(items[0]) + ItemsText(items[1..])
  }

  /** The bytes lo .. hi. */
  function Bytes(lo: nat, hi: nat): (bs: seq<nat>)
    requires lo <= hi
    ensures |bs| == hi - lo + 1 && forall k :: 0 <= k < |bs| ==> bs[k] == lo + k
  {
    seq(hi - lo + 1, k requires 0 <= k => lo + k)
  }

  /** The bytes that an item stands for, in order. */
  function ItemBytes(i: Item): seq<nat>
    requires GoodItem(i)
  {
    match i
    case One(c) => [c]
    case Span(lo, hi) => Bytes(lo, hi)
  }

  predicate GoodItems(items: seq<Item>) {
    forall i :: 0 <= i < |items| ==> GoodItem(items[i])
  }

  function ItemsBytes(items: seq<Item>): seq<nat>
    requires GoodItems(items)
  {
    if items == [] then [] else ItemBytes(items[0]) + ItemsBytes(items[1..])
  }

  /** Does an item stand for byte `b`? */
  predicate Covers(i: Item, b: nat) {
    match i
    case One(c) => b == c
    case Span(lo, hi) => lo <= b <= hi
  }

  /** A range goes up by one, and ends where it should. */
  lemma {:induction false} UpwardIs(lo: nat, hi: nat)
    requires lo <= hi < 256
    ensures [lo] + Upward(lo, hi) == Bytes(lo, hi)
    decreases hi - lo
  {
    hide Bytes;
    if lo < hi {
      UpwardIs(lo + 1, hi);
      assert Upward(lo, hi) == Bytes(lo + 1, hi);
    }
  }

  /** The text of an item adds its bytes, whatever follows. */
  lemma ItemChars(i: Item, rest: seq<nat>, chars: seq<nat>)
    requires GoodItem(i) && |chars| + |ItemBytes(i)| <= MAXLIN - 1
    ensures ClassChars(ItemText(i) + rest, chars) == ClassChars(rest, chars + ItemBytes(i))
  {
    hide ClassChars, ClassByte, Upward, Bytes;
    match i
    case One(c) => ClassCharsByte(c, rest, chars);
    case Span(lo, hi) =>
      var p := [DASH] + (ClassByte(hi) + rest);
      assert ItemText(i) + rest == ClassByte(lo) + p;
      ClassCharsByte(lo, p, chars);
      RangeChars(lo, hi, rest, chars + [lo]);
      UpwardIs(lo, hi);
      Regroup(chars, [lo], Upward(lo, hi));
  }

  lemma RangeText(o: seq<nat>, rest: seq<nat>)
    requires 1 <= |o| <= 2
    ensures var p := [DASH] + (o + rest);
      && |p| > 1 && p[0] == DASH && p[1] == o[0] && p[1 + |o|..] == rest
      && (|o| == 2 ==> |p| > 2 && p[2..] == [o[1]] + rest)
  {
  }

  lemma ByteForm(c: nat)
    ensures var o := ClassByte(c); if IsSpecial(c) then |o| == 2 && o[0] == BACKSLASH else o == [c] && c != BACKSLASH
  {
  }

  /** A range whose upper end is read from the text behind the dash. */
  lemma DashNext(p: seq<nat>, chars: seq<nat>, lo: nat, hi: nat, used: nat)
    requires |p| >= 2 + used && p[0] == DASH && chars != [] && chars[|chars| - 1] == lo > 0
    requires if p[1] == BACKSLASH then |p| > 2 && Quoted(p[2..]) == (hi, used) else p[1] == hi && used == 0
    requires |chars| + |Upward(lo, hi)| <= MAXLIN - 1
    ensures ClassChars(p, chars) == ClassChars(p[2 + used..], chars + Upward(lo, hi))
  {
    hide ClassChars, Quoted, Upward;
    ReParser.ClassNext(p, chars);
  }

  lemma RangeChars(lo: nat, hi: nat, rest: seq<nat>, chars: seq<nat>)
    requires 0 < lo <= hi < 256 && chars != [] && chars[|chars| - 1] == lo && |chars| + hi - lo <= MAXLIN - 1
    ensures ClassChars([DASH] + (ClassByte(hi) + rest), chars) == ClassChars(rest, chars + Upward(lo, hi))
  {
    hide ClassChars, Quoted, Upward;
    var o := ClassByte(hi);
    ByteForm(hi);
    RangeText(o, rest);
    if IsSpecial(hi) { QuotedSpecial(hi, rest); }
    UpwardIs(lo, hi);
    assert |[lo] + Upward(lo, hi)| == hi - lo + 1;
    hide ClassByte, IsSpecial, Bytes;
    DashNext([DASH] + (o + rest), chars, lo, hi, |o| - 1);
  }

  lemma QuotedSpecial(c: nat, rest: seq<nat>)
    requires IsSpecial(c)
    ensures Quoted([ClassByte(c)[1]] + rest) == (c, 1)
  {
  }

  /** No byte ends the string. */
  predicate Positive(bs: seq<nat>) {
    forall k :: 0 <= k < |bs| ==> 0 < bs[k]
  }

  lemma {:induction false} ItemsChars(items: seq<Item>, chars: seq<nat>)
    requires GoodItems(items) && |chars| + |ItemsBytes(items)| <= MAXLIN - 1 && Positive(chars)
    ensures ClassChars(ItemsText(items), chars) == Class(chars + ItemsBytes(items))
  {
    if items == [] {
      assert chars + ItemsBytes(items) == chars;
      BeforeNulKeeps(chars);
    } else {
      hide ClassChars, ItemText, ItemBytes, Positive, GoodItem;
      assert GoodItem(items[0]);
      var head, tail := ItemBytes(items[0]), ItemsBytes(items[1..]);
      ItemPositive(items[0]);
      PositiveConcat(chars, head);
      ItemChars(items[0], ItemsText(items[1..]), chars);
      ItemsChars(items[1..], chars + head);
      Regroup(chars, head, tail);
    }
  }

  lemma ItemPositive(i: Item)
    requires GoodItem(i)
    ensures Positive(ItemBytes(i))
  {
  }

  lemma PositiveConcat(p: seq<nat>, q: seq<nat>)
    requires Positive(p) && Positive(q)
    ensures Positive(p + q)
  {
  }

  lemma {:induction false} LexItems(items: seq<Item>, buf: seq<nat>, neg: bool, k: seq<nat>)
    requires |buf| + |ItemsText(items)| < MAXLIN - 1
    ensures LexClass(ItemsText(items) + ([RBRACKET] + k), buf, neg) ==
      Lexed(Scan(if neg then TNccl(buf + ItemsText(items)) else TCcl(buf + ItemsText(items)), k))
  {
    hide LexClass, ItemText;
    if items == [] {
      assert ItemsText(items) + ([RBRACKET] + k) == [RBRACKET] + k;
      assert buf + ItemsText(items) == buf;
      LexBracketEnd(buf, neg, k);
    } else {
      var o, rest := ItemText(items[0]), ItemsText(items[1..]);
      Regroup(o, rest, [RBRACKET] + k);
      LexItem(items[0], rest + ([RBRACKET] + k), buf, neg);
      LexItems(items[1..], buf + o, neg, k);
      Regroup(buf, o, rest);
    }
  }

  lemma Regroup(a: seq<nat>, b: seq<nat>, c: seq<nat>)
    ensures (a + b) + c == a + (b + c)
  {
  }

  lemma LexBracketEnd(buf: seq<nat>, neg: bool, k: seq<nat>)
    requires |buf| < MAXLIN - 1
    ensures LexClass([RBRACKET] + k, buf, neg) == Lexed(Scan(if neg then TNccl(buf) else TCcl(buf), k))
  {
    var p := [RBRACKET] + k;
    assert p[0] == RBRACKET && p[1..] == k;
  }

  lemma LexItem(i: Item, p: seq<nat>, buf: seq<nat>, neg: bool)
    requires |buf| + |ItemText(i)| < MAXLIN - 1
    ensures LexClass(ItemText(i) + p, buf, neg) == LexClass(p, buf + ItemText(i), neg)
  {
    hide LexClass, ClassByte;
    match i
    case One(c) => LexClassByte(c, p, buf, neg);
    case Span(lo, hi) =>
      var q := ClassByte(hi) + p;
      assert ItemText(i) + p == ClassByte(lo) + ([DASH] + q);
      LexClassByte(lo, [DASH] + q, buf, neg);
      LexDash(q, buf + ClassByte(lo), neg);
      LexClassByte(hi, p, buf + ClassByte(lo) + [DASH], neg);
      assert buf + ClassByte(lo) + [DASH] + ClassByte(hi) == buf + ItemText(i);
  }

  lemma LexDash(q: seq<nat>, buf: seq<nat>, neg: bool)
    requires |buf| < MAXLIN - 1
    ensures LexClass([DASH] + q, buf, neg) == LexClass(q, buf + [DASH], neg)
  {
    assert ([DASH] + q)[1..] == q;
  }

  function ClassText(items: seq<Item>, neg: bool): seq<nat> {
    [LBRACKET] + (if neg then [CARET] else []) + ItemsText(items) + [RBRACKET]
  }

  lemma {:induction false} ItemsHead(items: seq<Item>)
    ensures if items == [] then ItemsText(items) == [] else ItemsText(items) != [] && ItemsText(items)[0] != CARET
  {
    if items != [] {
      match items[0]
      case One(c) => ClassByteSize(c);
      case Span(lo, _) => ClassByteSize(lo);
    }
  }

  lemma LexClassText(items: seq<Item>, neg: bool)
    requires |ItemsText(items)| < MAXLIN - 1
    ensures Lex(ClassText(items, neg)) ==
      Lexed(Scan(if neg then TNccl(ItemsText(items)) else TCcl(ItemsText(items)), []))
  {
    hide Lex, LexClass, ItemsText;
    var e: seq<nat> := [];
    var q := ItemsText(items) + ([RBRACKET] + e);
    var caret: seq<nat> := if neg then [CARET] else [];
    assert ClassText(items, neg) == [LBRACKET] + (caret + q);
    LexItems(items, e, neg, e);
    ItemsHead(items);
    assert q[0] == if items == [] then RBRACKET else ItemsText(items)[0];
    LexBracket(caret + q);
    assert neg ==> (caret + q)[1..] == q;
    assert !neg ==> caret + q == q;
    assert e + ItemsText(items) == ItemsText(items);
  }

  /** What the items of a class cover, or with `^` every other byte. */
  ghost predicate Matches(items: seq<Item>, neg: bool, k: Kind) {
    forall b :: 0 < b < 256 ==> (Consumes(k, b) <==> (neg <==> !exists i :: 0 <= i < |items| && Covers(items[i], b)))
  }

  /** A class of bytes and ranges parses to the leaf with exactly their bytes, and consumes exactly
      what one of the items covers, or with `^` every other byte. */
  lemma ParseClassText(items: seq<Item>, neg: bool)
    requires GoodItems(items) && |ItemsText(items)| < MAXLIN - 1 && |ItemsBytes(items)| <= MAXLIN - 1
    ensures var k := if neg then Nccl(ItemsBytes(items)) else Ccl(ItemsBytes(items));
      Reparse(ClassText(items, neg)) == Parsed(Leaf(k, 0), Scan(TEnd, [])) && Matches(items, neg, k)
  {
    hide Lex, LexClass, ClassChars, ClassText, ItemsText, GoodItems, Regexp;
    var e: seq<nat> := [];
    var k := if neg then Nccl(ItemsBytes(items)) else Ccl(ItemsBytes(items));
    LexClassText(items, neg);
    ItemsChars(items, e);
    assert e + ItemsBytes(items) == ItemsBytes(items);
    ThenEnds(Leaf(k, 0), e);
    RegexpOne(Lex(ClassText(items, neg)).s, Leaf(k, 0), e);
    forall b | 0 < b < 256
      ensures b in ItemsBytes(items) <==> exists i :: 0 <= i < |items| && Covers(items[i], b)
    {
      BytesCovered(items, b);
    }
  }

  lemma {:induction false} BytesCovered(items: seq<Item>, b: nat)
    requires GoodItems(items)
    ensures b in ItemsBytes(items) <==> exists i :: 0 <= i < |items| && Covers(items[i], b)
  {
    if items != [] {
      assert GoodItem(items[0]);
      BytesCovered(items[1..], b);
      ItemCovers(items[0], b);
      var rest := items[1..];
      if j :| 0 <= j < |rest| && Covers(rest[j], b) { assert items[j + 1] == rest[j]; }
      if i :| 0 <= i < |items| && Covers(items[i], b) {
        if i > 0 { assert rest[i - 1] == items[i]; }
      }
    }
  }

  lemma ItemCovers(i: Item, b: nat)
    requires GoodItem(i)
    ensures b in ItemBytes(i) <==> Covers(i, b)
  {
    if i.Span? && Covers(i, b) { assert ItemBytes(i)[b - i.lo] == b; }
  }

  // ---------- what a leaf matches ----------

  /** Where an expression of one leaf matches in a text, by position and length: `$` at the end,
      `^` at the front, `()` and `[]` nothing at any place, and every other leaf one byte. */
  ghost predicate LeafAt(k: Kind, str: seq<nat>, i: int, n: int, hat: bool) {
    match k
    case Chr(c) =>
      if c == NUL then i == |str| && n == 0
      else if c == HAT then hat && i == 0 && n == 0
      else 0 <= i < |str| && n == 1 && str[i] == c
    case Dot => 0 <= i < |str| && n == 1
    case Ccl(cs) => if cs == [] then 0 <= i <= |str| && n == 0 else 0 <= i < |str| && n == 1 && str[i] in cs
    case Nccl(cs) => 0 <= i < |str| && n == 1 && str[i] !in cs
    case All => false
    case Final => false
  }

  lemma LeafMatches(k: Kind, str: seq<nat>, i: int, n: int, hat: bool)
    requires SpellableKind(k) && Text(str)
    ensures MatchAt(Leaf(k, 0), str, i, n, hat) <==> LeafAt(k, str, i, n, hat)
  {
    var r := Leaf(k, 0);
    if 0 <= i && 0 <= n && i + n <= |str| {
      var w := str[i..i + n];
      assert n > 0 ==> w[0] == str[i] && str[i] in str;
      assert (w + [NUL])[0] == if n == 0 then NUL else w[0];
      assert ([HAT] + w)[0] == HAT;
    }
  }

  // ---------- escapes ----------

  function HexDigit(d: nat): nat
    requires d < 16
  {
    if d < 10 then ZERO + d else 'a' as nat + d - 10
  }

  function HexText(n: nat): seq<nat> {
    if n < 16 then [HexDigit(n)] else HexText(n / 16) + [HexDigit(n % 16)]
  }

  /** Reading the digits of `n` and then `q` is reading `q` with `n` so far. */
  lemma {:induction false} HexReads(n: nat, q: seq<nat>)
    ensures var r := HexString(q, n); HexString(HexText(n) + q, 0) == (r.0, r.1 + |HexText(n)|)
  {
    if n < 16 {
      assert (HexText(n) + q)[1..] == q;
    } else {
      var d := [HexDigit(n % 16)];
      HexReads(n / 16, d + q);
      assert HexText(n) + q == HexText(n / 16) + (d + q);
      assert (d + q)[1..] == q && HexValue(HexDigit(n % 16)) == n % 16;
    }
  }

  /** What a backslash in front of a byte means. */
  lemma Escapes(k: seq<nat>)
    ensures Quoted(['t' as nat] + k) == ('\t' as nat, 1)
    ensures Quoted(['n' as nat] + k) == ('\n' as nat, 1)
    ensures Quoted(['r' as nat] + k) == ('\r' as nat, 1)
    ensures Quoted(['f' as nat] + k) == ('\U{0C}' as nat, 1)
    ensures Quoted(['b' as nat] + k) == ('\U{08}' as nat, 1)
    ensures forall c: nat :: IsOperator(c) || IsSpecial(c) ==> Quoted([c] + k) == (c, 1)
  {
  }

  /** A number in hexadecimal behind `\x` is read to its last digit. */
  lemma EscapesHex(n: nat, k: seq<nat>)
    requires k == [] || !IsHex(k[0])
    ensures Quoted(['x' as nat] + HexText(n) + k) == (n, 1 + |HexText(n)|)
  {
    var p := ['x' as nat] + HexText(n) + k;
    assert p[1..] == HexText(n) + k;
    HexReads(n, k);
  }

  /** One, two or three octal digits, of which the program takes `8` for one, with none behind them. */
  lemma EscapesOctal(a: nat, b: nat, d: nat, k: seq<nat>)
    requires a <= 8 && b <= 8 && d <= 8 && (k == [] || !IsOctal(k[0]))
    ensures Quoted([ZERO + a] + k) == (a, 1)
    ensures Quoted([ZERO + a, ZERO + b] + k) == (8 * a + b, 2)
    ensures Quoted([ZERO + a, ZERO + b, ZERO + d] + k) == (64 * a + 8 * b + d, 3)
  {
  }

  /** An escaped byte is a leaf. */
  lemma ParseEscape(q: seq<nat>)
    requires q != [] && Quoted(q).1 == |q|
    ensures Reparse([BACKSLASH] + q) == Parsed(Leaf(Chr(Quoted(q).0), 0), Scan(TEnd, []))
  {
    hide Quoted, LexClass;
    var p := [BACKSLASH] + q;
    var e: seq<nat> := [];
    assert p[1..] == q && q[|q|..] == e;
    assert Lex(p) == Lexed(Scan(TChar(Quoted(q).0), e));
    ThenEnds(Leaf(Chr(Quoted(q).0), 0), e);
    RegexpOne(Lex(p).s, Leaf(Chr(Quoted(q).0), 0), e);
  }
}
