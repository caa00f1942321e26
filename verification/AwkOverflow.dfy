/** When the table of the automaton overflows: expressions whose table never does, and an
    expression and a text for which `pmatch` reports the wrong match because it did, and for which
    `gsub` then finds `^` in the middle of the text.
 */
module AwkOverflow {
  import opened AwkRegex
  import opened AwkGlushkov
  import opened AwkFollow
  import opened AwkTable
  import opened AwkMatch
  import opened AwkDfa
  import opened AwkGsub

  // ---------- few lists ----------

  /** A closed set of fewer than NSTATES lists with all that `makeinit` puts into the table. */
  ghost predicate Small(re: seq<Row>, r: Re, anchor: bool, lists: set<seq<nat>>) {
    && Built(re, r) && Closed(re, lists) && |lists| < NSTATES
    && [] in lists && List(re, Inside(r, anchor)) in lists && List(re, Front(re, r, anchor)) in lists
  }

  lemma {:induction false} KnownCount(posns: seq<seq<nat>>, lists: set<seq<nat>>)
    requires 3 <= |posns| <= 4 && posns[1] != posns[2]
      && (|posns| == 4 ==> posns[3] != posns[1] && posns[3] != posns[2])
    requires forall i :: 1 <= i < |posns| ==> posns[i] in lists
    ensures Known(posns) <= lists && |lists - Known(posns)| == |lists| - (|posns| - 1)
  {
    var k, two := Known(posns), {posns[1], posns[2]};
    assert |two| == 2;
    if |posns| == 3 {
      assert posns[1..] == [posns[1], posns[2]];
      assert k == two;
    } else {
      assert posns[1..] == [posns[1], posns[2], posns[3]];
      assert k == two + {posns[3]};
    }
    assert |k| == |posns| - 1;
    assert lists == k + (lists - k);
  }

  /** Then there is room for all of them in a new table. */
  lemma {:induction false} SmallRoomy(re: seq<Row>, r: Re, anchor: bool, d: Table, lists: set<seq<nat>>)
    requires Small(re, r, anchor, lists) && Good(re, d)
    ensures Roomy(re, lists, MadeInit(re, anchor, d))
  {
    hide Closed, ListForm, Inside, Front, List, MadeInit, Known;
    MadeInitFit(re, r, anchor, d);
    InitialDiffer(re, r, anchor);
    KnownCount(MadeInit(re, anchor, d).posns, lists);
  }

  lemma {:induction false} InitialDiffer(re: seq<Row>, r: Re, anchor: bool)
    requires Built(re, r)
    ensures List(re, Inside(r, anchor)) != [] && List(re, Front(re, r, anchor)) != []
    ensures BeginState(re, r) == 3 ==> List(re, Inside(r, anchor)) != List(re, Front(re, r, anchor))
  {
    BuiltParts(re, r);
    var restart, start := Restart(r), Start(AutoOf(re), r);
    ListWithZero(re, restart);
    ListWithZero(re, start);
    DescendingInjective(restart, start, |re|);
    if !anchor && List(re, {0} + restart) == List(re, {0} + start) {
      TrimLast(List(re, restart), 0, 1);
      TrimLast(List(re, start), 0, 1);
    }
  }

  /** For such an expression every call is calm. */
  lemma {:induction false} SmallCalm(re: seq<Row>, r: Re, anchor: bool, d: Table, lists: set<seq<nat>>, n: nat)
    requires Small(re, r, anchor, lists) && Usable(re, r, anchor, d) && (d.reset || Roomy(re, lists, d))
    ensures Calm(re, anchor, d, n)
  {
    if d.reset { SmallRoomy(re, r, anchor, d, lists); }
  }

  // ---------- chains ----------

  /** A leaf that consumes one byte, or HAT alone. */
  predicate OneByte(k: Kind) {
    k != Ccl([]) && k != All && k != Final && (Consumes(k, HAT) ==> k == Chr(HAT))
  }

  /** One leaf after the other. */
  predicate Chain(r: Re) {
    match r
    case Leaf(k, _) => OneByte(k)
    case Cat(l, m) => Chain(l) && Chain(m)
    case _ => false
  }

  /** Position p can be followed by the next one only. */
  predicate Links(a: Auto, p: nat)
    requires |a.kinds| == |a.follow|
  {
    p < |a.kinds| && a.follow[p] == {p + 1} && OneByte(a.kinds[p])
  }

  lemma {:induction false} ChainFollow(a: Auto, r: Re, b: nat)
    requires |a.kinds| == |a.follow| && Chain(r) && Wired(a, Numbered(r, b), {b + LeafCount(r)})
    ensures First(Numbered(r, b)) == {b} && !Nullable(Numbered(r, b))
    ensures forall p :: b <= p < b + LeafCount(r) ==> Links(a, p)
  {
    match r
    case Leaf(k, _) =>
      assert Links(a, b);
    case Cat(l, m) =>
      var c := b + LeafCount(l);
      assert Numbered(r, b) == Cat(Numbered(l, b), Numbered(m, c)) && c + LeafCount(m) == b + LeafCount(r);
      ChainFollow(a, m, c);
      assert Onward(Numbered(m, c), {b + LeafCount(r)}) == {c};
      ChainFollow(a, l, b);
  }

  /** The lists of single positions. */
  function Singles(n: nat): (s: set<seq<nat>>)
    ensures |s| <= n && forall l :: l in s <==> |l| == 1 && 1 <= l[0] <= n
  {
    assert forall l: seq<nat> :: |l| == 1 && l[0] == n ==> l == [n];
    if n == 0 then {} else Singles(n - 1) + {[n]}
  }

  lemma {:induction false} SingleList(p: nat, n: nat)
    ensures Descending({p}, n) == if p < n then [p] else []
  {
    if n > 0 { SingleList(p, n - 1); }
  }

  /** Behind one position of a chain there is at most the next. */
  lemma {:induction false} ChainStep(re: seq<Row>, r: Re, p: nat, c: nat)
    requires Built(re, r) && Chain(r) && 1 <= p < |re|
    ensures Step(AutoOf(re), {p}, c) == {} || (p + 1 < |re| && Step(AutoOf(re), {p}, c) == {p + 1})
    ensures p == 1 && Consumes(re[1].kind, HAT) && c != HAT ==> Step(AutoOf(re), {p}, c) == {}
  {
    var a := AutoOf(re);
    CompiledParts(a, r);
    ChainFollow(a, r, 1);
    assert p <= LeafCount(r) ==> Links(a, p);
    StepSingle(a, p, c);
  }

  function ChainLists(re: seq<Row>, r: Re): set<seq<nat>>
    requires AutoOf(re).Valid()
  {
    Singles(LeafCount(r) + 1) + {[], List(re, Start(AutoOf(re), r))}
  }

  /** The list of what is active behind at most one position. */
  lemma {:induction false} SingleIn(re: seq<Row>, r: Re, s: set<nat>, p: nat)
    requires Built(re, r) && (s == {} || (1 <= p < |re| && s == {p}))
    ensures List(re, s) in ChainLists(re, r)
  {
    BuiltParts(re, r);
    EmptyDescending(|re|);
    SingleList(p, |re|);
  }

  lemma {:induction false} ChainNext(re: seq<Row>, r: Re, l: seq<nat>, c: nat)
    requires Built(re, r) && Chain(r) && l in ChainLists(re, r) && c < BYTES
    ensures Next(re, l, c) in ChainLists(re, r)
  {
    hide Compiled, Wired, Step, Start, Restart, ListForm;
    var a := AutoOf(re);
    BuiltParts(re, r);
    if l == [] {
      DeadStays(re, c);
      assert Next(re, l, c) in ChainLists(re, r);
    } else if |l| == 1 && 1 <= l[0] < |re| {
      assert Elems(l) == {l[0]};
      ChainStep(re, r, l[0], c);
      SingleIn(re, r, Step(a, {l[0]}, c), l[0] + 1);
    } else {
      ChainFront(re, r, c);
      DescendingElems(Start(a, r), |re|);
      ChainStep(re, r, 1, c);
      SingleIn(re, r, Step(a, Start(a, r), c), if Start(a, r) == {1} then 2 else 3);
    }
  }

  /** In front of a chain its first leaf is active, and the second if the first is HAT. */
  lemma {:induction false} ChainFront(re: seq<Row>, r: Re, c: nat)
    requires Built(re, r) && Chain(r)
    ensures Restart(r) == {1} && (Start(AutoOf(re), r) == {1}
      || (Consumes(re[1].kind, HAT) && 2 < |re| && Start(AutoOf(re), r) == {1, 2}))
    ensures c != HAT && Start(AutoOf(re), r) == {1, 2} ==>
      var s := Step(AutoOf(re), {1, 2}, c); s == {} || (3 < |re| && s == {3})
  {
    hide Wired, Numbered, Step;
    var a := AutoOf(re);
    CompiledParts(a, r);
    ChainFollow(a, r, 1);
    assert Links(a, 1);
    ChainStep(re, r, 1, HAT);
    StepSingle(a, 1, HAT);
    ChainStep(re, r, 1, c);
    if 2 < |re| {
      ChainStep(re, r, 2, c);
      assert {1, 2} == {1} + {2};
      StepUnion(a, {1}, {2}, c);
    }
  }

  lemma UnionCount(s: set<seq<nat>>, a: seq<nat>, b: seq<nat>)
    ensures |s + {a, b}| <= |s| + 2
  {
    assert |s + {a}| <= |s| + 1;
    assert s + {a, b} == s + {a} + {b};
  }

  /** The lists of an anchored chain of at most 28 leaves: its table never overflows. */
  lemma {:induction false} ChainSmall(re: seq<Row>, r: Re)
    requires Built(re, r) && Chain(r) && LeafCount(r) + 3 < NSTATES
    ensures Small(re, r, true, ChainLists(re, r))
  {
    hide Wired, Numbered, Step, Chain, Start, Restart, Compiled;
    var lists, front := ChainLists(re, r), List(re, Start(AutoOf(re), r));
    BuiltParts(re, r);
    ChainFront(re, r, 0);
    SingleList(1, |re|);
    UnionCount(Singles(LeafCount(r) + 1), [], front);
    forall l, c | l in lists && 0 <= c < BYTES ensures Next(re, l, c) in lists {
      ChainNext(re, r, l, c);
    }
  }

  // ---------- an expression that overflows: Ax|Bx|...|Zx|0x|1x|2x|^y ----------

  const X: nat := 'x' as nat
  const Y: nat := 'y' as nat
  const LETTERS: nat := 29

  /** The letter of a pair; behind the letters comes HAT. */
  function Letter(i: nat): nat {
    if i <= 26 then 'A' as nat - 1 + i else if i <= LETTERS then '0' as nat - 27 + i else HAT
  }

  function Second(i: nat): nat {
    if i <= LETTERS then X else Y
  }

  function Pair(i: nat): Re {
    Cat(Leaf(Chr(Letter(i)), 0), Leaf(Chr(Second(i)), 0))
  }

  function Pairs(n: nat): Re
    requires n > 0
  {
    if n == 1 then Pair(1) else Or(Pairs(n - 1), Pair(n))
  }

  /** The expression. */
  function Pattern(): Re {
    Pairs(LETTERS + 1)
  }

  /** ABC...Z0122xy */
  function Subject(): seq<nat> {
    seq(LETTERS, i requires 0 <= i => Letter(i + 1)) + [Letter(LETTERS), X, Y]
  }

  lemma SubjectAt(i: nat)
    requires i < LETTERS + 3
    ensures |Subject()| == LETTERS + 3
    ensures Subject()[i] ==
      if i < LETTERS then Letter(i + 1) else if i == LETTERS then Letter(LETTERS) else if i == LETTERS + 1 then X else Y
  {
  }

  lemma SubjectText()
    ensures Text(Subject())
  {
    forall c | c in Subject() ensures 0 < c < BYTES {
      var i :| 0 <= i < |Subject()| && Subject()[i] == c;
      SubjectAt(i);
    }
  }

  // ---------- what it should find ----------

  predicate IsPair(w: seq<nat>, n: nat) {
    |w| == 2 && exists i :: 1 <= i <= n && w[0] == Letter(i) && w[1] == Second(i)
  }

  lemma PairWords(i: nat, w: seq<nat>)
    ensures In(Pair(i), w) <==> w == [Letter(i), Second(i)]
  {
    if In(Pair(i), w) {
      var k :| 0 <= k <= |w| && In(Leaf(Chr(Letter(i)), 0), w[..k]) && In(Leaf(Chr(Second(i)), 0), w[k..]);
      assert w == w[..k] + w[k..];
    }
    if w == [Letter(i), Second(i)] {
      assert w[..1] == [Letter(i)] && w[1..] == [Second(i)];
    }
  }

  lemma {:induction false} PairsWords(n: nat, w: seq<nat>)
    requires n > 0
    ensures In(Pairs(n), w) <==> IsPair(w, n)
  {
    hide Letter, Second, Pair;
    PairWords(n, w);
    if n > 1 {
      PairsWords(n - 1, w);
    } else {
      assert Pairs(1) == Pair(1);
    }
  }

  /** The words of the expression: a letter and x, or HAT and y. */
  lemma PatternWords(w: seq<nat>)
    ensures In(Pattern(), w) <==> IsPair(w, LETTERS + 1)
    ensures In(Pattern(), w) ==> |w| == 2 && (w[1] == X || w == [HAT, Y]) && (w[0] == HAT ==> w[1] == Y)
  {
    hide In, Pairs;
    PairsWords(LETTERS + 1, w);
  }

  /** The only match in the subject is the pair near its end. */
  lemma {:induction false} OnlyMatch(i: int, n: int, hat: bool)
    ensures MatchAt(Pattern(), Subject(), i, n, hat) <==> i == LETTERS && n == 2
  {
    hide In, Pattern, Subject;
    var r, str := Pattern(), Subject();
    SubjectAt(0);
    if 0 <= i && 0 <= n && i + n <= |str| {
      var w := str[i..i + n];
      PatternWords(w);
      PatternWords(w + [NUL]);
      PatternWords([HAT] + w);
      PatternWords([HAT] + (w + [NUL]));
      if n == 2 {
        SubjectAt(i);
        SubjectAt(i + 1);
      }
      if n == 1 { SubjectAt(i); }
    }
  }

  lemma {:induction false} ShouldFind(hat: bool)
    ensures LeftmostLongest(Pattern(), Subject(), hat, true, 29, 2)
    ensures !LeftmostLongest(Pattern(), Subject(), hat, true, 28, 3)
  {
    hide MatchAt;
    forall i, n ensures MatchAt(Pattern(), Subject(), i, n, hat) <==> i == LETTERS && n == 2 {
      OnlyMatch(i, n, hat);
    }
  }

  // ---------- the automaton ----------

  /** Positions 2 * i - 1 and 2 * i of the pair with letter i. */
  predicate PairAt(a: Auto, i: nat, accept: nat)
    requires |a.kinds| == |a.follow| && i > 0
  {
    && 2 * i < |a.kinds|
    && a.kinds[2 * i - 1] == Chr(Letter(i)) && a.follow[2 * i - 1] == {2 * i}
    && a.kinds[2 * i] == Chr(Second(i)) && a.follow[2 * i] == {accept}
  }

  function Odds(n: nat): set<nat> {
    set i | 1 <= i <= n :: 2 * i - 1
  }

  lemma {:induction false} PairsWired(a: Auto, n: nat, accept: nat)
    requires n > 0 && |a.kinds| == |a.follow| && Wired(a, Numbered(Pairs(n), 1), {accept})
    ensures First(Numbered(Pairs(n), 1)) == Odds(n) && !Nullable(Numbered(Pairs(n), 1))
    ensures forall i :: 1 <= i <= n ==> PairAt(a, i, accept)
  {
    PairsNumbered(n);
    if n > 1 {
      PairsWired(a, n - 1, accept);
      PairWired(a, n, 2 * n - 1, accept);
      hide PairAt;
      assert Odds(n) == Odds(n - 1) + {2 * n - 1};
    } else {
      PairWired(a, 1, 1, accept);
      hide PairAt;
      assert Odds(1) == {1};
    }
  }

  lemma PairWired(a: Auto, n: nat, b: nat, accept: nat)
    requires n > 0 && b == 2 * n - 1 && |a.kinds| == |a.follow| && Wired(a, Numbered(Pair(n), b), {accept})
    ensures PairAt(a, n, accept) && First(Numbered(Pair(n), b)) == {b} && !Nullable(Numbered(Pair(n), b))
  {
    var x, y := Leaf(Chr(Letter(n)), b), Leaf(Chr(Second(n)), b + 1);
    assert Numbered(Pair(n), b) == Cat(x, y);
    assert Onward(y, {accept}) == {b + 1};
    assert Wired(a, x, {b + 1}) && Wired(a, y, {accept});
  }

  lemma {:induction false} PairsNumbered(n: nat)
    requires n > 0
    ensures LeafCount(Pairs(n)) == 2 * n && !HasFinal(Pairs(n))
    ensures Numbered(Pairs(n), 1) ==
      if n == 1 then Numbered(Pair(1), 1) else Or(Numbered(Pairs(n - 1), 1), Numbered(Pair(n), 2 * n - 1))
  {
    PairSize(n);
    if n > 1 {
      var l, m := Pairs(n - 1), Pair(n);
      assert Pairs(n) == Or(l, m);
      hide Pair, Pairs, Numbered, LeafCount, HasFinal;
      PairsNumbered(n - 1);
      OrNumbered(l, m);
    }
  }

  lemma OrNumbered(l: Re, m: Re)
    ensures Numbered(Or(l, m), 1) == Or(Numbered(l, 1), Numbered(m, 1 + LeafCount(l)))
    ensures LeafCount(Or(l, m)) == LeafCount(l) + LeafCount(m) && (HasFinal(Or(l, m)) <==> HasFinal(l) || HasFinal(m))
  {
  }

  lemma PairSize(n: nat)
    ensures LeafCount(Pair(n)) == 2 && !HasFinal(Pair(n))
  {
  }

  // ---------- the run ----------

  ghost predicate Wiring(a: Auto) {
    a.Valid() && |a.kinds| == 62 && forall i :: 1 <= i <= LETTERS + 1 ==> PairAt(a, i, 61)
  }

  lemma {:induction false} OurAuto(re: seq<Row>)
    requires Built(re, Pattern())
    ensures |re| == 62 && Restart(Pattern()) == Odds(LETTERS + 1) && Wiring(AutoOf(re))
  {
    hide Pairs, PairAt, Numbered, LeafCount, First, Nullable, Wired;
    PairsNumbered(LETTERS + 1);
    CompiledParts(AutoOf(re), Pairs(LETTERS + 1));
    PairsWired(AutoOf(re), LETTERS + 1, 61);
  }

  lemma LetterOnly(i: nat, j: nat)
    requires 1 <= i <= LETTERS + 1 && 1 <= j <= LETTERS + 1
    ensures Letter(i) == Letter(j) <==> i == j
    ensures NUL < Letter(i) && Letter(i) != X && (i <= LETTERS ==> Letter(i) < BYTES)
  {
  }

  lemma {:induction false} OurMoves(a: Auto, i: nat, c: nat)
    requires Wiring(a) && 1 <= i <= LETTERS + 1
    ensures Moves(a, 2 * i - 1, c) == if c == Letter(i) then {2 * i} else {}
    ensures Moves(a, 2 * i, c) == if c == Second(i) then {61} else {}
    ensures Moves(a, 61, c) == {}
  {
    assert PairAt(a, i, 61);
  }

  lemma OddIn(i: nat, n: nat)
    requires 1 <= i <= n
    ensures 2 * i - 1 in Odds(n)
  {
  }

  /** From all letters, a letter leads to the position behind it. */
  lemma {:induction false} StepOdds(a: Auto, i: nat, c: nat)
    requires Wiring(a) && 1 <= i <= LETTERS + 1 && c == Letter(i)
    ensures Step(a, Odds(LETTERS + 1), c) == {2 * i}
  {
    hide Step, Moves, Wiring;
    WiringValid(a);
    var odds := Odds(LETTERS + 1);
    forall q | q in Step(a, odds, c) ensures q == 2 * i {
      StepMember(a, odds, c, q);
      var p :| p in odds && q in Moves(a, p, c);
      var j :| 1 <= j <= LETTERS + 1 && p == 2 * j - 1;
      OurMoves(a, j, c);
      LetterOnly(j, i);
    }
    StepMember(a, odds, c, 2 * i);
    OurMoves(a, i, c);
    OddIn(i, LETTERS + 1);
  }

  lemma WiringValid(a: Auto)
    requires Wiring(a)
    ensures a.Valid()
  {
  }

  /** The lists of states 2 and 3: all letters and HAT, and the same with y behind HAT. */
  function R(re: seq<Row>): seq<nat> {
    List(re, Odds(LETTERS + 1))
  }

  function InFront(re: seq<Row>): seq<nat> {
    List(re, Odds(LETTERS + 1) + {2 * (LETTERS + 1)})
  }

  /** What is behind a single position. */
  lemma {:induction false} NextOfOne(re: seq<Row>, p: nat, q: nat, c: nat)
    requires GoodRows(re) && p < |re| && Moves(AutoOf(re), p, c) == (if q == 0 then {} else {q}) && q < |re|
    ensures Next(re, [p], c) == if q == 0 then [] else [q]
  {
    assert Elems([p]) == {p};
    StepSingle(AutoOf(re), p, c);
    EmptyDescending(|re|);
    SingleList(q, |re|);
  }

  /** The list of a set with position 1, and so not that of a single even one. */
  lemma {:induction false} ListWithOne(re: seq<Row>, s: set<nat>, i: nat)
    requires |re| == 62 && 1 in s && 61 !in s && i > 0 && forall p :: p in s ==> p < 62
    ensures ListForm(List(re, s), |re|) && 61 !in List(re, s) && List(re, s) != [2 * i]
  {
    DescendingIs(s, 62);
    DescendingElems(s, 62);
    assert 1 in List(re, s);
  }

  lemma {:induction false} FromStart(re: seq<Row>, i: nat)
    requires GoodRows(re) && |re| == 62 && Wiring(AutoOf(re)) && 1 <= i <= LETTERS
    ensures Next(re, R(re), Letter(i)) == [2 * i] && Next(re, InFront(re), Letter(i)) == [2 * i]
    ensures ListForm(R(re), |re|) && 61 !in R(re) && R(re) != [2 * i]
    ensures ListForm(InFront(re), |re|) && 61 !in InFront(re) && InFront(re) != [2 * i]
  {
    hide Wiring, Step, Moves, Letter, ListForm, Descending;
    var a, odds, last := AutoOf(re), Odds(LETTERS + 1), 2 * (LETTERS + 1);
    OddIn(1, LETTERS + 1);
    ListWithOne(re, odds, i);
    ListWithOne(re, odds + {last}, i);
    DescendingElems(odds, 62);
    DescendingElems(odds + {last}, 62);
    StepOdds(a, i, Letter(i));
    LetterNotY(i);
    OurMoves(a, LETTERS + 1, Letter(i));
    StepSingle(a, last, Letter(i));
    StepUnion(a, odds, {last}, Letter(i));
    assert {2 * i} + {} == {2 * i};
    SingleList(2 * i, 62);
  }

  lemma LetterNotY(i: nat)
    requires 1 <= i <= LETTERS
    ensures Letter(i) != Second(LETTERS + 1)
  {
  }

  lemma {:induction false} FromLetter(re: seq<Row>, i: nat, c: nat)
    requires GoodRows(re) && |re| == 62 && Wiring(AutoOf(re)) && 1 <= i <= LETTERS
    ensures Next(re, [2 * i], c) == if c == X then [61] else []
    ensures Next(re, [61], c) == []
  {
    OurMoves(AutoOf(re), i, c);
    NextOfOne(re, 2 * i, if c == X then 61 else 0, c);
    NextOfOne(re, 61, 0, c);
  }

  /** The lists are found or not found where they are. */
  lemma {:induction false} FindIs(posns: seq<seq<nat>>, l: seq<nat>, i: nat, k: nat)
    requires 1 <= i <= |posns| && (k == 0 || i <= k < |posns|)
    requires forall j :: i <= j < |posns| && (k == 0 || j < k) ==> posns[j] != l
    requires k != 0 ==> posns[k] == l
    ensures Find(posns, l, i) == k
    decreases |posns| - i
  {
    if i < |posns| && i != k { FindIs(posns, l, i + 1, k); }
  }

  /** The table after p letters: each has its state, and where the search goes on there is no entry
      for the others. */
  ghost predicate Filled(re: seq<Row>, d: Table, p: nat) {
    && Good(re, d) && !d.reset && |d.posns| == 4 + p
    && d.posns[0] == d.posns[2] == R(re) && d.posns[3] == InFront(re)
    && (forall i :: 1 <= i <= p ==> d.posns[3 + i] == [2 * i])
    && (forall i :: p < i <= LETTERS ==> d.rows[2][Letter(i)] == 0)
    && (p == 0 ==> d.rows[3][Letter(1)] == 0)
  }

  /** The state in which the attempt at offset p begins. */
  function StateAt(p: nat): nat {
    if p == 0 then 3 else 2
  }

  /** The state that is opened for the next letter. */
  function Opened(d: Table, p: nat): Table
    requires Shaped(d) && |d.posns| == 4 + p
  {
    d.(posns := d.posns + [[2 * (p + 1)]],
       rows := d.rows[StateAt(p) := Put(d.rows[StateAt(p)], Letter(p + 1), 4 + p)] + [Blank()])
  }

  lemma {:induction false} NotYet(re: seq<Row>, d: Table, p: nat)
    requires GoodRows(re) && |re| == 62 && Wiring(AutoOf(re)) && Filled(re, d, p) && p < LETTERS
    ensures Find(d.posns, [2 * (p + 1)], 1) == 0
  {
    FromStart(re, p + 1);
    forall j | 1 <= j < |d.posns| ensures d.posns[j] != [2 * (p + 1)] {
      if j > 3 { assert d.posns[3 + (j - 3)] == [2 * (j - 3)]; }
    }
    FindIs(d.posns, [2 * (p + 1)], 1, 0);
  }

  /** The next letter gets a state. */
  lemma {:induction false} OpenLetter(re: seq<Row>, d: Table, p: nat)
    requires GoodRows(re) && |re| == 62 && Wiring(AutoOf(re)) && Filled(re, d, p) && p < LETTERS - 1
    ensures NUL < Letter(p + 1) < BYTES && Move(re, d, StateAt(p), Letter(p + 1)) == (Opened(d, p), 4 + p)
    ensures Good(re, Opened(d, p))
  {
    LetterOnly(p + 1, p + 1);
    FromStart(re, p + 1);
    NotYet(re, d, p);
    GotoKeeps(re, d, StateAt(p), Letter(p + 1));
  }

  /** The letter behind it leads from that state to the dead one. */
  lemma {:induction false} NextLetterDead(re: seq<Row>, d: Table, p: nat)
    requires GoodRows(re) && |re| == 62 && Wiring(AutoOf(re)) && Filled(re, d, p) && p < LETTERS - 1
    ensures NUL < Letter(p + 1) < BYTES && NUL < Letter(p + 2) < BYTES && Good(re, Opened(d, p))
    ensures var m := Move(re, Opened(d, p), 4 + p, Letter(p + 2)); m.1 == 1 && Good(re, m.0) && Filled(re, m.0, p + 1)
  {
    hide Later, Next, Sound, ListForm;
    OpenLetter(re, d, p);
    LetterOnly(p + 2, p + 2);
    var e := Opened(d, p);
    FromLetter(re, p + 1, Letter(p + 2));
    FindIs(e.posns, [], 1, 1);
    MoveLands(re, e, 4 + p, Letter(p + 2));
    var f := Move(re, e, 4 + p, Letter(p + 2)).0;
    assert f.posns == e.posns && f.rows[2] == e.rows[2];
    forall i | p + 1 < i <= LETTERS ensures f.rows[2][Letter(i)] == 0 {
      LetterOnly(p + 1, i);
    }
  }

  /** The attempt at offset p fails and fills one state more. */
  lemma {:induction false} FillOne(re: seq<Row>, d: Table, p: nat, t: seq<nat>)
    requires GoodRows(re) && |re| == 62 && Wiring(AutoOf(re)) && Filled(re, d, p) && p < LETTERS - 1
    requires Bytes(t) && |t| >= 2 && t[0] == Letter(p + 1) && t[1] == Letter(p + 2)
    ensures var sc := ScanFrom(re, d, StateAt(p), t, 0, -1); sc.1 == -1 && Filled(re, sc.0, p + 1)
  {
    FromStart(re, p + 1);
    OpenLetter(re, d, p);
    NextLetterDead(re, d, p);
    hide Move, Good, Wiring, Letter, Opened, Next;
    var e := Move(re, d, StateAt(p), t[0]);
    assert ScanFrom(re, d, StateAt(p), t, 0, -1) == ScanFrom(re, e.0, 4 + p, t, 1, -1);
  }

  /** With all states taken, the last letter clears the table: state 2 now stands for what is
      behind that letter, and has an entry for the letter that names state 2 itself. */
  function Cleared(re: seq<Row>, d: Table): Table
    requires |d.posns| >= 2 && |d.rows| >= 2
  {
    Table(
      [R(re), [], [2 * LETTERS]], d.rows[..2] + [Put(Blank(), Letter(LETTERS), 2)],
      d.initstat, true, d.clears + 1, d.bad + 1)
  }

  lemma {:induction false} LastLetterClears(re: seq<Row>, d: Table)
    requires GoodRows(re) && |re| == 62 && Wiring(AutoOf(re)) && Filled(re, d, LETTERS - 1)
    ensures Letter(LETTERS) < BYTES && Move(re, d, 2, Letter(LETTERS)) == (Cleared(re, d), 2)
      && Good(re, Cleared(re, d))
  {
    LetterOnly(LETTERS, LETTERS);
    FromStart(re, LETTERS);
    NotYet(re, d, LETTERS - 1);
    GotoKeeps(re, d, 2, Letter(LETTERS));
    assert d.posns[..2] + [[2 * LETTERS]] == [R(re), [], [2 * LETTERS]];
    assert Goto(re, d, 2, Letter(LETTERS)).0 == Cleared(re, d);
  }

  /** The wrong entry is used, and then the pair is completed. */
  lemma {:induction false} StaleStays(re: seq<Row>, d: Table)
    requires GoodRows(re) && |re| == 62 && Wiring(AutoOf(re)) && Filled(re, d, LETTERS - 1)
    ensures Letter(LETTERS) < BYTES && Good(re, Cleared(re, d))
    ensures var c := Cleared(re, d);
      && Move(re, c, 2, Letter(LETTERS)) == (c, 2) && !Out(re, c, 2)
      && var m := Move(re, c, 2, X);
      && m.1 == 3 < |m.0.posns| && Good(re, m.0) && Out(re, m.0, 3) && m.0.reset && m.0.initstat == d.initstat
      && var last := Move(re, m.0, 3, Y); last.1 == 1 && last.0.reset && last.0.initstat == d.initstat
  {
    LastLetterClears(re, d);
    LetterOnly(LETTERS, LETTERS);
    FromStart(re, LETTERS);
    FromLetter(re, LETTERS, X);
    FromLetter(re, LETTERS, Y);
    var c := Cleared(re, d);
    assert c.posns[1] == [] && c.posns[2] == [2 * LETTERS];
    FindIs(c.posns, [61], 1, 0);
    GotoKeeps(re, c, 2, X);
    var m := Move(re, c, 2, X);
    FindIs(m.0.posns, [], 1, 1);
  }

  /** The attempt at the last letter but one reports three bytes, and leaves a cleared table. */
  lemma {:induction false} ReportsThree(re: seq<Row>, d: Table, t: seq<nat>)
    requires GoodRows(re) && |re| == 62 && Wiring(AutoOf(re)) && Filled(re, d, LETTERS - 1)
    requires Bytes(t) && t == [Letter(LETTERS), Letter(LETTERS), X, Y, NUL]
    ensures var sc := ScanFrom(re, d, 2, t, 0, -1); sc.1 == 3 && sc.0.reset && sc.0.initstat == d.initstat
  {
    FromStart(re, LETTERS);
    LastLetterClears(re, d);
    StaleStays(re, d);
    var c := Cleared(re, d);
    var m := Move(re, c, 2, X);
    hide Move, Good, Wiring, Letter, Cleared, Next;
    assert ScanFrom(re, d, 2, t, 0, -1) == ScanFrom(re, c, 2, t, 1, -1);
    assert ScanFrom(re, c, 2, t, 1, -1) == ScanFrom(re, c, 2, t, 2, -1);
    assert ScanFrom(re, c, 2, t, 2, -1) == ScanFrom(re, m.0, 3, t, 3, -1);
  }

  lemma SubjectRest(p: nat)
    requires p < LETTERS
    ensures Text(Subject())
    ensures var t := Rest(Subject(), p);
      && |t| >= 2 && t[0] == Letter(p + 1) && t[1] == Letter(if p + 2 <= LETTERS then p + 2 else LETTERS)
      && (p == LETTERS - 1 ==> t == [Letter(LETTERS), Letter(LETTERS), X, Y, NUL])
  {
    SubjectText();
    SubjectAt(p);
    SubjectAt(p + 1);
    if p == LETTERS - 1 {
      SubjectAt(p + 2);
      SubjectAt(p + 3);
    }
  }

  /** From offset p on, `pmatch` finds three bytes at 28. */
  lemma {:induction false} SearchFails(re: seq<Row>, d: Table, p: nat)
    requires GoodRows(re) && |re| == 62 && Wiring(AutoOf(re)) && Filled(re, d, p) && p < LETTERS
    ensures Text(Subject()) && ListForm(d.posns[0], |re|)
    ensures var res := SearchFrom(re, d, StateAt(p), Subject(), p);
      res.found && res.b == 28 && res.n == 3 && res.table.reset
    decreases LETTERS - p
  {
    FromStart(re, 1);
    SubjectRest(p);
    hide Letter, Wiring, ScanFrom, Subject, Good;
    var t := Rest(Subject(), p);
    if p < LETTERS - 1 {
      FillOne(re, d, p, t);
      SearchFails(re, ScanFrom(re, d, StateAt(p), t, 0, -1).0, p + 1);
    } else {
      ReportsThree(re, d, t);
    }
  }

  lemma {:induction false} FrontIs(re: seq<Row>)
    requires Built(re, Pattern())
    ensures |re| == 62 && Wiring(AutoOf(re)) && Restart(Pattern()) == Odds(LETTERS + 1)
    ensures Start(AutoOf(re), Pattern()) == Odds(LETTERS + 1) + {2 * (LETTERS + 1)} && BeginState(re, Pattern()) == 3
  {
    hide Pattern, Compiled, Wiring;
    OurAuto(re);
    StepOdds(AutoOf(re), LETTERS + 1, HAT);
    assert 2 * (LETTERS + 1) !in Odds(LETTERS + 1);
  }

  lemma {:induction false} NewTableFilled(re: seq<Row>, d: Table)
    requires Built(re, Pattern()) && Good(re, d)
    ensures |re| == 62 && Wiring(AutoOf(re)) && BeginState(re, Pattern()) == 3
    ensures var e := MadeInit(re, true, d); |e.posns| == 4 && Filled(re, e, 0)
  {
    hide Pattern, Fit, Compiled, Odds, Wiring, Start, Restart;
    FrontIs(re);
    MadeInitFit(re, Pattern(), true, d);
    BeginLists(re, Pattern(), true);
    LetterOnly(1, 1);
    forall i | 0 < i <= LETTERS ensures MadeInit(re, true, d).rows[2][Letter(i)] == 0 { LetterOnly(i, i); }
  }

  /** A table as `makeinit` leaves it, now or at the next call. */
  ghost predicate AsNew(re: seq<Row>, d: Table) {
    Usable(re, Pattern(), true, d) && (d.reset || (Filled(re, d, 0) && d.initstat == 3))
  }

  /** With a new table `pmatch` reports the three bytes at 28, which are no word, in place of the
      two bytes at 29, and the table is left to be made anew. */
  lemma {:induction false} PMatchFails(re: seq<Row>, d: Table)
    requires AsNew(re, d)
    ensures Text(Subject())
    ensures var res := PMatched(re, Pattern(), d, Subject());
      && res.found && res.b == 28 && res.n == 3 && res.table.reset
      && !LeftmostLongest(Pattern(), Subject(), true, res.found, res.b, res.n)
      && LeftmostLongest(Pattern(), Subject(), true, true, 29, 2)
  {
    hide Pattern, Fit, Compiled, Filled, Subject, LeftmostLongest, MadeInit, Wiring, ScanFrom;
    NewTableFilled(re, d);
    SubjectText();
    ShouldFind(true);
    SearchFails(re, if d.reset then MadeInit(re, true, d) else d, 0);
  }

  lemma PatternSize()
    ensures LeafCount(Pattern()) == 60 && !HasFinal(Pattern())
  {
    hide Pairs, LeafCount, HasFinal;
    PairsNumbered(LETTERS + 1);
  }

  /** The automaton as `mkdfa` returns it. */
  method NewAutomaton() returns (f: Fa)
    ensures fresh(f) && fresh(f.gototab) && fresh(f.posns) && fresh(f.out) && fresh(f.sets) && fresh(f.sets.vec)
    ensures f.Valid() && f.anchor && f.pat == Pattern() && f.initstat == 3 && AsNew(f.re, f.table)
  {
    hide Pattern, Usable, Unmade, MadeInit, Good, LeafCount, HasFinal;
    PatternSize();
    f := Fa.MakeDfa(Pattern(), true);
    UnmadeGood(f.re);
    NewTableFilled(f.re, Unmade());
    FilledFrom(f.re, MadeInit(f.re, true, Unmade()), f.initstat);
  }

  /** The same from the beginning. */
  method Overflow() returns (found: bool, b: nat, n: int)
    ensures found && b == 28 && n == 3
    ensures !LeftmostLongest(Pattern(), Subject(), true, found, b, n)
    ensures LeftmostLongest(Pattern(), Subject(), true, true, 29, 2)
  {
    hide Pattern, Subject, Usable, LeftmostLongest, PMatched, Good;
    SubjectText();
    var f := NewAutomaton();
    PMatchFails(f.re, f.table);
    found, b, n := f.PMatch(Subject());
  }

  lemma FilledFrom(re: seq<Row>, d: Table, s: nat)
    requires Filled(re, d, 0)
    ensures Filled(re, d.(initstat := s), 0)
  {
  }

  // ---------- and gsub ----------

  /** At the front of a text `^y` matches y, and nowhere else. */
  lemma {:induction false} MatchesOfY(i: int, n: int, hat: bool)
    ensures MatchAt(Pattern(), [Y], i, n, hat) <==> hat && i == 0 && n == 1
  {
    hide In, Pattern;
    if 0 <= i && 0 <= n && i + n <= 1 {
      var w := [Y][i..i + n];
      PatternWords(w);
      PatternWords(w + [NUL]);
      PatternWords([HAT] + w);
      PatternWords([HAT] + (w + [NUL]));
      if n == 1 {
        assert w == [Y] && [HAT] + w == [HAT, Y];
        FrontWord();
      }
    }
  }

  lemma FrontWord()
    ensures In(Pattern(), [HAT, Y])
  {
    hide In, Pattern;
    PatternWords([HAT, Y]);
    assert Letter(LETTERS + 1) == HAT && Second(LETTERS + 1) == Y;
  }

  lemma {:induction false} BestOfY(hat: bool)
    ensures LeftmostLongest(Pattern(), [Y], hat, hat, 0, if hat then 1 else -1)
  {
    hide MatchAt, Pattern;
    forall i, n ensures MatchAt(Pattern(), [Y], i, n, hat) <==> hat && i == 0 && n == 1 {
      MatchesOfY(i, n, hat);
    }
  }

  /** With a table that is to be made anew, `^y` is found wherever the search begins. */
  lemma {:induction false} FindsFront(re: seq<Row>, d: Table)
    requires Usable(re, Pattern(), true, d) && d.reset
    ensures Text([Y])
    ensures var res := Searched(re, Pattern(), d, [Y]); res.found && res.b == 0 && res.n == 1
  {
    hide Pattern, PMatched, LeftmostLongest, Fit;
    FrontIs(re);
    ShortText();
    PMatchedShort(re, Pattern(), d, [Y]);
    BestOfY(true);
    var res := Searched(re, Pattern(), d, [Y]);
    BestIsOnly(Pattern(), [Y], true, res.found, res.b, res.n);
    BestIsOnly(Pattern(), [Y], true, true, 0, 1);
  }

  lemma ShortText()
    ensures Text([Y]) && (|[Y]| + 1) * (|[Y]| + 2) / 2 == 3
  {
  }

  /** The pieces that `gsub` makes, and those that it should make. */
  function Wrong(): seq<Piece> {
    SubjectAt(0);
    [Keep(Subject()[..28]), Subst(Subject()[28..31])] + [Keep([]), Subst([Y])]
  }

  function Right(): seq<Piece> {
    SubjectAt(0);
    [Keep(Subject()[..29]), Subst(Subject()[29..31])] + [Keep([Y])]
  }

  lemma SubjectEnd()
    ensures |Subject()| == 32 && Subject()[31..] == [Y]
  {
    SubjectAt(31);
  }

  lemma {:induction false} GsubFails(re: seq<Row>, d: Table)
    requires AsNew(re, d)
    ensures Text(Subject()) && GsubCuts(re, Pattern(), d, Subject()).0 == Wrong()
  {
    hide Pattern, Subject, Usable, PMatched, LeftmostLongest, Filled, Searched;
    PMatchFails(re, d);
    SubjectEnd();
    var str, res := Subject(), Searched(re, Pattern(), d, Subject());
    SearchedIs(re, Pattern(), d, str);
    MovedUsable(re, Pattern(), res.table, 2);
    var first := res.(table := res.table.(initstat := 2));
    FindsFront(re, first.table);
    CutsStep(re, Pattern(), first, str, false);
    var next := Searched(re, Pattern(), first.table, [Y]);
    CutsStep(re, Pattern(), next, [Y], true);
    assert [Y][..0] == [] && [Y][0..1] == [Y];
    assert Head([Y], true, 0, 1) == [Keep([]), Subst([Y])];
  }

  lemma SearchedIs(re: seq<Row>, r: Re, d: Table, s: seq<nat>)
    requires Usable(re, r, true, d) && Text(s)
    ensures Searched(re, r, d, s) == PMatched(re, r, d, s)
  {
  }

  lemma {:induction false} GsubShould()
    ensures Tiling(Pattern(), Subject(), true, false) == Right()
  {
    hide Pattern, Subject, LeftmostLongest, BestMatch;
    SubjectEnd();
    ShouldFind(true);
    BestIsOnly(Pattern(), Subject(), true, true, 29, 2);
    BestOfY(false);
    BestIsOnly(Pattern(), [Y], false, false, 0, -1);
    TilingAt(Pattern(), Subject(), true, false, 29, 2);
    assert Tiling(Pattern(), [Y], false, true) == [Keep([Y])];
  }

  /** With an empty replacement. */
  lemma Results()
    ensures |Subject()| == 32
    ensures Replaced(Wrong(), []) == Done(Subject()[..28], 2)
    ensures Replaced(Right(), []) == Done(Subject()[..29] + [Y], 1)
  {
    hide Subject;
    SubjectEnd();
    var s := Subject();
    FourPieces(s[..28], s[28..31], [], [Y]);
    ThreePieces(s[..29], s[29..31], [Y]);
  }

  lemma FourPieces(a: seq<nat>, b: seq<nat>, c: seq<nat>, d: seq<nat>)
    ensures var ps := [Keep(a), Subst(b)] + [Keep(c), Subst(d)];
      Rewritten(ps, []) == a + c && Matches(ps) == 2
  {
    TwoPieces(a, b);
    TwoPieces(c, d);
    RewrittenConcat([Keep(a), Subst(b)], [Keep(c), Subst(d)], []);
    MatchesConcat([Keep(a), Subst(b)], [Keep(c), Subst(d)]);
  }

  lemma TwoPieces(a: seq<nat>, b: seq<nat>)
    ensures Rewritten([Keep(a), Subst(b)], []) == a && Matches([Keep(a), Subst(b)]) == 1
  {
    RewrittenOne(Keep(a), []);
    RewrittenOne(Subst(b), []);
    RewrittenConcat([Keep(a)], [Subst(b)], []);
    MatchesConcat([Keep(a)], [Subst(b)]);
    assert [Keep(a)] + [Subst(b)] == [Keep(a), Subst(b)];
    assert a + [] == a;
  }

  lemma ThreePieces(a: seq<nat>, b: seq<nat>, c: seq<nat>)
    ensures var ps := [Keep(a), Subst(b)] + [Keep(c)];
      Rewritten(ps, []) == a + c && Matches(ps) == 1
  {
    TwoPieces(a, b);
    RewrittenOne(Keep(c), []);
    RewrittenConcat([Keep(a), Subst(b)], [Keep(c)], []);
    MatchesConcat([Keep(a), Subst(b)], [Keep(c)]);
  }

  /** `gsub` with a new automaton: two matches are taken out, 22x and then y as a match of `^y`, in
      place of the one match 2x. */
  method GsubOverflow() returns (res: GsubResult)
    ensures |Subject()| == 32 && res == Done(Subject()[..28], 2)
    ensures Replaced(Tiling(Pattern(), Subject(), true, false), []) == Done(Subject()[..29] + [Y], 1)
  {
    hide Pattern, Subject, Usable, Tiling, PMatched, Good, Replaced, GsubCuts;
    SubjectText();
    var f := NewAutomaton();
    GsubFails(f.re, f.table);
    GsubShould();
    Results();
    AsNewBuilt(f.re, f.table);
    FrontIs(f.re);
    res := Gsub(f, Subject(), []);
  }

  lemma AsNewBuilt(re: seq<Row>, d: Table)
    requires AsNew(re, d)
    ensures Built(re, Pattern())
  {
  }
}
