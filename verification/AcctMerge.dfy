/** Merging accounting files (cmd/acct/acctmerg.c): any number of inputs sorted by uid and name
    become one record per uid and name.

    The times of a record are `float`s. Nothing is assumed about their addition: it is a
    parameter, and the sums are stated with the order in which the program adds.
 */
module AcctMerge {
  const USHORT: nat := 0x1_0000
  const ULONG: nat := 0x1_0000_0000

  /** cpu (2), kcore (2), con (2), du */
  type Times = t: seq<real> | |t| == 7 witness seq(7, _ => 0.0)

  /** sc, dc, fee: these wrap at 16 bits */
  type Counts = c: seq<nat> | |c| == 3 && forall i :: 0 <= i < 3 ==> c[i] < USHORT witness seq(3, _ => 0)

  /** The number of processes, which wraps at 32 bits. */
  type Word = x: nat | x < ULONG

  /** What a record adds up. */
  datatype Amount = Amount(times: Times, pc: Word, counts: Counts)

  datatype Tacct = Tacct(uid: int, name: string, amount: Amount)

  /** The addition of two times, with whatever rounding. */
  type Plus = (real, real) -> real

  function Nothing(): Amount {
    Amount(seq(7, _ => 0.0), 0, seq(3, _ => 0))
  }

  function AddTimes(a: Times, b: Times, plus: Plus): Times {
    seq(7, i requires 0 <= i < 7 => plus(a[i], b[i]))
  }

  function AddCounts(a: Counts, b: Counts): Counts {
    seq(3, i requires 0 <= i < 3 => if a[i] + b[i] < USHORT then a[i] + b[i] else a[i] + b[i] - USHORT)
  }

  function AddWords(a: Word, b: Word): Word {
    if a + b < ULONG then a + b else a + b - ULONG
  }

  /** `tacctadd` */
  function Add(a: Amount, b: Amount, plus: Plus): Amount {
    Amount(AddTimes(a.times, b.times, plus), AddWords(a.pc, b.pc), AddCounts(a.counts, b.counts))
  }

  /** The amounts of the records added to `start`, one after the other. */
  function Total(start: Amount, p: seq<Tacct>, plus: Plus): Amount {
    if p == [] then start else Add(Total(start, p[..|p| - 1], plus), p[|p| - 1].amount, plus)
  }

  lemma {:induction false} TotalNext(start: Amount, p: seq<Tacct>, r: Tacct, plus: Plus)
    ensures Total(start, p + [r], plus) == Add(Total(start, p, plus), r.amount, plus)
  {
    assert (p + [r])[..|p|] == p;
  }

  /** The records of a group put together: the first, with the others added to it. */
  function Summed(p: seq<Tacct>, plus: Plus): Tacct
    requires p != []
  {
    p[0].(amount := Total(p[0].amount, p[1..], plus))
  }

  lemma {:induction false} SummedNext(p: seq<Tacct>, r: Tacct, plus: Plus)
    requires p != []
    ensures Summed(p + [r], plus) == Summed(p, plus).(amount := Add(Summed(p, plus).amount, r.amount, plus))
  {
    assert (p + [r])[1..] == p[1..] + [r];
    TotalNext(p[0].amount, p[1..], r, plus);
  }

  // ---------- keys ----------

  /** `strncmp` of two names is negative. */
  predicate Before(a: string, b: string) {
    b != "" && (a == "" || a[0] < b[0] || (a[0] == b[0] && Before(a[1..], b[1..])))
  }

  lemma BeforeOrder(a: string, b: string, c: string)
    ensures !Before(a, a)
    ensures Before(a, b) && Before(b, c) ==> Before(a, c)
    ensures Before(a, b) || Before(b, a) || a == b
    decreases |a| + |b| + |c|
  {
    if a != "" && b != "" {
      var c' := if c == "" then "" else c[1..];
      BeforeOrder(a[1..], b[1..], c');
      assert a[0] == b[0] && a[1..] == b[1..] ==> a == b;
    } else if a != "" {
      BeforeOrder(a[1..], "", "");
    }
  }

  /** The names agree on n characters, and then the first ends or has the lesser one. */
  ghost predicate PartAt(a: string, b: string, n: nat) {
    n <= |a| && n < |b| && a[..n] == b[..n] && (n == |a| || a[n] < b[n])
  }

  lemma PartMore(a: string, b: string, n: nat)
    requires a != "" && b != "" && a[0] == b[0]
    ensures PartAt(a, b, n + 1) <==> PartAt(a[1..], b[1..], n)
    ensures !PartAt(a, b, 0)
  {
    if n < |a| && n < |b| {
      assert a[..n + 1] == [a[0]] + a[1..][..n] && b[..n + 1] == [b[0]] + b[1..][..n];
      assert a[..n + 1][1..] == a[1..][..n] && b[..n + 1][1..] == b[1..][..n];
    }
  }

  lemma PartNone(a: string, b: string, n: nat)
    requires b == "" || (a != "" && b[0] < a[0])
    ensures !PartAt(a, b, n)
  {
    if 0 < n <= |a| && n <= |b| { assert a[..n][0] == a[0] && b[..n][0] == b[0]; }
  }

  lemma {:induction false} BeforeMeans(a: string, b: string)
    ensures Before(a, b) <==> exists n: nat :: PartAt(a, b, n)
  {
    if b == "" || (a != "" && b[0] < a[0]) {
      forall n: nat ensures !PartAt(a, b, n) {
        PartNone(a, b, n);
      }
    } else if a == "" || a[0] < b[0] {
      assert PartAt(a, b, 0);
    } else {
      hide PartAt;
      BeforeMeans(a[1..], b[1..]);
      if n: nat :| PartAt(a[1..], b[1..], n) {
        PartMore(a, b, n);
        var m := n + 1;
        assert PartAt(a, b, m);
      }
      forall n: nat | PartAt(a, b, n) ensures n > 0 && PartAt(a[1..], b[1..], n - 1) {
        PartMore(a, b, if n > 0 then n - 1 else 0);
      }
    }
  }

  /** What records are merged by: uid and name, or the uid alone. */
  datatype Key = Key(uid: int, name: string)

  function KeyOf(r: Tacct, uidsum: bool): Key {
    Key(r.uid, if uidsum then "" else r.name)
  }

  predicate Less(a: Key, b: Key) {
    a.uid < b.uid || (a.uid == b.uid && Before(a.name, b.name))
  }

  /** Two records are merged exactly if the uids agree, and the names unless only uids count; and
      the order is that of the uids, then that of the names. */
  lemma KeysMean(r: Tacct, s: Tacct, uidsum: bool)
    ensures KeyOf(r, uidsum) == KeyOf(s, uidsum) <==> r.uid == s.uid && (uidsum || r.name == s.name)
    ensures Less(KeyOf(r, uidsum), KeyOf(s, uidsum)) <==>
      r.uid < s.uid || (r.uid == s.uid && !uidsum && exists n: nat :: PartAt(r.name, s.name, n))
  {
    BeforeMeans(r.name, s.name);
  }

  lemma LessOrder(a: Key, b: Key, c: Key)
    ensures !Less(a, a)
    ensures Less(a, b) && Less(b, c) ==> Less(a, c)
    ensures !Less(b, a) && Less(b, c) ==> Less(a, c)
    ensures Less(a, b) || Less(b, a) || a == b
  {
    BeforeOrder(a.name, b.name, c.name);
    BeforeOrder(b.name, a.name, c.name);
  }

  // ---------- order ----------

  ghost predicate Sorted(f: seq<Tacct>, uidsum: bool) {
    forall i, j :: 0 <= i < j < |f| ==> !Less(KeyOf(f[j], uidsum), KeyOf(f[i], uidsum))
  }

  ghost predicate Named(f: seq<Tacct>) {
    forall i :: 0 <= i < |f| ==> f[i].name != ""
  }

  ghost predicate GoodFile(f: seq<Tacct>, uidsum: bool) {
    Sorted(f, uidsum) && Named(f)
  }

  ghost predicate GoodFiles(ps: seq<seq<Tacct>>, uidsum: bool) {
    forall i :: 0 <= i < |ps| ==> GoodFile(ps[i], uidsum)
  }

  /** Every record still to come is behind the key. */
  ghost predicate Behind(k: Key, f: seq<Tacct>, uidsum: bool) {
    forall i :: 0 <= i < |f| ==> Less(k, KeyOf(f[i], uidsum))
  }

  ghost predicate AllBehind(k: Key, ps: seq<seq<Tacct>>, uidsum: bool) {
    forall i :: 0 <= i < |ps| ==> Behind(k, ps[i], uidsum)
  }

  /** A sorted file whose head is behind the key is behind it. */
  lemma HeadBehind(k: Key, f: seq<Tacct>, uidsum: bool)
    requires Sorted(f, uidsum) && (f != [] ==> Less(k, KeyOf(f[0], uidsum)))
    ensures Behind(k, f, uidsum)
  {
    forall i | 0 <= i < |f| ensures Less(k, KeyOf(f[i], uidsum)) {
      if i > 0 {
        assert !Less(KeyOf(f[i], uidsum), KeyOf(f[0], uidsum));
        LessOrder(KeyOf(f[i], uidsum), KeyOf(f[0], uidsum), k);
        LessOrder(KeyOf(f[0], uidsum), KeyOf(f[i], uidsum), k);
        LessOrder(k, KeyOf(f[0], uidsum), KeyOf(f[i], uidsum));
      }
    }
  }

  /** File i has the least head, and those before it have greater ones. */
  ghost predicate Least(ps: seq<seq<Tacct>>, i: nat, n: nat, uidsum: bool) {
    && i < n <= |ps| && ps[i] != []
    && forall j :: 0 <= j < n && ps[j] != [] ==>
         var a, b := KeyOf(ps[i][0], uidsum), KeyOf(ps[j][0], uidsum);
         !Less(b, a) && (j < i ==> Less(a, b))
  }

  lemma LeastKept(ps: seq<seq<Tacct>>, i: nat, n: nat, uidsum: bool)
    requires Least(ps, i, n, uidsum) && n < |ps|
    requires ps[n] != [] ==> !Less(KeyOf(ps[n][0], uidsum), KeyOf(ps[i][0], uidsum))
    ensures Least(ps, i, n + 1, uidsum)
  {
  }

  lemma LeastMoves(ps: seq<seq<Tacct>>, i: nat, n: nat, uidsum: bool)
    requires Least(ps, i, n, uidsum) && n < |ps| && ps[n] != []
      && Less(KeyOf(ps[n][0], uidsum), KeyOf(ps[i][0], uidsum))
    ensures Least(ps, n, n + 1, uidsum)
  {
    var a := KeyOf(ps[n][0], uidsum);
    forall j | 0 <= j < n + 1 && ps[j] != []
      ensures !Less(KeyOf(ps[j][0], uidsum), a) && (j < n ==> Less(a, KeyOf(ps[j][0], uidsum))) {
      var b, c := KeyOf(ps[i][0], uidsum), KeyOf(ps[j][0], uidsum);
      LessOrder(a, b, c);
      LessOrder(c, b, a);
      LessOrder(b, c, a);
      LessOrder(c, a, c);
      LessOrder(a, c, a);
    }
  }

  // ---------- group by ----------

  /** All records of some lists, one list after the other. */
  function Flat(ps: seq<seq<Tacct>>): seq<Tacct> {
    if ps == [] then [] else Flat(ps[..|ps| - 1]) + ps[|ps| - 1]
  }

  lemma {:induction false} FlatNext(ps: seq<seq<Tacct>>, f: seq<Tacct>)
    ensures Flat(ps + [f]) == Flat(ps) + f
  {
    assert (ps + [f])[..|ps|] == ps;
  }

  /** The records with a key, in their order. */
  function Chosen(s: seq<Tacct>, k: Key, uidsum: bool): seq<Tacct> {
    if s == [] then []
    else Chosen(s[..|s| - 1], k, uidsum) + (if KeyOf(s[|s| - 1], uidsum) == k then [s[|s| - 1]] else [])
  }

  lemma {:induction false} ChosenConcat(s: seq<Tacct>, t: seq<Tacct>, k: Key, uidsum: bool)
    ensures Chosen(s + t, k, uidsum) == Chosen(s, k, uidsum) + Chosen(t, k, uidsum)
  {
    if t == [] {
      assert s + t == s;
    } else {
      var t' := t[..|t| - 1];
      assert (s + t)[..|s + t| - 1] == s + t' && (s + t)[|s + t| - 1] == t[|t| - 1];
      ChosenConcat(s, t', k, uidsum);
    }
  }

  /** The records with a key in some lists, one list after the other. */
  function ChosenAll(ps: seq<seq<Tacct>>, k: Key, uidsum: bool): seq<Tacct> {
    Chosen(Flat(ps), k, uidsum)
  }

  lemma {:induction false} ChosenLast(ps: seq<seq<Tacct>>, k: Key, uidsum: bool)
    requires ps != []
    ensures ChosenAll(ps, k, uidsum) == ChosenAll(ps[..|ps| - 1], k, uidsum) + Chosen(ps[|ps| - 1], k, uidsum)
  {
    ChosenConcat(Flat(ps[..|ps| - 1]), ps[|ps| - 1], k, uidsum);
  }

  lemma {:induction false} ChosenHead(f: seq<Tacct>, k: Key, uidsum: bool)
    requires f != []
    ensures Chosen(f, k, uidsum) == (if KeyOf(f[0], uidsum) == k then [f[0]] else []) + Chosen(f[1..], k, uidsum)
  {
    assert f == [f[0]] + f[1..] && [f[0]][..0] == [];
    ChosenConcat([f[0]], f[1..], k, uidsum);
  }

  /** A record whose key is not wanted can go. */
  lemma {:induction false} TakeOther(ps: seq<seq<Tacct>>, i: nat, k: Key, uidsum: bool)
    requires i < |ps| && ps[i] != [] && KeyOf(ps[i][0], uidsum) != k
    ensures ChosenAll(ps[i := ps[i][1..]], k, uidsum) == ChosenAll(ps, k, uidsum)
  {
    hide ChosenAll, Chosen, AllBehind;
    var n, ps' := |ps| - 1, ps[i := ps[i][1..]];
    ChosenLast(ps, k, uidsum);
    ChosenLast(ps', k, uidsum);
    if i == n {
      ChosenHead(ps[n], k, uidsum);
      assert ps'[..n] == ps[..n];
    } else {
      TakeOther(ps[..n], i, k, uidsum);
      assert ps'[..n] == ps[..n][i := ps[..n][i][1..]];
    }
  }

  /** Files behind a key have nothing with it. */
  lemma {:induction false} ChosenBehind(f: seq<Tacct>, k: Key, uidsum: bool)
    requires Behind(k, f, uidsum)
    ensures Chosen(f, k, uidsum) == []
  {
    if f != [] {
      ChosenBehind(f[..|f| - 1], k, uidsum);
      assert Less(k, KeyOf(f[|f| - 1], uidsum));
      LessOrder(k, k, k);
    }
  }

  lemma {:induction false} ChosenAllBehind(ps: seq<seq<Tacct>>, k: Key, uidsum: bool)
    requires AllBehind(k, ps, uidsum)
    ensures ChosenAll(ps, k, uidsum) == []
  {
    if ps != [] {
      ChosenLast(ps, k, uidsum);
      ChosenBehind(ps[|ps| - 1], k, uidsum);
      ChosenAllBehind(ps[..|ps| - 1], k, uidsum);
    }
  }

  /** The first record of the first file that has the key is the first with the key. */
  lemma {:induction false} TakeFirst(ps: seq<seq<Tacct>>, i: nat, k: Key, uidsum: bool)
    requires i < |ps| && ps[i] != [] && KeyOf(ps[i][0], uidsum) == k && AllBehind(k, ps[..i], uidsum)
    ensures ChosenAll(ps, k, uidsum) == [ps[i][0]] + ChosenAll(ps[i := ps[i][1..]], k, uidsum)
  {
    hide ChosenAll, Chosen, AllBehind;
    var n, ps' := |ps| - 1, ps[i := ps[i][1..]];
    ChosenLast(ps, k, uidsum);
    ChosenLast(ps', k, uidsum);
    if i == n {
      ChosenHead(ps[n], k, uidsum);
      assert ps'[..n] == ps[..n];
      ChosenAllBehind(ps[..n], k, uidsum);
    } else {
      assert ps[..n][..i] == ps[..i] && ps[..n][i] == ps[i];
      TakeFirst(ps[..n], i, k, uidsum);
      assert ps'[..n] == ps[..n][i := ps[..n][i][1..]];
    }
  }

  // ---------- the state of the merge ----------

  ghost predicate Increasing(parts: seq<seq<Tacct>>, uidsum: bool) {
    forall i, j :: 0 <= i < j < |parts| ==>
      parts[i] != [] && parts[j] != [] && Less(KeyOf(parts[i][0], uidsum), KeyOf(parts[j][0], uidsum))
  }

  /** A group: all records of the input with the key of its first, in their order. */
  ghost predicate Group(p: seq<Tacct>, input: seq<seq<Tacct>>, uidsum: bool) {
    p != [] && p == ChosenAll(input, KeyOf(p[0], uidsum), uidsum)
  }

  ghost predicate Groups(parts: seq<seq<Tacct>>, input: seq<seq<Tacct>>, uidsum: bool) {
    forall i :: 0 <= i < |parts| ==> Group(parts[i], input, uidsum)
  }

  ghost predicate Done(parts: seq<seq<Tacct>>, k: Key, uidsum: bool) {
    exists i :: 0 <= i < |parts| && parts[i] != [] && KeyOf(parts[i][0], uidsum) == k
  }

  /** Of a key that has no group yet, everything is still to be read. */
  ghost predicate Kept(parts: seq<seq<Tacct>>, ps: seq<seq<Tacct>>, input: seq<seq<Tacct>>, uidsum: bool) {
    forall k :: !Done(parts, k, uidsum) ==> ChosenAll(ps, k, uidsum) == ChosenAll(input, k, uidsum)
  }

  /** Between two groups. */
  ghost predicate IsBetween(parts: seq<seq<Tacct>>, ps: seq<seq<Tacct>>, input: seq<seq<Tacct>>, uidsum: bool) {
    && GoodFiles(ps, uidsum) && Groups(parts, input, uidsum) && Increasing(parts, uidsum)
    && Kept(parts, ps, input, uidsum)
    && (parts != [] ==> AllBehind(KeyOf(parts[|parts| - 1][0], uidsum), ps, uidsum))
  }

  /** While the group `p` is put together and input t is looked at: the rest of the group is
      still to be read, and of keys without a group everything. */
  ghost predicate IsWithin(
      parts: seq<seq<Tacct>>, p: seq<Tacct>, ps: seq<seq<Tacct>>, t: nat, input: seq<seq<Tacct>>, uidsum: bool) {
    && p != [] && GoodFiles(ps, uidsum) && Groups(parts, input, uidsum) && Increasing(parts, uidsum)
    && Kept(parts + [p], ps, input, uidsum)
    && var k := KeyOf(p[0], uidsum);
       && p + ChosenAll(ps, k, uidsum) == ChosenAll(input, k, uidsum)
       && (parts != [] ==> Less(KeyOf(parts[|parts| - 1][0], uidsum), k))
       && Stands(k, ps, t, uidsum)
  }

  ghost predicate NotBefore(k: Key, f: seq<Tacct>, uidsum: bool) {
    f != [] ==> !Less(KeyOf(f[0], uidsum), k)
  }

  /** Where input j stands when the group has key k and input t is looked at. */
  ghost predicate Stands(k: Key, ps: seq<seq<Tacct>>, t: nat, uidsum: bool) {
    forall j :: 0 <= j < |ps| ==> if j < t then Behind(k, ps[j], uidsum) else NotBefore(k, ps[j], uidsum)
  }

  lemma {:induction false} TailsGood(ps: seq<seq<Tacct>>, i: nat, uidsum: bool)
    requires GoodFiles(ps, uidsum) && i < |ps| && ps[i] != []
    ensures GoodFiles(ps[i := ps[i][1..]], uidsum)
  {
    var ps' := ps[i := ps[i][1..]];
    assert GoodFile(ps[i], uidsum);
    forall j | 0 <= j < |ps'| ensures GoodFile(ps'[j], uidsum) {
      assert GoodFile(ps[j], uidsum);
    }
  }

  lemma {:induction false} TailStands(ps: seq<seq<Tacct>>, i: nat, uidsum: bool)
    requires GoodFiles(ps, uidsum) && i < |ps| && ps[i] != [] && Stands(KeyOf(ps[i][0], uidsum), ps, i, uidsum)
    ensures Stands(KeyOf(ps[i][0], uidsum), ps[i := ps[i][1..]], i, uidsum)
  {
    assert GoodFile(ps[i], uidsum);
  }

  lemma {:induction false} LeastStands(ps: seq<seq<Tacct>>, i: nat, uidsum: bool)
    requires GoodFiles(ps, uidsum) && Least(ps, i, |ps|, uidsum)
    ensures Stands(KeyOf(ps[i][0], uidsum), ps, i, uidsum)
  {
    forall j | 0 <= j < i ensures Behind(KeyOf(ps[i][0], uidsum), ps[j], uidsum) {
      assert GoodFile(ps[j], uidsum);
      HeadBehind(KeyOf(ps[i][0], uidsum), ps[j], uidsum);
    }
  }

  ghost predicate Between(parts: seq<seq<Tacct>>, ps: seq<seq<Tacct>>, input: seq<seq<Tacct>>, uidsum: bool) {
    exists u :: u == uidsum && IsBetween(parts, ps, input, u)
  }

  ghost predicate Within(
      parts: seq<seq<Tacct>>, p: seq<Tacct>, ps: seq<seq<Tacct>>, t: nat, input: seq<seq<Tacct>>, uidsum: bool) {
    exists u :: u == uidsum && IsWithin(parts, p, ps, t, input, u)
  }

  lemma DoneNext(parts: seq<seq<Tacct>>, p: seq<Tacct>, k: Key, uidsum: bool)
    requires p != []
    ensures Done(parts + [p], k, uidsum) <==> Done(parts, k, uidsum) || KeyOf(p[0], uidsum) == k
  {
    var out := parts + [p];
    assert out[|parts|] == p;
    if Done(parts, k, uidsum) {
      var i :| 0 <= i < |parts| && parts[i] != [] && KeyOf(parts[i][0], uidsum) == k;
      assert out[i] == parts[i];
    }
  }

  /** Reading a record of the group does not touch the keys without a group. */
  lemma {:induction false} KeptTake(
      parts: seq<seq<Tacct>>, before: seq<seq<Tacct>>, p: seq<Tacct>, ps: seq<seq<Tacct>>, i: nat,
      input: seq<seq<Tacct>>, uidsum: bool)
    requires Kept(before, ps, input, uidsum) && p != [] && i < |ps| && ps[i] != []
      && KeyOf(ps[i][0], uidsum) == KeyOf(p[0], uidsum)
    requires before == parts || (|before| == |parts| + 1 && before[..|parts|] == parts && before[|parts|] != []
      && KeyOf(before[|parts|][0], uidsum) == KeyOf(p[0], uidsum))
    ensures Kept(parts + [p], ps[i := ps[i][1..]], input, uidsum)
  {
    hide ChosenAll, Done;
    forall k | !Done(parts + [p], k, uidsum)
      ensures ChosenAll(ps[i := ps[i][1..]], k, uidsum) == ChosenAll(input, k, uidsum)
    {
      DoneNext(parts, p, k, uidsum);
      if before != parts {
        DoneNext(parts, before[|parts|], k, uidsum);
        assert before == parts + [before[|parts|]];
      }
      TakeOther(ps, i, k, uidsum);
    }
  }

  lemma {:induction false} StandsBehind(k: Key, ps: seq<seq<Tacct>>, t: nat, uidsum: bool)
    requires Stands(k, ps, t, uidsum) && t <= |ps|
    ensures AllBehind(k, ps[..t], uidsum)
  {
  }

  lemma {:induction false} KeyNotDone(parts: seq<seq<Tacct>>, k: Key, uidsum: bool)
    requires Increasing(parts, uidsum)
      && (parts != [] ==> parts[|parts| - 1] != [] && Less(KeyOf(parts[|parts| - 1][0], uidsum), k))
    ensures !Done(parts, k, uidsum)
  {
    forall i | 0 <= i < |parts| && parts[i] != [] ensures KeyOf(parts[i][0], uidsum) != k {
      var a, b := KeyOf(parts[i][0], uidsum), KeyOf(parts[|parts| - 1][0], uidsum);
      LessOrder(a, b, k);
      LessOrder(k, k, k);
    }
  }

  lemma {:induction false} WithinStarts(
      parts: seq<seq<Tacct>>, ps: seq<seq<Tacct>>, i: nat, input: seq<seq<Tacct>>, uidsum: bool)
    requires Between(parts, ps, input, uidsum) && Least(ps, i, |ps|, uidsum)
    ensures Within(parts, [ps[i][0]], ps[i := ps[i][1..]], i, input, uidsum)
  {
    hide ChosenAll, Group, Increasing, Stands, AllBehind, GoodFiles, Kept, Done;
    assert IsBetween(parts, ps, input, uidsum);
    var r := ps[i][0];
    var k := KeyOf(r, uidsum);
    LastBefore(parts, ps, i, input, uidsum);
    KeyNotDone(parts, k, uidsum);
    TailsGood(ps, i, uidsum);
    LeastStands(ps, i, uidsum);
    StandsBehind(k, ps, i, uidsum);
    TakeFirst(ps, i, k, uidsum);
    TailStands(ps, i, uidsum);
    KeptTake(parts, parts, [r], ps, i, input, uidsum);
    KeptAt(parts, ps, input, k, uidsum);
    assert IsWithin(parts, [r], ps[i := ps[i][1..]], i, input, uidsum);
  }

  lemma KeptAt(parts: seq<seq<Tacct>>, ps: seq<seq<Tacct>>, input: seq<seq<Tacct>>, k: Key, uidsum: bool)
    requires Kept(parts, ps, input, uidsum) && !Done(parts, k, uidsum)
    ensures ChosenAll(ps, k, uidsum) == ChosenAll(input, k, uidsum)
  {
  }

  lemma LastBefore(parts: seq<seq<Tacct>>, ps: seq<seq<Tacct>>, i: nat, input: seq<seq<Tacct>>, uidsum: bool)
    requires IsBetween(parts, ps, input, uidsum) && i < |ps| && ps[i] != []
    ensures parts != [] ==>
        parts[|parts| - 1] != [] && Less(KeyOf(parts[|parts| - 1][0], uidsum), KeyOf(ps[i][0], uidsum))
  {
    if parts != [] {
      assert Group(parts[|parts| - 1], input, uidsum);
      assert Behind(KeyOf(parts[|parts| - 1][0], uidsum), ps[i], uidsum);
    }
  }

  lemma {:induction false} WithinGrows(
      parts: seq<seq<Tacct>>, p: seq<Tacct>, ps: seq<seq<Tacct>>, t: nat, input: seq<seq<Tacct>>, uidsum: bool)
    requires p != [] && Within(parts, p, ps, t, input, uidsum) && t < |ps| && ps[t] != []
      && KeyOf(ps[t][0], uidsum) == KeyOf(p[0], uidsum)
    ensures Within(parts, p + [ps[t][0]], ps[t := ps[t][1..]], t, input, uidsum)
  {
    hide ChosenAll, Group, Increasing, Stands, AllBehind, GoodFiles, Kept, Done;
    assert IsWithin(parts, p, ps, t, input, uidsum);
    var r, ps', k := ps[t][0], ps[t := ps[t][1..]], KeyOf(p[0], uidsum);
    TailsGood(ps, t, uidsum);
    StandsBehind(k, ps, t, uidsum);
    TakeFirst(ps, t, k, uidsum);
    TailStands(ps, t, uidsum);
    KeptTake(parts, parts + [p], p + [r], ps, t, input, uidsum);
    assert (p + [r])[0] == p[0] && p + [r] + ChosenAll(ps', k, uidsum) == p + ([r] + ChosenAll(ps', k, uidsum));
    assert IsWithin(parts, p + [r], ps', t, input, uidsum);
  }

  lemma {:induction false} WithinMoves(
      parts: seq<seq<Tacct>>, p: seq<Tacct>, ps: seq<seq<Tacct>>, t: nat, input: seq<seq<Tacct>>, uidsum: bool)
    requires p != [] && Within(parts, p, ps, t, input, uidsum) && t < |ps|
      && (ps[t] == [] || KeyOf(ps[t][0], uidsum) != KeyOf(p[0], uidsum))
    ensures Within(parts, p, ps, t + 1, input, uidsum)
  {
    hide ChosenAll, Group, Increasing, Kept;
    assert IsWithin(parts, p, ps, t, input, uidsum);
    var k := KeyOf(p[0], uidsum);
    assert NotBefore(k, ps[t], uidsum) && GoodFile(ps[t], uidsum);
    if ps[t] != [] { LessOrder(KeyOf(ps[t][0], uidsum), k, k); }
    HeadBehind(k, ps[t], uidsum);
    assert IsWithin(parts, p, ps, t + 1, input, uidsum);
  }

  lemma {:induction false} WithinEnds(
      parts: seq<seq<Tacct>>, p: seq<Tacct>, ps: seq<seq<Tacct>>, input: seq<seq<Tacct>>, uidsum: bool)
    requires p != [] && Within(parts, p, ps, |ps|, input, uidsum)
    ensures Between(parts + [p], ps, input, uidsum)
  {
    hide ChosenAll, GoodFiles, Kept, Increasing, Behind;
    assert IsWithin(parts, p, ps, |ps|, input, uidsum);
    var k := KeyOf(p[0], uidsum);
    ChosenAllBehind(ps, k, uidsum);
    assert p + [] == p;
    assert Group(p, input, uidsum);
    GroupsIncrease(parts, p, input, uidsum);
    assert IsBetween(parts + [p], ps, input, uidsum);
  }

  lemma GroupsIncrease(parts: seq<seq<Tacct>>, p: seq<Tacct>, input: seq<seq<Tacct>>, uidsum: bool)
    requires Groups(parts, input, uidsum) && Increasing(parts, uidsum) && p != []
    requires parts != [] ==> parts[|parts| - 1] != [] && Less(KeyOf(parts[|parts| - 1][0], uidsum), KeyOf(p[0], uidsum))
    ensures Increasing(parts + [p], uidsum)
  {
    hide ChosenAll;
    var out, k := parts + [p], KeyOf(p[0], uidsum);
    forall i, j | 0 <= i < j < |out|
      ensures out[i] != [] && out[j] != [] && Less(KeyOf(out[i][0], uidsum), KeyOf(out[j][0], uidsum)) {
      assert Group(parts[i], input, uidsum);
      if j == |parts| && i < j - 1 {
        LessOrder(KeyOf(parts[i][0], uidsum), KeyOf(parts[j - 1][0], uidsum), k);
      }
    }
  }

  /** Before anything is read into a group. */
  lemma {:induction false} BetweenStarts(input: seq<seq<Tacct>>, uidsum: bool)
    requires GoodFiles(input, uidsum)
    ensures Between([], input, input, uidsum)
  {
    assert IsBetween([], input, input, uidsum);
  }

  /** Group by: every group complete, the keys increasing, and no key without a group. */
  ghost predicate GroupBy(parts: seq<seq<Tacct>>, input: seq<seq<Tacct>>, uidsum: bool) {
    && Groups(parts, input, uidsum) && Increasing(parts, uidsum)
    && forall k :: !Done(parts, k, uidsum) ==> ChosenAll(input, k, uidsum) == []
  }

  lemma {:induction false} NothingChosen(ps: seq<seq<Tacct>>, k: Key, uidsum: bool)
    requires forall i :: 0 <= i < |ps| ==> ps[i] == []
    ensures ChosenAll(ps, k, uidsum) == []
  {
    ChosenAllBehind(ps, k, uidsum);
  }

  lemma {:induction false} BetweenEnds(
      parts: seq<seq<Tacct>>, ps: seq<seq<Tacct>>, input: seq<seq<Tacct>>, uidsum: bool)
    requires Between(parts, ps, input, uidsum) && forall i :: 0 <= i < |ps| ==> ps[i] == []
    ensures GroupBy(parts, input, uidsum)
  {
    hide ChosenAll, Done, Increasing, GoodFiles, AllBehind;
    assert IsBetween(parts, ps, input, uidsum);
    forall k | !Done(parts, k, uidsum) ensures ChosenAll(input, k, uidsum) == [] {
      KeptAt(parts, ps, input, k, uidsum);
      NothingChosen(ps, k, uidsum);
    }
  }

  // ---------- the sums ----------

  /** The sums kept while a group is put together. */
  ghost predicate Sums(tc: Tacct, total: Amount, parts: seq<seq<Tacct>>, p: seq<Tacct>, plus: Plus) {
    p != [] && tc == Summed(p, plus) && total == Total(Nothing(), Flat(parts) + p, plus)
  }

  lemma {:induction false} NothingYet(plus: Plus, totalonly: bool)
    ensures Total(Nothing(), Flat([]), plus) == Nothing() && Written([], [], totalonly, plus)
  {
  }

  lemma {:induction false} SumsStart(parts: seq<seq<Tacct>>, r: Tacct, plus: Plus)
    ensures Sums(r, Add(Total(Nothing(), Flat(parts), plus), r.amount, plus), parts, [r], plus)
  {
    TotalNext(Nothing(), Flat(parts), r, plus);
    assert [r][1..] == [];
  }

  lemma {:induction false} SumsEnd(tc: Tacct, total: Amount, parts: seq<seq<Tacct>>, p: seq<Tacct>, plus: Plus)
    requires Sums(tc, total, parts, p, plus)
    ensures p != [] && tc == Summed(p, plus) && total == Total(Nothing(), Flat(parts + [p]), plus)
  {
    FlatNext(parts, p);
  }

  lemma {:induction false} SumsNext(
      tc: Tacct, total: Amount, parts: seq<seq<Tacct>>, p: seq<Tacct>, r: Tacct, plus: Plus)
    requires Sums(tc, total, parts, p, plus)
    ensures Sums(tc.(amount := Add(tc.amount, r.amount, plus)), Add(total, r.amount, plus), parts, p + [r], plus)
  {
    SummedNext(p, r, plus);
    TotalNext(Nothing(), Flat(parts) + p, r, plus);
    assert Flat(parts) + p + [r] == Flat(parts) + (p + [r]);
  }

  /** How many records are left. */
  function Left(ps: seq<seq<Tacct>>): nat {
    if ps == [] then 0 else |ps[0]| + Left(ps[1..])
  }

  lemma {:induction false} LeftTake(ps: seq<seq<Tacct>>, i: nat)
    requires i < |ps| && ps[i] != []
    ensures Left(ps[i := ps[i][1..]]) == Left(ps) - 1
  {
    var ps' := ps[i := ps[i][1..]];
    if i == 0 {
      assert ps'[1..] == ps[1..];
    } else {
      assert ps'[1..] == ps[1..][i - 1 := ps[1..][i - 1][1..]] && ps'[0] == ps[0];
      LeftTake(ps[1..], i - 1);
    }
  }

  /** The output has one record per group. */
  ghost predicate OutIs(out: seq<Tacct>, parts: seq<seq<Tacct>>, plus: Plus) {
    |out| == |parts| && forall i :: 0 <= i < |parts| ==> parts[i] != [] && out[i] == Summed(parts[i], plus)
  }

  ghost predicate Written(out: seq<Tacct>, parts: seq<seq<Tacct>>, totalonly: bool, plus: Plus) {
    if totalonly then out == [] else OutIs(out, parts, plus)
  }

  lemma WrittenNext(out: seq<Tacct>, parts: seq<seq<Tacct>>, tc: Tacct, p: seq<Tacct>, totalonly: bool, plus: Plus)
    requires Written(out, parts, totalonly, plus) && p != [] && tc == Summed(p, plus)
    ensures Written(if totalonly then out else out + [tc], parts + [p], totalonly, plus)
  {
  }

  // ---------- what the groups are ----------

  lemma {:induction false} ChosenKeys(s: seq<Tacct>, k: Key, uidsum: bool, i: nat)
    requires i < |Chosen(s, k, uidsum)|
    ensures KeyOf(Chosen(s, k, uidsum)[i], uidsum) == k
  {
    if i < |Chosen(s[..|s| - 1], k, uidsum)| { ChosenKeys(s[..|s| - 1], k, uidsum, i); }
  }

  lemma {:induction false} ChosenHas(s: seq<Tacct>, r: Tacct, uidsum: bool)
    requires r in s
    ensures r in Chosen(s, KeyOf(r, uidsum), uidsum)
  {
    if r != s[|s| - 1] { ChosenHas(s[..|s| - 1], r, uidsum); }
  }

  /** One record per key, the keys strictly increasing, each record the sum of the input's
      records with its key in their order, and no key of the input left out. */
  ghost predicate Grouped(out: seq<Tacct>, all: seq<Tacct>, uidsum: bool, plus: Plus) {
    && (forall i, j :: 0 <= i < j < |out| ==> Less(KeyOf(out[i], uidsum), KeyOf(out[j], uidsum)))
    && (forall g :: 0 <= g < |out| ==> IsSum(out[g], all, uidsum, plus))
    && (forall r :: r in all ==> HasKey(out, KeyOf(r, uidsum), uidsum))
  }

  ghost predicate IsSum(r: Tacct, all: seq<Tacct>, uidsum: bool, plus: Plus) {
    var c := Chosen(all, KeyOf(r, uidsum), uidsum);
    c != [] && r == Summed(c, plus)
  }

  ghost predicate HasKey(out: seq<Tacct>, k: Key, uidsum: bool) {
    exists g :: 0 <= g < |out| && KeyOf(out[g], uidsum) == k
  }

  lemma {:induction false} PartsGrouped(
      out: seq<Tacct>, parts: seq<seq<Tacct>>, input: seq<seq<Tacct>>, uidsum: bool, plus: Plus)
    requires OutIs(out, parts, plus) && GroupBy(parts, input, uidsum)
    ensures Grouped(out, Flat(input), uidsum, plus)
  {
    forall g | 0 <= g < |out| ensures IsSum(out[g], Flat(input), uidsum, plus) {
      assert Group(parts[g], input, uidsum);
    }
    forall r | r in Flat(input) ensures HasKey(out, KeyOf(r, uidsum), uidsum) {
      ChosenHas(Flat(input), r, uidsum);
      assert Done(parts, KeyOf(r, uidsum), uidsum);
      var g :| 0 <= g < |parts| && parts[g] != [] && KeyOf(parts[g][0], uidsum) == KeyOf(r, uidsum);
      assert KeyOf(out[g], uidsum) == KeyOf(r, uidsum);
    }
  }

  /** All keys of a partition are keys of any other. */
  lemma {:induction false} DoneInBoth(
      a: seq<seq<Tacct>>, b: seq<seq<Tacct>>, input: seq<seq<Tacct>>, k: Key, uidsum: bool)
    requires GroupBy(a, input, uidsum) && GroupBy(b, input, uidsum) && Done(a, k, uidsum)
    ensures Done(b, k, uidsum)
  {
    hide ChosenAll;
    var i :| 0 <= i < |a| && a[i] != [] && KeyOf(a[i][0], uidsum) == k;
    assert Group(a[i], input, uidsum);
  }

  /** The keys of two partitions come in the same order. */
  lemma {:induction false} SameKey(a: seq<seq<Tacct>>, b: seq<seq<Tacct>>, input: seq<seq<Tacct>>, i: nat, uidsum: bool)
    requires GroupBy(a, input, uidsum) && GroupBy(b, input, uidsum) && i < |a| && i <= |b|
    requires forall j :: 0 <= j < i ==> a[j] == b[j]
    ensures i < |b| && a[i] != [] && b[i] != [] && !Less(KeyOf(a[i][0], uidsum), KeyOf(b[i][0], uidsum))
  {
    hide ChosenAll;
    assert Group(a[i], input, uidsum);
    var k := KeyOf(a[i][0], uidsum);
    assert Done(a, k, uidsum);
    DoneInBoth(a, b, input, k, uidsum);
    var g :| 0 <= g < |b| && b[g] != [] && KeyOf(b[g][0], uidsum) == k;
    LessOrder(k, k, k);
    if g < i {
      assert false;
    }
    assert Group(b[i], input, uidsum);
    if Less(k, KeyOf(b[i][0], uidsum)) && i < g {
      LessOrder(k, KeyOf(b[i][0], uidsum), k);
    }
  }

  /** There is one partition only. */
  lemma {:induction false} GroupByOnly(a: seq<seq<Tacct>>, b: seq<seq<Tacct>>, input: seq<seq<Tacct>>, uidsum: bool)
    requires GroupBy(a, input, uidsum) && GroupBy(b, input, uidsum)
    ensures a == b
  {
    GroupByUpTo(a, b, input, |a|, uidsum);
    if |a| < |b| { SameKey(b, a, input, |a|, uidsum); }
  }

  lemma {:induction false} GroupByUpTo(
      a: seq<seq<Tacct>>, b: seq<seq<Tacct>>, input: seq<seq<Tacct>>, n: nat, uidsum: bool)
    requires GroupBy(a, input, uidsum) && GroupBy(b, input, uidsum) && n <= |a|
    ensures n <= |b| && a[..n] == b[..n]
  {
    if n > 0 {
      hide ChosenAll, GroupBy, Less, KeyOf;
      var i := n - 1;
      GroupByUpTo(a, b, input, i, uidsum);
      forall j | 0 <= j < i ensures a[j] == b[j] {
        assert a[..i][j] == b[..i][j];
      }
      SameKey(a, b, input, i, uidsum);
      SameKey(b, a, input, i, uidsum);
      LessOrder(KeyOf(a[i][0], uidsum), KeyOf(b[i][0], uidsum), KeyOf(a[i][0], uidsum));
      GroupAt(a, input, i, uidsum);
      GroupAt(b, input, i, uidsum);
      assert a[..n] == a[..i] + [a[i]] && b[..n] == b[..i] + [b[i]];
    }
  }

  lemma GroupAt(parts: seq<seq<Tacct>>, input: seq<seq<Tacct>>, g: nat, uidsum: bool)
    requires GroupBy(parts, input, uidsum) && g < |parts|
    ensures Group(parts[g], input, uidsum)
  {
  }

  // ---------- nothing lost ----------

  lemma CountNext(p: seq<Tacct>, r: Tacct, x: Tacct)
    ensures multiset(p + [r])[x] == multiset(p)[x] + if r == x then 1 else 0
  {
  }

  lemma {:induction false} ChosenNext(s: seq<Tacct>, r: Tacct, k: Key, uidsum: bool)
    ensures Chosen(s + [r], k, uidsum) ==
      if KeyOf(r, uidsum) == k then Chosen(s, k, uidsum) + [r] else Chosen(s, k, uidsum)
  {
    assert (s + [r])[..|s|] == s;
    assert Chosen(s, k, uidsum) + [] == Chosen(s, k, uidsum);
  }

  lemma {:induction false} ChosenCount(s: seq<Tacct>, k: Key, uidsum: bool, x: Tacct)
    ensures multiset(Chosen(s, k, uidsum))[x] == if KeyOf(x, uidsum) == k then multiset(s)[x] else 0
  {
    if s != [] {
      hide Chosen, KeyOf;
      var front, r := s[..|s| - 1], s[|s| - 1];
      ChosenCount(front, k, uidsum, x);
      ChosenNext(front, r, k, uidsum);
      assert s == front + [r];
      CountNext(front, r, x);
      CountNext(Chosen(front, k, uidsum), r, x);
    }
  }

  /** Choosing a key from a group takes all of it or nothing. */
  lemma {:induction false} ChosenGroup(p: seq<Tacct>, j: Key, k: Key, uidsum: bool)
    requires forall i :: 0 <= i < |p| ==> KeyOf(p[i], uidsum) == j
    ensures Chosen(p, k, uidsum) == if j == k then p else []
  {
    if p != [] {
      ChosenGroup(p[..|p| - 1], j, k, uidsum);
      assert p == p[..|p| - 1] + [p[|p| - 1]];
    }
  }

  predicate KeyIs(p: seq<Tacct>, k: Key, uidsum: bool) {
    p != [] && KeyOf(p[0], uidsum) == k
  }

  lemma {:induction false} ChosenPart(parts: seq<seq<Tacct>>, input: seq<seq<Tacct>>, k: Key, uidsum: bool)
    requires parts != [] && Group(parts[|parts| - 1], input, uidsum)
    ensures var n := |parts| - 1;
      ChosenAll(parts, k, uidsum) ==
      ChosenAll(parts[..n], k, uidsum) + if KeyIs(parts[n], k, uidsum) then parts[n] else []
  {
    var p := parts[|parts| - 1];
    var j := KeyOf(p[0], uidsum);
    ChosenLast(parts, k, uidsum);
    forall i | 0 <= i < |p| ensures KeyOf(p[i], uidsum) == j {
      ChosenKeys(Flat(input), j, uidsum, i);
    }
    ChosenGroup(p, j, k, uidsum);
  }

  lemma {:induction false} ChosenNone(parts: seq<seq<Tacct>>, input: seq<seq<Tacct>>, k: Key, uidsum: bool)
    requires Groups(parts, input, uidsum) && forall i :: 0 <= i < |parts| ==> !KeyIs(parts[i], k, uidsum)
    ensures ChosenAll(parts, k, uidsum) == []
  {
    if parts != [] {
      ChosenPart(parts, input, k, uidsum);
      ChosenNone(parts[..|parts| - 1], input, k, uidsum);
    }
  }

  /** Choosing a key that one group has gives that group. */
  lemma {:induction false} ChosenOne(parts: seq<seq<Tacct>>, input: seq<seq<Tacct>>, g: nat, k: Key, uidsum: bool)
    requires Groups(parts, input, uidsum) && g < |parts|
      && (forall i :: 0 <= i < |parts| ==> (KeyIs(parts[i], k, uidsum) <==> i == g))
    ensures ChosenAll(parts, k, uidsum) == parts[g]
  {
    hide ChosenAll;
    var n := |parts| - 1;
    ChosenPart(parts, input, k, uidsum);
    if g == n {
      ChosenNone(parts[..n], input, k, uidsum);
    } else {
      ChosenOne(parts[..n], input, g, k, uidsum);
    }
  }

  /** The groups have of every key what the input has. */
  lemma {:induction false} SameChosen(parts: seq<seq<Tacct>>, input: seq<seq<Tacct>>, k: Key, uidsum: bool)
    requires GroupBy(parts, input, uidsum)
    ensures ChosenAll(parts, k, uidsum) == ChosenAll(input, k, uidsum)
  {
    hide ChosenAll;
    if Done(parts, k, uidsum) {
      var g :| 0 <= g < |parts| && parts[g] != [] && KeyOf(parts[g][0], uidsum) == k;
      forall i | 0 <= i < |parts| ensures KeyIs(parts[i], k, uidsum) <==> i == g {
        assert Group(parts[i], input, uidsum);
        LessOrder(k, k, k);
      }
      ChosenOne(parts, input, g, k, uidsum);
      assert Group(parts[g], input, uidsum);
    } else {
      ChosenNone(parts, input, k, uidsum);
    }
  }

  /** The groups have every record of the input as often as the input has it. */
  lemma {:induction false} PartsPermute(parts: seq<seq<Tacct>>, input: seq<seq<Tacct>>, uidsum: bool)
    requires GroupBy(parts, input, uidsum)
    ensures multiset(Flat(parts)) == multiset(Flat(input))
  {
    forall x: Tacct ensures multiset(Flat(parts))[x] == multiset(Flat(input))[x] {
      var k := KeyOf(x, uidsum);
      SameChosen(parts, input, k, uidsum);
      ChosenCount(Flat(parts), k, uidsum, x);
      ChosenCount(Flat(input), k, uidsum, x);
    }
  }

  // ---------- the order of adding ----------

  /** Two records that are added one after the other can be swapped, whatever was added before. */
  ghost predicate Swaps(plus: Plus) {
    forall p, r, s :: SwapsAt(plus, p, r, s)
  }

  ghost predicate SwapsAt(plus: Plus, p: seq<Tacct>, r: Tacct, s: Tacct) {
    Total(Nothing(), p + [r, s], plus) == Total(Nothing(), p + [s, r], plus)
  }

  lemma {:induction false} Without(p: seq<Tacct>, i: nat)
    requires i < |p|
    ensures multiset(p[..i] + p[i + 1..]) == multiset(p) - multiset{p[i]}
  {
    assert p == p[..i] + [p[i]] + p[i + 1..];
  }

  /** Moving one record to the end does not change the sum. */
  lemma {:induction false} TotalMove(p: seq<Tacct>, i: nat, plus: Plus)
    requires Swaps(plus) && i < |p|
    ensures Total(Nothing(), p, plus) == Total(Nothing(), p[..i] + p[i + 1..] + [p[i]], plus)
  {
    hide SwapsAt, Add, Nothing, Total;
    var n := |p| - 1;
    var q := p[..i] + p[i + 1..];
    if i == n {
      assert q + [p[i]] == p;
    } else {
      var p', r := p[..n], p[n];
      var q' := p'[..i] + p'[i + 1..];
      TotalMove(p', i, plus);
      TotalNext(Nothing(), p', r, plus);
      TotalNext(Nothing(), q' + [p[i]], r, plus);
      assert p == p' + [r];
      assert q' + [p[i]] + [r] == q' + [p[i], r];
      assert q == q' + [r];
      assert q + [p[i]] == q' + [r, p[i]];
      assert SwapsAt(plus, q', p[i], r);
      SwapsHere(plus, q', p[i], r);
    }
  }

  lemma SwapsHere(plus: Plus, p: seq<Tacct>, r: Tacct, s: Tacct)
    requires SwapsAt(plus, p, r, s)
    ensures Total(Nothing(), p + [r, s], plus) == Total(Nothing(), p + [s, r], plus)
  {
  }

  /** Lists with the same records: the last record of one can be taken out of the other. */
  lemma {:induction false} TakeOut(p: seq<Tacct>, q: seq<Tacct>) returns (i: nat)
    requires p != [] && multiset(p) == multiset(q)
    ensures i < |q| && q[i] == p[|p| - 1] && multiset(p[..|p| - 1]) == multiset(q[..i] + q[i + 1..])
  {
    var n := |p| - 1;
    assert p[n] in multiset(q);
    i :| 0 <= i < |q| && q[i] == p[n];
    Without(q, i);
    Without(p, n);
    assert p[..n] + p[n + 1..] == p[..n];
  }

  lemma {:induction false} TotalPermuted(p: seq<Tacct>, q: seq<Tacct>, plus: Plus)
    requires Swaps(plus) && multiset(p) == multiset(q)
    ensures Total(Nothing(), p, plus) == Total(Nothing(), q, plus)
  {
    if p == [] {
      assert |multiset(q)| == 0;
    } else {
      hide Swaps;
      var i := TakeOut(p, q);
      var q' := q[..i] + q[i + 1..];
      TotalPermuted(p[..|p| - 1], q', plus);
      TotalMove(q, i, plus);
      TotalNext(Nothing(), q', q[i], plus);
    }
  }

  /** The total is that of the inputs one after the other. */
  ghost predicate SameTotal(parts: seq<seq<Tacct>>, input: seq<seq<Tacct>>, plus: Plus) {
    Total(Nothing(), Flat(parts), plus) == Total(Nothing(), Flat(input), plus)
  }

  /** Where records can be swapped, it is. */
  lemma {:induction false} TotalOfInput(parts: seq<seq<Tacct>>, input: seq<seq<Tacct>>, uidsum: bool, plus: Plus)
    requires Swaps(plus) && GroupBy(parts, input, uidsum)
    ensures SameTotal(parts, input, plus)
  {
    PartsPermute(parts, input, uidsum);
    TotalPermuted(Flat(parts), Flat(input), plus);
  }

  /** Whatever the inputs, the total does not depend on the order of the groups. */
  ghost predicate OrderIsFree(plus: Plus) {
    forall parts, input, uidsum ::
      GoodFiles(input, uidsum) && GroupBy(parts, input, uidsum) ==> SameTotal(parts, input, plus)
  }

  /** The totals of all inputs are those of the inputs one after the other exactly if records
      can be swapped. */
  lemma {:induction false} OrderIsFreeExactly(plus: Plus)
    ensures OrderIsFree(plus) <==> Swaps(plus)
  {
    hide GroupBy, GoodFiles, SameTotal, SwapsAt;
    if Swaps(plus) {
      forall parts, input, uidsum | GoodFiles(input, uidsum) && GroupBy(parts, input, uidsum)
        ensures SameTotal(parts, input, plus)
      {
        TotalOfInput(parts, input, uidsum, plus);
      }
    }
    if OrderIsFree(plus) {
      forall p, r, s ensures SwapsAt(plus, p, r, s) {
        SwapInput(p, r, s, plus);
        assert SameTotal(SwapParts(p, r, s), [Marked(p, 0) + [Mark(r, 2)], [Mark(s, 1)]], plus);
        SwapTotals(p, r, s, plus);
      }
    }
  }

  /** A record with this uid and a name. */
  function Mark(r: Tacct, uid: int): Tacct {
    Tacct(uid, "user", r.amount)
  }

  function Marked(p: seq<Tacct>, uid: int): (q: seq<Tacct>)
    ensures |q| == |p| && forall i :: 0 <= i < |p| ==> q[i] == Mark(p[i], uid)
  {
    seq(|p|, i requires 0 <= i < |p| => Mark(p[i], uid))
  }

  /** The group-by of a file with p and r and a file with s, if s comes between them. */
  function SwapParts(p: seq<Tacct>, r: Tacct, s: Tacct): seq<seq<Tacct>> {
    (if p == [] then [] else [Marked(p, 0)]) + [[Mark(s, 1)], [Mark(r, 2)]]
  }

  /** Only the amounts are added. */
  lemma {:induction false} TotalAmounts(start: Amount, p: seq<Tacct>, q: seq<Tacct>, plus: Plus)
    requires |p| == |q| && forall i :: 0 <= i < |p| ==> p[i].amount == q[i].amount
    ensures Total(start, p, plus) == Total(start, q, plus)
  {
    if p != [] { TotalAmounts(start, p[..|p| - 1], q[..|q| - 1], plus); }
  }

  lemma {:induction false} FlatTwo(first: seq<seq<Tacct>>, a: seq<Tacct>, b: seq<Tacct>)
    ensures Flat(first + [a, b]) == Flat(first) + a + b
  {
    FlatNext(first, a);
    FlatNext(first + [a], b);
    assert first + [a] + [b] == first + [a, b];
  }

  lemma {:induction false} SwapFlat(p: seq<Tacct>, r: Tacct, s: Tacct)
    ensures Flat(SwapParts(p, r, s)) == Marked(p, 0) + [Mark(s, 1), Mark(r, 2)]
    ensures Flat([Marked(p, 0) + [Mark(r, 2)], [Mark(s, 1)]]) == Marked(p, 0) + [Mark(r, 2), Mark(s, 1)]
  {
    var first, q := if p == [] then [] else [Marked(p, 0)], Marked(p, 0);
    FlatNext([], q);
    assert [] + [q] == [q] && Flat(first) == q;
    FlatTwo(first, [Mark(s, 1)], [Mark(r, 2)]);
    FlatTwo([], q + [Mark(r, 2)], [Mark(s, 1)]);
    hide Flat, Marked, Mark;
    assert [] + [q + [Mark(r, 2)], [Mark(s, 1)]] == [q + [Mark(r, 2)], [Mark(s, 1)]];
  }

  lemma {:induction false} SwapTotals(p: seq<Tacct>, r: Tacct, s: Tacct, plus: Plus)
    requires SameTotal(SwapParts(p, r, s), [Marked(p, 0) + [Mark(r, 2)], [Mark(s, 1)]], plus)
    ensures SwapsAt(plus, p, r, s)
  {
    hide Total, Flat, Add, Nothing;
    SwapFlat(p, r, s);
    TotalAmounts(Nothing(), Marked(p, 0) + [Mark(s, 1), Mark(r, 2)], p + [s, r], plus);
    TotalAmounts(Nothing(), Marked(p, 0) + [Mark(r, 2), Mark(s, 1)], p + [r, s], plus);
  }

  lemma {:induction false} MarkedChosen(p: seq<Tacct>, uid: int, k: Key)
    ensures Chosen(Marked(p, uid), k, false) == if k == Key(uid, "user") then Marked(p, uid) else []
  {
    ChosenGroup(Marked(p, uid), Key(uid, "user"), k, false);
  }

  /** What the inputs have of a key. */
  lemma {:induction false} SwapChosen(p: seq<Tacct>, r: Tacct, s: Tacct, k: Key)
    ensures ChosenAll([Marked(p, 0) + [Mark(r, 2)], [Mark(s, 1)]], k, false) ==
      if k == Key(0, "user") then Marked(p, 0)
      else if k == Key(1, "user") then [Mark(s, 1)]
      else if k == Key(2, "user") then [Mark(r, 2)]
      else []
  {
    var a, b, c := Marked(p, 0), Marked([r], 2), Marked([s], 1);
    SwapFlat(p, r, s);
    assert b == [Mark(r, 2)] && c == [Mark(s, 1)];
    MarkedChosen(p, 0, k);
    MarkedChosen([r], 2, k);
    MarkedChosen([s], 1, k);
    hide Chosen, Flat, Marked, Mark;
    assert a + [Mark(r, 2), Mark(s, 1)] == a + b + c;
    ChosenThree(a, b, c, k);
    OneOfThree(Chosen(a, k, false), Chosen(b, k, false), Chosen(c, k, false));
  }

  lemma OneOfThree(a: seq<Tacct>, b: seq<Tacct>, c: seq<Tacct>)
    ensures b == c == [] ==> a + b + c == a
    ensures a == c == [] ==> a + b + c == b
    ensures a == b == [] ==> a + b + c == c
  {
  }

  lemma ChosenThree(a: seq<Tacct>, b: seq<Tacct>, c: seq<Tacct>, k: Key)
    ensures Chosen(a + b + c, k, false) == Chosen(a, k, false) + Chosen(b, k, false) + Chosen(c, k, false)
  {
    ChosenConcat(a + b, c, k, false);
    ChosenConcat(a, b, k, false);
  }

  lemma {:induction false} SwapInput(p: seq<Tacct>, r: Tacct, s: Tacct, plus: Plus)
    ensures GoodFiles([Marked(p, 0) + [Mark(r, 2)], [Mark(s, 1)]], false)
    ensures GroupBy(SwapParts(p, r, s), [Marked(p, 0) + [Mark(r, 2)], [Mark(s, 1)]], false)
  {
    hide ChosenAll;
    var input, parts := [Marked(p, 0) + [Mark(r, 2)], [Mark(s, 1)]], SwapParts(p, r, s);
    LessOrder(Key(0, "user"), Key(2, "user"), Key(0, "user"));
    forall g | 0 <= g < |parts| ensures Group(parts[g], input, false) {
      SwapChosen(p, r, s, KeyOf(parts[g][0], false));
    }
    forall k | !Done(parts, k, false) ensures ChosenAll(input, k, false) == [] {
      SwapChosen(p, r, s, k);
      SwapDone(p, r, s);
    }
  }

  lemma {:induction false} SwapDone(p: seq<Tacct>, r: Tacct, s: Tacct)
    ensures p != [] ==> Done(SwapParts(p, r, s), Key(0, "user"), false)
    ensures Done(SwapParts(p, r, s), Key(1, "user"), false) && Done(SwapParts(p, r, s), Key(2, "user"), false)
  {
    var parts, n := SwapParts(p, r, s), if p == [] then 0 else 1;
    assert KeyOf(parts[n][0], false) == Key(1, "user") && KeyOf(parts[n + 1][0], false) == Key(2, "user");
    assert p != [] ==> KeyOf(parts[0][0], false) == Key(0, "user");
  }

  // ---------- an addition that rounds ----------

  const LARGE: real := 16777216.0

  /** As `float`s are added: 1 is lost beside a number of 2 to the power of 24 or more. */
  function Rounded(a: real, b: real): real {
    if a >= LARGE && b == 1.0 then a else a + b
  }

  function Seconds(uid: int, t: real): Tacct {
    Tacct(uid, "user", Nothing().(times := seq(7, _ => t)))
  }

  /** Three inputs of one record. The groups are added from the least uid on, so that the large
      number comes first and both ones are lost; in the order of the inputs they are not. */
  lemma {:induction false} TotalsDiffer()
    ensures var input := [[Seconds(1, 1.0)], [Seconds(2, 1.0)], [Seconds(0, LARGE)]];
      var parts := [[Seconds(0, LARGE)], [Seconds(1, 1.0)], [Seconds(2, 1.0)]];
      && GoodFiles(input, false) && GroupBy(parts, input, false)
      && Total(Nothing(), Flat(parts), Rounded).times[0] == LARGE
      && Total(Nothing(), Flat(input), Rounded).times[0] == LARGE + 2.0
  {
    ThreeGroups(Seconds(1, 1.0), Seconds(2, 1.0), Seconds(0, LARGE));
    ThreeTotals(Seconds(0, LARGE), Seconds(1, 1.0), Seconds(2, 1.0));
    ThreeTotals(Seconds(1, 1.0), Seconds(2, 1.0), Seconds(0, LARGE));
  }

  lemma {:induction false} ThreeTotals(a: Tacct, b: Tacct, c: Tacct)
    ensures Flat([[a], [b], [c]]) == [a, b, c]
    ensures Total(Nothing(), [a, b, c], Rounded).times[0] ==
      Rounded(Rounded(Rounded(0.0, a.amount.times[0]), b.amount.times[0]), c.amount.times[0])
  {
    FlatNext([], [a]);
    FlatNext([[a]], [b]);
    FlatNext([[a], [b]], [c]);
    assert [] + [[a]] == [[a]] && [[a]] + [[b]] == [[a], [b]] && [[a], [b]] + [[c]] == [[a], [b], [c]];
    TotalNext(Nothing(), [], a, Rounded);
    TotalNext(Nothing(), [a], b, Rounded);
    TotalNext(Nothing(), [a, b], c, Rounded);
    assert [] + [a] == [a] && [a] + [b] == [a, b] && [a, b] + [c] == [a, b, c];
  }

  lemma {:induction false} ThreeChosen(a: Tacct, b: Tacct, c: Tacct, k: Key)
    ensures ChosenAll([[a], [b], [c]], k, false) ==
      (if KeyOf(a, false) == k then [a] else []) + (if KeyOf(b, false) == k then [b] else [])
        + (if KeyOf(c, false) == k then [c] else [])
  {
    ThreeTotals(a, b, c);
    assert [a, b, c] == [a] + [b] + [c];
    ChosenConcat([a] + [b], [c], k, false);
    ChosenConcat([a], [b], k, false);
    ChosenGroup([a], KeyOf(a, false), k, false);
    ChosenGroup([b], KeyOf(b, false), k, false);
    ChosenGroup([c], KeyOf(c, false), k, false);
  }

  lemma {:induction false} ThreeGroups(a: Tacct, b: Tacct, c: Tacct)
    requires c.uid < a.uid < b.uid && a.name != "" && b.name != "" && c.name != ""
    ensures GoodFiles([[a], [b], [c]], false) && GroupBy([[c], [a], [b]], [[a], [b], [c]], false)
  {
    hide ChosenAll;
    var input, parts := [[a], [b], [c]], [[c], [a], [b]];
    forall g | 0 <= g < |parts| ensures Group(parts[g], input, false) {
      ThreeChosen(a, b, c, KeyOf(parts[g][0], false));
    }
    forall k | !Done(parts, k, false) ensures ChosenAll(input, k, false) == [] {
      ThreeChosen(a, b, c, k);
      assert KeyOf(parts[0][0], false) != k && KeyOf(parts[1][0], false) != k && KeyOf(parts[2][0], false) != k;
    }
  }

  // ---------- field by field ----------

  /** The plain sum of one of the three counts. */
  function CountSum(p: seq<Tacct>, i: nat): nat
    requires i < 3
  {
    if p == [] then 0 else p[0].amount.counts[i] + CountSum(p[1..], i)
  }

  /** The plain sum of the numbers of processes. */
  function ProcessSum(p: seq<Tacct>): nat {
    if p == [] then 0 else p[0].amount.pc + ProcessSum(p[1..])
  }

  /** One of the seven times of each record added to `start`, from the left. */
  function TimeSum(start: real, p: seq<Tacct>, i: nat, plus: Plus): real
    requires i < 7
    decreases |p|
  {
    if p == [] then start else TimeSum(plus(start, p[0].amount.times[i]), p[1..], i, plus)
  }

  /** What adding the records of p to an amount makes of each field. */
  ghost predicate Fields(a: Amount, start: Amount, p: seq<Tacct>, plus: Plus) {
    && (forall i :: 0 <= i < 3 ==> a.counts[i] == (start.counts[i] + CountSum(p, i)) % USHORT)
    && a.pc == (start.pc + ProcessSum(p)) % ULONG
    && (forall i :: 0 <= i < 7 ==> a.times[i] == TimeSum(start.times[i], p, i, plus))
  }

  lemma {:induction false} CountSumConcat(p: seq<Tacct>, q: seq<Tacct>, i: nat)
    requires i < 3
    ensures CountSum(p + q, i) == CountSum(p, i) + CountSum(q, i)
  {
    if p == [] {
      assert p + q == q;
    } else {
      assert (p + q)[1..] == p[1..] + q;
      CountSumConcat(p[1..], q, i);
    }
  }

  lemma {:induction false} ProcessSumConcat(p: seq<Tacct>, q: seq<Tacct>)
    ensures ProcessSum(p + q) == ProcessSum(p) + ProcessSum(q)
  {
    if p == [] {
      assert p + q == q;
    } else {
      assert (p + q)[1..] == p[1..] + q;
      ProcessSumConcat(p[1..], q);
    }
  }

  lemma {:induction false} TimeSumNext(start: real, p: seq<Tacct>, r: Tacct, i: nat, plus: Plus)
    requires i < 7
    ensures TimeSum(start, p + [r], i, plus) == plus(TimeSum(start, p, i, plus), r.amount.times[i])
    decreases |p|
  {
    if p == [] {
      assert (p + [r])[1..] == [];
    } else {
      assert (p + [r])[1..] == p[1..] + [r];
      TimeSumNext(plus(start, p[0].amount.times[i]), p[1..], r, i, plus);
    }
  }

  lemma CountsNext(a: Amount, start: Amount, p: seq<Tacct>, r: Tacct, i: nat, plus: Plus)
    requires Fields(a, start, p, plus) && i < 3
    ensures Add(a, r.amount, plus).counts[i] == (start.counts[i] + CountSum(p + [r], i)) % USHORT
  {
    CountSumConcat(p, [r], i);
    assert [r][1..] == [];
    var n, x := start.counts[i] + CountSum(p, i), r.amount.counts[i];
    assert (n + x) % USHORT == if n % USHORT + x < USHORT then n % USHORT + x else n % USHORT + x - USHORT;
  }

  lemma ProcessesNext(a: Amount, start: Amount, p: seq<Tacct>, r: Tacct, plus: Plus)
    requires Fields(a, start, p, plus)
    ensures Add(a, r.amount, plus).pc == (start.pc + ProcessSum(p + [r])) % ULONG
  {
    ProcessSumConcat(p, [r]);
    assert [r][1..] == [];
    var n, x := start.pc + ProcessSum(p), r.amount.pc;
    assert (n + x) % ULONG == if n % ULONG + x < ULONG then n % ULONG + x else n % ULONG + x - ULONG;
  }

  lemma TimesNext(a: Amount, start: Amount, p: seq<Tacct>, r: Tacct, i: nat, plus: Plus)
    requires Fields(a, start, p, plus) && i < 7
    ensures Add(a, r.amount, plus).times[i] == TimeSum(start.times[i], p + [r], i, plus)
  {
    TimeSumNext(start.times[i], p, r, i, plus);
  }

  lemma FieldsNext(a: Amount, start: Amount, p: seq<Tacct>, r: Tacct, plus: Plus)
    requires Fields(a, start, p, plus)
    ensures Fields(Add(a, r.amount, plus), start, p + [r], plus)
  {
    var a' := Add(a, r.amount, plus);
    hide Add;
    forall i | 0 <= i < 3 ensures a'.counts[i] == (start.counts[i] + CountSum(p + [r], i)) % USHORT {
      CountsNext(a, start, p, r, i, plus);
    }
    ProcessesNext(a, start, p, r, plus);
    forall i | 0 <= i < 7 ensures a'.times[i] == TimeSum(start.times[i], p + [r], i, plus) {
      TimesNext(a, start, p, r, i, plus);
    }
  }

  lemma FieldsStart(start: Amount, plus: Plus)
    ensures Fields(start, start, [], plus)
  {
  }

  lemma {:induction false} TotalFields(start: Amount, p: seq<Tacct>, plus: Plus)
    ensures Fields(Total(start, p, plus), start, p, plus)
  {
    hide Fields, Add;
    if p == [] {
      FieldsStart(start, plus);
    } else {
      var q, r := p[..|p| - 1], p[|p| - 1];
      TotalFields(start, q, plus);
      assert q + [r] == p;
      FieldsNext(Total(start, q, plus), start, q, r, plus);
    }
  }

  /** The record of a group: uid and name of its first record, each count the sum modulo 2^16,
      the processes the sum modulo 2^32, each time the first with the others added to it. */
  ghost predicate AddsUp(r: Tacct, p: seq<Tacct>, plus: Plus) {
    && p != [] && r.uid == p[0].uid && r.name == p[0].name
    && (forall i :: 0 <= i < 3 ==> r.amount.counts[i] == CountSum(p, i) % USHORT)
    && r.amount.pc == ProcessSum(p) % ULONG
    && (forall i :: 0 <= i < 7 ==> r.amount.times[i] == TimeSum(p[0].amount.times[i], p[1..], i, plus))
  }

  lemma SummedFields(p: seq<Tacct>, plus: Plus)
    requires p != []
    ensures AddsUp(Summed(p, plus), p, plus)
  {
    TotalFields(p[0].amount, p[1..], plus);
  }

  /** The grand total: the same for all records, with the times added to nothing. */
  ghost predicate AddsAll(t: Tacct, p: seq<Tacct>, plus: Plus) {
    && t.uid == 0 && t.name == "TOTAL"
    && (forall i :: 0 <= i < 3 ==> t.amount.counts[i] == CountSum(p, i) % USHORT)
    && t.amount.pc == ProcessSum(p) % ULONG
    && (forall i :: 0 <= i < 7 ==> t.amount.times[i] == TimeSum(0.0, p, i, plus))
  }

  lemma TotalAddsAll(p: seq<Tacct>, plus: Plus)
    ensures AddsAll(Tacct(0, "TOTAL", Total(Nothing(), p, plus)), p, plus)
  {
    TotalFields(Nothing(), p, plus);
  }

  /** Every record of the output adds up the input's records with its key. */
  lemma GroupedAddsUp(out: seq<Tacct>, all: seq<Tacct>, uidsum: bool, plus: Plus, g: nat)
    requires Grouped(out, all, uidsum, plus) && g < |out|
    ensures AddsUp(out[g], Chosen(all, KeyOf(out[g], uidsum), uidsum), plus)
  {
    assert IsSum(out[g], all, uidsum, plus);
    SummedFields(Chosen(all, KeyOf(out[g], uidsum), uidsum), plus);
  }

  lemma {:induction false} SumsPermuted(p: seq<Tacct>, q: seq<Tacct>, i: nat)
    requires multiset(p) == multiset(q) && i < 3
    ensures CountSum(p, i) == CountSum(q, i) && ProcessSum(p) == ProcessSum(q)
  {
    if p == [] {
      assert |multiset(q)| == 0;
    } else {
      var j := TakeOut(p, q);
      var p', r := p[..|p| - 1], q[j];
      SumsPermuted(p', q[..j] + q[j + 1..], i);
      assert p == p' + [r] && q == q[..j] + ([r] + q[j + 1..]);
      CountSumConcat(p', [r], i);
      CountSumConcat(q[..j], [r] + q[j + 1..], i);
      CountSumConcat([r], q[j + 1..], i);
      CountSumConcat(q[..j], q[j + 1..], i);
      ProcessSumConcat(p', [r]);
      ProcessSumConcat(q[..j], [r] + q[j + 1..]);
      ProcessSumConcat([r], q[j + 1..]);
      ProcessSumConcat(q[..j], q[j + 1..]);
    }
  }

  /** The counts of the total are those of the input in any order: they wrap, they do not round. */
  lemma TotalCounts(parts: seq<seq<Tacct>>, input: seq<seq<Tacct>>, uidsum: bool, t: Tacct, i: nat, plus: Plus)
    requires GroupBy(parts, input, uidsum) && AddsAll(t, Flat(parts), plus) && i < 3
    ensures t.amount.counts[i] == CountSum(Flat(input), i) % USHORT
    ensures t.amount.pc == ProcessSum(Flat(input)) % ULONG
  {
    PartsPermute(parts, input, uidsum);
    SumsPermuted(Flat(parts), Flat(input), i);
  }

  class Merge {
    const uidsum: bool
    const totalonly: bool
    const plus: Plus
    const tb: array<Tacct>
    const fl: array<seq<Tacct>>
    var tt: Tacct
    var out: seq<Tacct>

    /** What is left of each input: the current record and the rest of the file. */
    ghost function View(): seq<seq<Tacct>>
      reads tb, fl
      requires tb.Length == fl.Length
    {
      seq(tb.Length, i requires 0 <= i < tb.Length reads tb, fl => (if tb[i].name == "" then [] else [tb[i]]) + fl[i])
    }

    /** Every input with anything left has a current record. */
    ghost predicate Valid()
      reads tb, fl
    {
      && tb.Length == fl.Length
      && forall i :: 0 <= i < tb.Length ==> Named(fl[i]) && (tb[i].name == "" ==> fl[i] == [])
    }

    constructor (files: seq<seq<Tacct>>, uidsum: bool, totalonly: bool, plus: Plus)
      ensures tb.Length == fl.Length == |files| && fresh(tb) && fresh(fl)
      ensures this.uidsum == uidsum && this.totalonly == totalonly && this.plus == plus
        && tt == Tacct(0, "TOTAL", Nothing()) && out == []
      ensures fl[..] == files && forall i :: 0 <= i < tb.Length ==> tb[i].name == ""
    {
      this.uidsum, this.totalonly, this.plus := uidsum, totalonly, plus;
      tb := new Tacct[|files|](_ => Tacct(0, "", Nothing()));
      fl := new seq<Tacct>[|files|](i requires 0 <= i < |files| => files[i]);
      tt, out := Tacct(0, "TOTAL", Nothing()), [];
    }

    /** `getnext` */
    method GetNext(i: nat)
      requires tb.Length == fl.Length && i < tb.Length && Named(fl[i])
      modifies tb, fl
      ensures View() == old(View())[i := old(fl[i])] && Named(fl[i]) && (tb[i].name == "" ==> fl[i] == [])
      ensures forall j :: 0 <= j < tb.Length && j != i ==> tb[j] == old(tb[j]) && fl[j] == old(fl[j])
    {
      ghost var f := fl[i];
      tb[i] := tb[i].(name := "");
      if fl[i] != [] {
        tb[i] := fl[i][0];
        fl[i] := fl[i][1..];
        assert [f[0]] + f[1..] == f;
      }
      assert View()[i] == f;
    }

    method GetLeast() returns (least: int)
      requires Valid()
      ensures least == -1 ==> forall i :: 0 <= i < |View()| ==> View()[i] == []
      ensures least != -1 ==> 0 <= least && Least(View(), least, |View()|, uidsum)
    {
      ghost var ps := View();
      least := -1;
      for tp := 0 to tb.Length
        invariant -1 <= least
        invariant least == -1 ==> forall i :: 0 <= i < tp ==> ps[i] == []
        invariant least != -1 ==> Least(ps, least, tp, uidsum) && ps[least][0] == tb[least]
      {
        if tb[tp].name == "" {
          if least != -1 { LeastKept(ps, least, tp, uidsum); }
          continue;
        }
        assert ps[tp][0] == tb[tp];
        if least == -1 {
          LessOrder(KeyOf(tb[tp], uidsum), KeyOf(tb[tp], uidsum), KeyOf(tb[tp], uidsum));
          least := tp;
        } else if tb[tp].uid < tb[least].uid
          || (tb[tp].uid == tb[least].uid && !uidsum && Before(tb[tp].name, tb[least].name)) {
          LeastMoves(ps, least, tp, uidsum);
          least := tp;
        } else {
          LeastKept(ps, least, tp, uidsum);
        }
      }
    }

    /** Counts the current record of input i in the total and reads the next. */
    method Take(i: nat) returns (r: Tacct)
      requires Valid() && i < tb.Length && tb[i].name != ""
      modifies this`tt, tb, fl
      ensures Valid() && tt == old(tt).(amount := Add(old(tt).amount, r.amount, plus))
      ensures i < |old(View())| && old(View())[i] != [] && r == old(View())[i][0] == old(tb[i])
      ensures View() == old(View())[i := old(View())[i][1..]] && Left(View()) == old(Left(View())) - 1
    {
      ghost var ps := View();
      assert ps[i][0] == tb[i] && fl[i] == ps[i][1..];
      LeftTake(ps, i);
      r := tb[i];
      tt := tt.(amount := Add(tt.amount, r.amount, plus));
      GetNext(i);
    }

    /** The group of the current record of input i. */
    method SumGroup(i: nat, ghost parts: seq<seq<Tacct>>, ghost input: seq<seq<Tacct>>)
      returns (tc: Tacct, ghost p: seq<Tacct>)
      requires Valid() && Least(View(), i, |View()|, uidsum) && Between(parts, View(), input, uidsum)
      requires tt.amount == Total(Nothing(), Flat(parts), plus)
      modifies this`tt, tb, fl
      ensures Valid() && p != [] && Between(parts + [p], View(), input, uidsum)
      ensures tc == Summed(p, plus) && tt == old(tt).(amount := Total(Nothing(), Flat(parts + [p]), plus))
      ensures Left(View()) < old(Left(View()))
    {
      hide Between, Within, Left, Sums, Total, Flat, Summed;
      WithinStarts(parts, View(), i, input, uidsum);
      assert View()[i][0] == tb[i];
      tc := Take(i);
      SumsStart(parts, tc, plus);
      tc, p := SumRest(i, tc, parts, input);
      WithinEnds(parts, p, View(), input, uidsum);
      SumsEnd(tc, tt.amount, parts, p, plus);
    }

    method AddCurrent(tp: nat, tc: Tacct, ghost parts: seq<seq<Tacct>>, ghost p: seq<Tacct>)
      returns (tc': Tacct, ghost p': seq<Tacct>)
      requires Valid() && tp < tb.Length && tb[tp].name != "" && Sums(tc, tt.amount, parts, p, plus)
      modifies this`tt, tb, fl
      ensures Valid() && tt == old(tt).(amount := tt.amount) && Sums(tc', tt.amount, parts, p', plus)
        && p' == p + [old(tb[tp])]
      ensures tp < |old(View())| && old(View())[tp] != [] && View() == old(View())[tp := old(View())[tp][1..]]
        && Left(View()) == old(Left(View())) - 1
    {
      SumsNext(tc, tt.amount, parts, p, tb[tp], plus);
      var r := Take(tp);
      tc' := tc.(amount := Add(tc.amount, r.amount, plus));
      p' := p + [r];
    }

    /** The loop of `sumcurr`, from input i on. */
    method SumRest(i: nat, first: Tacct, ghost parts: seq<seq<Tacct>>, ghost input: seq<seq<Tacct>>)
      returns (tc: Tacct, ghost p: seq<Tacct>)
      requires Valid() && i <= tb.Length && Within(parts, [first], View(), i, input, uidsum)
        && Sums(first, tt.amount, parts, [first], plus)
      modifies this`tt, tb, fl
      ensures Valid() && p != [] && Within(parts, p, View(), |View()|, input, uidsum)
        && Sums(tc, tt.amount, parts, p, plus)
      ensures tt == old(tt).(amount := tt.amount) && Left(View()) <= old(Left(View()))
    {
      hide Between, Within, Left, Total, Flat, Add;
      tc, p := first, [first];
      var tp: nat := i;
      while tp < tb.Length
        invariant Valid() && tp <= tb.Length && p != [] && Within(parts, p, View(), tp, input, uidsum)
          && Sums(tc, tt.amount, parts, p, plus)
        invariant Left(View()) <= old(Left(View())) && tt == old(tt).(amount := tt.amount)
        decreases Left(View()) + tb.Length - tp
      {
        ghost var v := View();
        if tb[tp].name != "" && tb[tp].uid == tc.uid && (uidsum || tb[tp].name == tc.name) {
          assert v[tp][0] == tb[tp];
          WithinGrows(parts, p, v, tp, input, uidsum);
          tc, p := AddCurrent(tp, tc, parts, p);
        } else {
          assert v[tp] == [] || v[tp][0] == tb[tp];
          WithinMoves(parts, p, v, tp, input, uidsum);
          tp := tp + 1;
        }
      }
    }

    /** The initial reads of `main`. */
    method Load()
      requires tb.Length == fl.Length && forall i :: 0 <= i < tb.Length ==> tb[i].name == "" && Named(fl[i])
      modifies tb, fl
      ensures Valid() && View() == old(fl[..])
    {
      assert forall i :: 0 <= i < tb.Length ==> View()[i] == [] + fl[i] == fl[..][i];
      assert View() == fl[..];
      for i := 0 to tb.Length
        invariant View() == old(fl[..])
        invariant forall j :: 0 <= j < tb.Length ==> Named(fl[j]) && (j < i && tb[j].name == "" ==> fl[j] == [])
        invariant forall j :: i <= j < tb.Length ==> tb[j].name == ""
      {
        assert View()[i] == fl[i];
        GetNext(i);
      }
    }

    /** `sumcurr`: puts together all records with the key of the current one of input i, and
        writes the sum. */
    method SumCurr(i: nat, ghost parts: seq<seq<Tacct>>, ghost input: seq<seq<Tacct>>)
      returns (ghost parts': seq<seq<Tacct>>)
      requires Valid() && Least(View(), i, |View()|, uidsum) && Between(parts, View(), input, uidsum)
      requires tt == Tacct(0, "TOTAL", Total(Nothing(), Flat(parts), plus)) && Written(out, parts, totalonly, plus)
      modifies this, tb, fl
      ensures Valid() && Between(parts', View(), input, uidsum) && Left(View()) < old(Left(View()))
      ensures tt == Tacct(0, "TOTAL", Total(Nothing(), Flat(parts'), plus)) && Written(out, parts', totalonly, plus)
    {
      hide Between, Within, Least, Total, Flat, Left, Written;
      var tc, p := SumGroup(i, parts, input);
      WrittenNext(out, parts, tc, p, totalonly, plus);
      parts' := parts + [p];
      if !totalonly {
        out := out + [tc];
      }
    }

    /** The loop of `main`. */
    method MergeAll(ghost input: seq<seq<Tacct>>) returns (ghost parts: seq<seq<Tacct>>)
      requires Valid() && View() == input && GoodFiles(input, uidsum) && out == [] && tt == Tacct(0, "TOTAL", Nothing())
      modifies this, tb, fl
      ensures GroupBy(parts, input, uidsum)
      ensures tt == Tacct(0, "TOTAL", Total(Nothing(), Flat(parts), plus)) && Written(out, parts, totalonly, plus)
    {
      hide Between, Least, Total, Flat, Left, GroupBy, GoodFiles, Nothing, Written, KeyOf, Less;
      parts := [];
      NothingYet(plus, totalonly);
      BetweenStarts(input, uidsum);
      var i := GetLeast();
      while i != -1
        invariant Valid() && Between(parts, View(), input, uidsum)
        invariant tt == Tacct(0, "TOTAL", Total(Nothing(), Flat(parts), plus)) && Written(out, parts, totalonly, plus)
        invariant i == -1 ==> forall j :: 0 <= j < |View()| ==> View()[j] == []
        invariant i != -1 ==> 0 <= i && Least(View(), i, |View()|, uidsum)
        decreases Left(View()), i != -1
      {
        parts := SumCurr(i, parts, input);
        i := GetLeast();
      }
      BetweenEnds(parts, View(), input, uidsum);
    }

    /** The merge: group by key, or only the total, added in the order of the groups. */
    method Run(ghost input: seq<seq<Tacct>>) returns (ghost parts: seq<seq<Tacct>>)
      requires tb.Length == fl.Length && fl[..] == input && out == [] && tt == Tacct(0, "TOTAL", Nothing())
      requires GoodFiles(input, uidsum) && forall i :: 0 <= i < tb.Length ==> tb[i].name == ""
      modifies this, tb, fl
      ensures GroupBy(parts, input, uidsum) && tt == Tacct(0, "TOTAL", Total(Nothing(), Flat(parts), plus))
      ensures if totalonly then out == [tt] else Grouped(out, Flat(input), uidsum, plus)
      ensures AddsAll(tt, Flat(parts), plus)
      ensures !totalonly ==>
        forall g :: 0 <= g < |out| ==> AddsUp(out[g], Chosen(Flat(input), KeyOf(out[g], uidsum), uidsum), plus)
    {
      forall i | 0 <= i < tb.Length ensures Named(fl[i]) {
        assert fl[..][i] == fl[i] && GoodFile(input[i], uidsum);
      }
      Load();
      parts := MergeAll(input);
      TotalAddsAll(Flat(parts), plus);
      if totalonly {
        out := out + [tt];
      } else {
        hide AddsAll, AddsUp, Grouped, GroupBy;
        PartsGrouped(out, parts, input, uidsum, plus);
        forall g | 0 <= g < |out|
          ensures AddsUp(out[g], Chosen(Flat(input), KeyOf(out[g], uidsum), uidsum), plus)
        {
          GroupedAddsUp(out, Flat(input), uidsum, plus, g);
        }
      }
    }
  }
}
