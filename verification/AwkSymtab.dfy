/** awk's symbol tables and arrays (cmd/awk/tran.c): chained buckets that grow, as a finite map
    from names to cells.
 */
module AwkSymtab {
  const FULLTAB: nat := 2
  const GROWTAB: nat := 4

  /** `unsigned` wraps at 32 bits. */
  const WRAP: nat := 0x1_0000_0000

  class Cell {
    const nval: string
    var sval: string
    var fval: real
    var tval: nat

    constructor (n: string, s: string, f: real, t: nat)
      ensures nval == n && sval == s && fval == f && tval == t
    {
      nval, sval, fval, tval := n, s, f, t;
    }
  }

  /** What a plain `char` holds: bytes above 127 are negative. */
  function Signed(c: char): int {
    var b := c as int % 256;
    if b < 128 then b else b - 256
  }

  /** The hash value before it is cut to the size of the table. */
  function Mix(s: string): (r: nat)
    ensures r < WRAP
  {
    if s == "" then 0 else (Signed(s[|s| - 1]) + 31 * Mix(s[..|s| - 1])) % WRAP
  }

  function Bucket(s: string, n: nat): (h: nat)
    requires n > 0
    ensures h < n
  {
    Mix(s) % n
  }

  method Hash(s: string, n: nat) returns (h: nat)
    requires n > 0
    ensures h == Bucket(s, n)
  {
    var hashval: nat := 0;
    for i := 0 to |s|
      invariant hashval == Mix(s[..i])
    {
      assert s[..i + 1][..i] == s[..i];
      hashval := (Signed(s[i]) + 31 * hashval) % WRAP;
    }
    assert s[..|s|] == s;
    h := hashval % n;
  }

  // ---------- buckets and the map they stand for ----------

  ghost predicate Has(chain: seq<Cell>, s: string) {
    exists i :: 0 <= i < |chain| && chain[i].nval == s
  }

  ghost predicate Distinct(chain: seq<Cell>) {
    forall i, j :: 0 <= i < j < |chain| ==> chain[i].nval != chain[j].nval
  }

  /** Bucket h holds cells of the map, each in the bucket of its name, each once. */
  ghost predicate BucketHolds(chain: seq<Cell>, h: nat, n: nat, m: map<string, Cell>)
    requires n > 0
  {
    && Distinct(chain)
    && forall i :: 0 <= i < |chain| ==>
      chain[i].nval in m && m[chain[i].nval] == chain[i] && Bucket(chain[i].nval, n) == h
  }

  /** The buckets hold exactly the cells of the map. */
  ghost predicate Table(t: seq<seq<Cell>>, m: map<string, Cell>) {
    && |t| > 0
    && (forall h :: 0 <= h < |t| ==> BucketHolds(t[h], h, |t|, m))
    && (forall s :: s in m ==> Has(t[Bucket(s, |t|)], s))
  }

  lemma TablePut(t: seq<seq<Cell>>, m: map<string, Cell>, c: Cell, h: nat)
    requires Table(t, m) && c.nval !in m && h == Bucket(c.nval, |t|)
    ensures Table(t[h := [c] + t[h]], m[c.nval := c])
  {
    var t', m' := t[h := [c] + t[h]], m[c.nval := c];
    assert BucketHolds(t[h], h, |t|, m);
    assert t'[h] == [c] + t[h];
    assert BucketHolds(t'[h], h, |t|, m');
    forall g | 0 <= g < |t'| && g != h ensures BucketHolds(t'[g], g, |t|, m') {
      assert BucketHolds(t[g], g, |t|, m);
    }
    forall s | s in m' ensures Has(t'[Bucket(s, |t'|)], s) {
      if s == c.nval {
        assert t'[h][0].nval == s;
      } else if Bucket(s, |t|) == h {
        var i :| 0 <= i < |t[h]| && t[h][i].nval == s;
        assert t'[h][i + 1].nval == s;
      } else {
        assert Has(t[Bucket(s, |t|)], s);
      }
    }
  }

  lemma TableRemove(t: seq<seq<Cell>>, m: map<string, Cell>, h: nat, i: nat)
    requires Table(t, m) && h < |t| && i < |t[h]|
    ensures Table(t[h := t[h][..i] + t[h][i + 1..]], m - {t[h][i].nval})
  {
    hide Mix;
    var gone := t[h][i].nval;
    var t', m' := t[h := t[h][..i] + t[h][i + 1..]], m - {gone};
    assert BucketHolds(t[h], h, |t|, m);
    assert BucketHolds(t'[h], h, |t|, m') by {
      forall j | 0 <= j < |t'[h]| ensures t'[h][j] == t[h][if j < i then j else j + 1] {}
    }
    forall g | 0 <= g < |t'| && g != h ensures BucketHolds(t'[g], g, |t|, m') {
      assert BucketHolds(t[g], g, |t|, m);
    }
    forall s | s in m' ensures Has(t'[Bucket(s, |t'|)], s) {
      assert Has(t[Bucket(s, |t|)], s);
      if Bucket(s, |t|) == h {
        var j :| 0 <= j < |t[h]| && t[h][j].nval == s;
        assert t'[h][if j < i then j else j - 1].nval == s;
      }
    }
  }

  /** Puts a cell at the front of its bucket. */
  method Prepend(t: array<seq<Cell>>, c: Cell, ghost m: map<string, Cell>)
    requires Table(t[..], m) && c.nval !in m
    modifies t
    ensures Table(t[..], m[c.nval := c])
  {
    var h := Hash(c.nval, t.Length);
    TablePut(t[..], m, c, h);
    ghost var was := t[..];
    t[h] := [c] + t[h];
    assert t[..] == was[h := [c] + was[h]];
  }

  class SymTab {
    var nelem: nat
    var size: nat
    var tab: array<seq<Cell>>
    ghost var contents: map<string, Cell>

    ghost predicate Valid()
      reads this, tab
    {
      size == tab.Length && Table(tab[..], contents) && nelem == |contents|
    }

    /** `makesymtab` */
    constructor (n: nat)
      requires n > 0
      ensures Valid() && contents == map[] && size == n && fresh(tab)
    {
      nelem, size, contents := 0, n, map[];
      tab := new seq<Cell>[n](_ => []);
    }

    /** `lookup` */
    method Lookup(s: string) returns (p: Cell?)
      requires Valid()
      ensures p == if s in contents then contents[s] else null
    {
      var h := Hash(s, size);
      var chain := tab[h];
      assert chain == tab[..][h];
      assert BucketHolds(chain, h, size, contents);
      for i := 0 to |chain|
        invariant forall j :: 0 <= j < i ==> chain[j].nval != s
      {
        if chain[i].nval == s {
          return chain[i];
        }
      }
      assert s in contents ==> Has(chain, s);
      return null;
    }

    /** `freeelem` */
    method FreeElem(s: string)
      requires Valid()
      modifies this, tab
      ensures Valid() && tab == old(tab) && contents == old(contents) - {s}
    {
      var h := Hash(s, size);
      var chain := tab[h];
      assert chain == tab[..][h] && BucketHolds(chain, h, size, contents);
      var i := 0;
      while i < |chain| && chain[i].nval != s
        modifies {}
        invariant 0 <= i <= |chain| && forall j :: 0 <= j < i ==> chain[j].nval != s
      {
        i := i + 1;
      }
      if i < |chain| {
        Unlink(h, i);
      } else {
        assert s in contents ==> Has(chain, s);
        assert contents - {s} == contents;
      }
    }

    method Unlink(h: nat, i: nat)
      requires Valid() && h < size && i < |tab[h]|
      modifies this, tab
      ensures Valid() && tab == old(tab) && contents == old(contents) - {old(tab[h][i]).nval}
    {
      hide Has, Mix;
      var chain := tab[h];
      ghost var t := tab[..];
      assert t[h] == chain && BucketHolds(t[h], h, size, contents);
      TableRemove(t, contents, h, i);
      SizeLess(contents, chain[i].nval);
      tab[h] := chain[..i] + chain[i + 1..];
      assert tab[..] == t[h := t[h][..i] + t[h][i + 1..]];
      nelem := nelem - 1;
      contents := contents - {chain[i].nval};
    }

    /** Chains the cells of bucket i into the new table. */
    method MoveBucket(np: array<seq<Cell>>, i: nat, ghost before: map<string, Cell>)
      returns (ghost moved: map<string, Cell>)
      requires Table(tab[..], contents) && size == tab.Length && i < size && np != tab
      requires Table(np[..], before) && Part(before, contents, size, i)
      modifies np
      ensures Table(np[..], moved) && Part(moved, contents, size, i + 1)
    {
      var chain := tab[i];
      assert chain == tab[..][i] && BucketHolds(chain, i, size, contents);
      moved := before;
      for j := 0 to |chain|
        invariant Table(np[..], moved) && tab[..] == old(tab[..])
        invariant forall s :: s in moved <==> s in before || Has(chain[..j], s)
        invariant forall s :: s in moved ==> s in contents && moved[s] == contents[s]
      {
        var c := chain[j];
        assert Bucket(c.nval, size) == i && c.nval !in before;
        Prepend(np, c, moved);
        HasNext(chain, j);
        moved := moved[c.nval := c];
      }
      assert chain[..|chain|] == chain;
      assert forall s :: s in contents && Bucket(s, size) == i ==> Has(chain, s);
    }

    /** `rehash`: changes no name's cell, whether or not there is memory. */
    method Rehash(memory: bool)
      requires size == tab.Length && Table(tab[..], contents)
      modifies this
      ensures size == tab.Length && Table(tab[..], contents) && contents == old(contents) && nelem == old(nelem)
      ensures size == (if memory then GROWTAB * old(size) else old(size))
      ensures if memory then fresh(tab) else tab == old(tab)
    {
      if !memory {
        return;
      }
      var nsz := GROWTAB * size;
      var np := new seq<Cell>[nsz](_ => []);
      ghost var moved: map<string, Cell> := map[];
      for i := 0 to size
        invariant size == old(size) && tab == old(tab) && tab[..] == old(tab[..]) && contents == old(contents)
          && nelem == old(nelem)
        invariant Table(np[..], moved) && Part(moved, contents, size, i)
      {
        moved := MoveBucket(np, i, moved);
      }
      assert moved == contents;
      tab := np;
      size := nsz;
    }

    /** `setsymtab`: the cell of the name, a new one if there was none. */
    method SetSymtab(n: string, s: string, f: real, t: nat, memory: bool) returns (p: Cell)
      requires Valid()
      modifies this, tab
      ensures Valid() && n in contents && contents[n] == p
      ensures n in old(contents) ==> contents == old(contents) && p == old(contents)[n] && tab == old(tab)
      ensures n !in old(contents) ==>
        contents == old(contents)[n := p] && fresh(p) && p.sval == s && p.fval == f && p.tval == t
      ensures nelem == old(nelem) + (if n in old(contents) then 0 else 1)
      ensures size == if memory && nelem > old(nelem) && nelem > FULLTAB * old(size) then GROWTAB * old(size)
        else old(size)
      ensures fresh(tab) || tab == old(tab)
      // the table stays at most FULLTAB times full, if memory has never run out
      ensures memory && old(nelem) <= FULLTAB * old(size) ==> nelem <= FULLTAB * size
      // and after it has, exactly if one growth is enough
      ensures memory && n !in old(contents) ==>
        (nelem <= FULLTAB * size <==> old(nelem) + 1 <= FULLTAB * GROWTAB * old(size))
    {
      hide Table, Has;
      var q := Lookup(n);
      if q != null {
        return q;
      }
      p := new Cell(n, s, f, t);
      nelem := nelem + 1;
      if nelem > FULLTAB * size {
        Rehash(memory);
      }
      Link(p);
    }

    method Link(p: Cell)
      requires size == tab.Length && Table(tab[..], contents) && p.nval !in contents
      modifies this`contents, tab
      ensures Table(tab[..], contents) && contents == old(contents)[p.nval := p]
    {
      Prepend(tab, p, contents);
      contents := contents[p.nval := p];
    }
  }

  /** The names of the buckets below i. */
  ghost predicate Part(moved: map<string, Cell>, m: map<string, Cell>, size: nat, i: nat)
    requires size > 0
  {
    && (forall s :: s in moved <==> s in m && Bucket(s, size) < i)
    && forall s :: s in moved ==> moved[s] == m[s]
  }

  lemma HasNext(chain: seq<Cell>, j: nat)
    requires j < |chain|
    ensures forall s :: Has(chain[..j + 1], s) <==> Has(chain[..j], s) || s == chain[j].nval
  {
    forall s ensures Has(chain[..j + 1], s) <==> Has(chain[..j], s) || s == chain[j].nval {
      if Has(chain[..j], s) {
        var i :| 0 <= i < j && chain[..j][i].nval == s;
        assert chain[..j + 1][i].nval == s;
      }
      if s == chain[j].nval { assert chain[..j + 1][j].nval == s; }
      if Has(chain[..j + 1], s) && s != chain[j].nval {
        var i :| 0 <= i < j + 1 && chain[..j + 1][i].nval == s;
        assert chain[..j][i].nval == s;
      }
    }
  }

  lemma SizeLess(m: map<string, Cell>, s: string)
    requires s in m
    ensures |m - {s}| == |m| - 1
  {
    assert m == (m - {s})[s := m[s]];
  }

  // ---------- a table more than twice full ----------

  const NSYMTAB: nat := 50

  /** The i-th name. */
  function Name(i: nat): string {
    seq(i + 1, _ => 'a')
  }

  /** Without memory 8 * n names go into n buckets; then there is memory for one growth, and one
      is not enough. */
  method Overfull(n: nat) returns (t: SymTab)
    requires n > 0
    ensures t.Valid() && t.nelem == FULLTAB * GROWTAB * n + 1 && t.size == GROWTAB * n && t.nelem > FULLTAB * t.size
  {
    hide SymTab.Valid;
    t := new SymTab(n);
    StartsEmpty(t);
    var last := FULLTAB * GROWTAB * n;
    var p;
    for i := 0 to last
      invariant t.Valid() && t.nelem == i && t.size == n && fresh(t) && fresh(t.tab)
      invariant forall s :: s in t.contents ==> |s| <= i
    {
      p := t.SetSymtab(Name(i), "", 0.0, 0, false);
    }
    p := t.SetSymtab(Name(last), "", 0.0, 0, true);
  }

  lemma StartsEmpty(t: SymTab)
    requires t.Valid() && t.contents == map[]
    ensures t.nelem == 0
  {
  }

  /** The table that the program starts with, after 401 names. */
  method OverfullStart() returns (t: SymTab)
    ensures t.Valid() && t.nelem == 401 && t.size == 200 && t.nelem > FULLTAB * t.size
  {
    t := Overfull(NSYMTAB);
  }

  // ---------- names with the same hash ----------

  function Pair(second: bool): string {
    if second then "BB" else "Aa"
  }

  /** A name of pairs `Aa` and `BB`. */
  function Pairs(choice: seq<bool>): string {
    if choice == [] then "" else Pairs(choice[..|choice| - 1]) + Pair(choice[|choice| - 1])
  }

  lemma WrapTimes(a: int, x: int)
    ensures (a + 31 * (x % WRAP)) % WRAP == (a + 31 * x) % WRAP
  {
    var q, r := x / WRAP, x % WRAP;
    assert a + 31 * x == a + 31 * r + WRAP * (31 * q);
  }

  lemma {:induction false} MixTwo(s: string, c: char, d: char)
    ensures Mix(s + [c, d]) == (Signed(d) + 31 * Signed(c) + 961 * Mix(s)) % WRAP
  {
    var t := s + [c];
    assert (s + [c, d])[..|t|] == t && t[..|s|] == s;
    WrapTimes(Signed(d), Signed(c) + 31 * Mix(s));
  }

  /** 31 times 66 - 65 is 97 - 66. */
  lemma PairMix(s: string, x: bool)
    ensures Mix(s + Pair(x)) == (97 + 31 * 65 + 961 * Mix(s)) % WRAP
  {
    assert Signed('A') == 65 && Signed('a') == 97 && Signed('B') == 66;
    if x { MixTwo(s, 'B', 'B'); } else { MixTwo(s, 'A', 'a'); }
    assert Pair(x) == if x then ['B', 'B'] else ['A', 'a'];
  }

  lemma SameParts(p: string, x: string, q: string, y: string)
    requires |p| == |q| && p + x == q + y
    ensures p == q && x == y
  {
    assert (p + x)[..|p|] == p && (q + y)[..|p|] == q && (p + x)[|p|..] == x && (q + y)[|p|..] == y;
  }

  lemma PairIs(x: bool, y: bool)
    ensures |Pair(x)| == 2 && (Pair(x) == Pair(y) ==> x == y)
  {
    assert Pair(x)[0] == if x then 'B' else 'A';
    assert Pair(y)[0] == if y then 'B' else 'A';
  }

  lemma {:induction false} PairsDiffer(a: seq<bool>, b: seq<bool>)
    requires |a| == |b|
    ensures |Pairs(a)| == |Pairs(b)| == 2 * |a|
    ensures Pairs(a) == Pairs(b) ==> a == b
  {
    hide Pair;
    if a != [] {
      var k := |a| - 1;
      PairsDiffer(a[..k], b[..k]);
      PairIs(a[k], b[k]);
      PairIs(b[k], a[k]);
      if Pairs(a) == Pairs(b) {
        SameParts(Pairs(a[..k]), Pair(a[k]), Pairs(b[..k]), Pair(b[k]));
        assert a == a[..k] + [a[k]] && b == b[..k] + [b[k]];
      }
    }
  }

  /** Such names of the same length share a bucket in a table of any size. */
  lemma {:induction false} PairsCollide(a: seq<bool>, b: seq<bool>, n: nat)
    requires |a| == |b| && n > 0
    ensures Mix(Pairs(a)) == Mix(Pairs(b)) && Bucket(Pairs(a), n) == Bucket(Pairs(b), n)
  {
    hide Mix, Pair;
    if a != [] {
      var k := |a| - 1;
      PairsCollide(a[..k], b[..k], n);
      PairMix(Pairs(a[..k]), a[k]);
      PairMix(Pairs(b[..k]), b[k]);
    }
  }

  /** A byte from 128 on counts negative, so the name of that one byte wraps around. */
  lemma SignedWraps(c: char)
    requires c as int < 256
    ensures Mix([c]) == if c as int < 128 then c as int else WRAP - 256 + c as int
  {
    assert [c][..0] == "";
  }
}
