/** Making a path canonical in place (`canPath` in cmd/bnu/expfile.c). */
module CanPath {
  const NUL: char := '\0'

  // ---------- components and their resolution ----------

  function Slash(s: string): (k: nat)
    ensures k <= |s|
  {
    if s == "" || s[0] == '/' then 0 else 1 + Slash(s[1..])
  }

  /** k letters, and then a slash or the end. */
  predicate EndsAt(s: string, k: nat) {
    k <= |s| && (forall i :: 0 <= i < k ==> s[i] != '/') && (k < |s| ==> s[k] == '/')
  }

  lemma {:induction false} SlashEnds(s: string)
    ensures EndsAt(s, Slash(s))
  {
    if s != "" && s[0] != '/' { SlashEnds(s[1..]); }
  }

  /** The components of a path: what stands between its slashes. */
  function Split(s: string): (r: seq<string>)
    ensures |r| > 0
    decreases |s|
  {
    var k := Slash(s);
    if k == |s| then [s] else [s[..k]] + Split(s[k + 1..])
  }

  /** `.` */
  predicate IsSelf(c: string) {
    |c| == 1 && c[0] == '.'
  }

  /** `..` */
  predicate IsParent(c: string) {
    |c| == 2 && c[0] == '.' && c[1] == '.'
  }

  predicate IsName(c: string) {
    |c| > 0 && !IsSelf(c) && !IsParent(c)
  }

  /** A path as a stack of names; `bare` if its last component is a name. */
  datatype Resolved = Climbs | Path(names: seq<string>, bare: bool)

  function Up(names: seq<string>): seq<string> {
    if names == [] then [] else names[..|names| - 1]
  }

  function Enter(names: seq<string>, c: string): seq<string> {
    if IsParent(c) then Up(names)
    else if IsName(c) then names + [c]
    else names
  }

  /** Component by component; a relative path must not climb above its start. */
  function Resolve(comps: seq<string>, names: seq<string>, abs: bool): Resolved
    requires |comps| > 0
  {
    if IsParent(comps[0]) && names == [] && !abs then Climbs
    else if |comps| == 1 then Path(Enter(names, comps[0]), IsName(comps[0]))
    else Resolve(comps[1..], Enter(names, comps[0]), abs)
  }

  /** The names written out, a slash behind each. */
  function Dir(abs: bool, names: seq<string>): string {
    if names == [] then (if abs then "/" else "")
    else Dir(abs, names[..|names| - 1]) + names[|names| - 1] + "/"
  }

  function Text(abs: bool, names: seq<string>, bare: bool): string
    requires bare ==> names != []
  {
    var d := Dir(abs, names);
    if d == "" then "." else if bare then d[..|d| - 1] else d
  }

  lemma ResolvedBare(comps: seq<string>, names: seq<string>, abs: bool)
    requires |comps| > 0
    ensures var r := Resolve(comps, names, abs); r.Path? && r.bare ==> r.names != []
  {
  }

  function Canonical(s: string): (r: Resolved)
    ensures r.Path? && r.bare ==> r.names != []
  {
    ResolvedBare(Split(s), [], Absolute(s));
    Resolve(Split(s), [], Absolute(s))
  }

  predicate Absolute(s: string) {
    s != "" && s[0] == '/'
  }

  // ---------- the program ----------

  predicate Plain(c: string) {
    IsName(c) && forall i :: 0 <= i < |c| ==> c[i] != '/' && c[i] != NUL
  }

  predicate AllPlain(names: seq<string>) {
    names == [] || (Plain(names[|names| - 1]) && AllPlain(names[..|names| - 1]))
  }

  lemma DirEnds(abs: bool, names: seq<string>)
    ensures Dir(abs, names) == "" <==> !abs && names == []
    ensures var d := Dir(abs, names); d != "" ==> d[|d| - 1] == '/'
    ensures abs ==> Dir(abs, names)[0] == '/'
    ensures AllPlain(names) && names != [] ==> |Dir(abs, names)| >= 2
  {
  }

  /** A string in a buffer. */
  ghost predicate Holds(b: seq<char>, s: string) {
    |s| < |b| && b[..|s|] == s && b[|s|] == NUL && forall i :: 0 <= i < |s| ==> s[i] != NUL
  }

  /** Back past the last component. */
  method Back(path: array<char>, to: nat, ghost abs: bool, ghost names: seq<string>) returns (to': nat)
    requires AllPlain(names) && names != [] && to <= path.Length && path[..to] == Dir(abs, names)
    ensures to' <= to && path[..to'] == Dir(abs, names[..|names| - 1])
  {
    ghost var before, c := Dir(abs, names[..|names| - 1]), names[|names| - 1];
    DirEnds(abs, names[..|names| - 1]);
    assert Plain(c);
    assert path[..to] == before + c + "/";
    forall i | |before| <= i < |before| + |c| ensures path[i] != '/' {
      assert path[i] == path[..to][i] == c[i - |before|];
    }
    assert before != "" ==> path[|before| - 1] == path[..to][|before| - 1] == '/';
    to' := to - 1;
    while to' > 0 && path[to' - 1] != '/'
      invariant |before| <= to' <= |before| + |c|
    {
      to' := to' - 1;
    }
    assert path[..to'] == path[..to][..to'] == before;
  }

  /** The name at `fr` has been copied to `to`, with its end. */
  ghost predicate Copied(b: seq<char>, b': seq<char>, to: nat, fr: nat, k: nat, fr': nat) {
    && |b'| == |b| && to <= fr && fr + k < |b| && to + k + 1 <= |b|
    && (forall i :: 0 <= i < to ==> b'[i] == b[i])
    && (forall i :: to <= i < to + k + 1 ==> b'[i] == b[fr + (i - to)])
    && (forall i :: fr' <= i < |b| ==> b'[i] == b[i])
  }

  /** Copies a component of k letters with the slash or the end of string behind it. */
  method CopyName(path: array<char>, to: nat, fr: nat, ghost k: nat) returns (to': nat, fr': nat)
    requires to <= fr && fr + k < path.Length
    requires forall i :: fr <= i < fr + k ==> path[i] != '/' && path[i] != NUL
    requires path[fr + k] == '/' || path[fr + k] == NUL
    modifies path
    ensures to' == to + k + 1 && fr' == (if old(path[fr + k]) == '/' then fr + k + 1 else fr + k)
    ensures Copied(old(path[..]), path[..], to, fr, k, fr')
  {
    to', fr' := to, fr;
    var more := true;
    while more
      invariant fr <= fr' <= path.Length && (more ==> fr' <= fr + k && to' == to + (fr' - fr))
      invariant !more ==> to' == to + k + 1 && fr' == (if old(path[fr + k]) == '/' then fr + k + 1 else fr + k)
      invariant forall i :: 0 <= i < to ==> path[i] == old(path[i])
      invariant forall i :: to <= i < to' ==> path[i] == old(path[fr + (i - to)])
      invariant forall i :: fr' <= i < path.Length ==> path[i] == old(path[i])
      decreases more, path.Length - fr'
    {
      var ch := path[fr'];
      path[to'] := ch;
      to' := to' + 1;
      if ch == NUL {
        more := false;
      } else {
        fr' := fr' + 1;
        more := ch != '/';
      }
    }
  }

  // ---------- what each branch does to the resolution ----------

  lemma {:induction false} SkipSlash(s: string, names: seq<string>, abs: bool)
    requires s != "" && s[0] == '/'
    ensures Resolve(Split(s), names, abs) == Resolve(Split(s[1..]), names, abs)
  {
    assert Slash(s) == 0;
    assert Split(s)[1..] == Split(s[1..]);
  }

  predicate DotComponent(s: string) {
    s != "" && s[0] == '.' && (|s| == 1 || s[1] == '/')
  }

  predicate DotDotComponent(s: string) {
    |s| >= 2 && s[0] == '.' && s[1] == '.' && (|s| == 2 || s[2] == '/')
  }

  /** Splitting off the first component, of k letters. */
  lemma {:induction false} FirstComponent(s: string, k: nat)
    requires EndsAt(s, k)
    ensures Slash(s) == k && Split(s) == [s[..k]] + (if k < |s| then Split(s[k + 1..]) else [])
  {
    SlashEnds(s);
    assert k == |s| ==> s[..k] == s;
  }

  lemma {:induction false} SkipDot(s: string, names: seq<string>, abs: bool)
    requires DotComponent(s)
    ensures Resolve(Split(s), names, abs) == Resolve(Split(s[1..]), names, abs)
  {
    FirstComponent(s, 1);
    if |s| > 1 {
      SkipSlash(s[1..], names, abs);
      assert s[1..][1..] == s[2..] && Split(s)[1..] == Split(s[2..]);
    } else {
      FirstComponent(s[1..], 0);
    }
  }

  lemma {:induction false} SkipDotDot(s: string, names: seq<string>, abs: bool)
    requires DotDotComponent(s)
    ensures Resolve(Split(s), names, abs) ==
      if names == [] && !abs then Climbs else Resolve(Split(s[2..]), Up(names), abs)
  {
    FirstComponent(s, 2);
    if |s| > 2 {
      SkipSlash(s[2..], Up(names), abs);
      assert s[2..][1..] == s[3..] && Split(s)[1..] == Split(s[3..]);
    } else {
      FirstComponent(s[2..], 0);
    }
  }

  /** A path that starts with a name. */
  predicate StartsWithName(s: string) {
    s != "" && s[0] != '/' && !DotComponent(s) && !DotDotComponent(s)
  }

  lemma {:induction false} FirstName(s: string, k: nat, c: string)
    requires StartsWithName(s) && NoNul(s) && k == Slash(s) && c == s[..k]
    ensures Plain(c)
  {
    SlashEnds(s);
    assert k > 0 && c[0] == s[0] && |c| == k && (k > 1 ==> c[1] == s[1]);
  }

  lemma {:induction false} PushName(s: string, names: seq<string>, abs: bool, k: nat, c: string)
    requires k == Slash(s) && c == s[..k] && Plain(c)
    ensures k < |s| ==> Resolve(Split(s), names, abs) == Resolve(Split(s[k + 1..]), names + [c], abs)
    ensures k == |s| ==> Resolve(Split(s), names, abs) == Path(names + [c], true)
  {
    SlashEnds(s);
    FirstComponent(s, k);
    if k < |s| {
      assert Split(s)[1..] == Split(s[k + 1..]);
    }
  }

  // ---------- the whole ----------

  /** The names so far stand at the front of the buffer, and the rest of the string has not
      been touched. */
  ghost predicate Layout(b: seq<char>, s: string, to: nat, fr: nat, names: seq<string>) {
    && to <= fr <= |s| && |s| + 1 < |b| && b[fr..|s|] == s[fr..] && b[|s|] == NUL
    && b[..to] == Dir(Absolute(s), names) && AllPlain(names)
  }

  /** The rest of the string, behind these names, says what the whole says. */
  ghost predicate Meaning(s: string, fr: nat, names: seq<string>) {
    fr <= |s| && Resolve(Split(s[fr..]), names, Absolute(s)) == Canonical(s)
  }

  /** Between two components. */
  ghost predicate Between(b: seq<char>, s: string, to: nat, fr: nat, names: seq<string>) {
    Layout(b, s, to, fr, names) && Meaning(s, fr, names)
  }

  /** Behind a last component that is a name. */
  ghost predicate AtEnd(b: seq<char>, s: string, to: nat, fr: nat) {
    && fr == |s| && 0 < to <= |s| + 1 && |s| + 1 < |b| && b[fr] == NUL
    && var r := Canonical(s); r.Path? && b[..to] == Text(Absolute(s), r.names, r.bare) + [NUL]
  }

  lemma {:induction false} BetweenAt(b: seq<char>, s: string, to: nat, fr: nat, names: seq<string>, i: nat)
    requires Layout(b, s, to, fr, names) && fr <= i < |s|
    ensures b[i] == s[i] == s[fr..][i - fr]
  {
    assert b[i] == b[fr..|s|][i - fr];
  }

  /** Moving on over d letters that leave the names as they are. */
  lemma {:induction false} BetweenSkip(b: seq<char>, s: string, to: nat, fr: nat, names: seq<string>, d: nat)
    requires Between(b, s, to, fr, names) && fr + d <= |s|
    requires Resolve(Split(s[fr..]), names, Absolute(s)) == Resolve(Split(s[fr..][d..]), names, Absolute(s))
    ensures Between(b, s, to, fr + d, names)
  {
    assert s[fr..][d..] == s[fr + d..];
    assert b[fr + d..|s|] == b[fr..|s|][d..];
  }

  /** Moving on over a reference to the parent. */
  lemma {:induction false} BetweenParent(
      b: seq<char>, s: string, to: nat, fr: nat, names: seq<string>, to': nat, names': seq<string>)
    requires Between(b, s, to, fr, names) && DotDotComponent(s[fr..]) && (names != [] || Absolute(s))
    requires names' == (if names == [] then [] else names[..|names| - 1])
    requires to' <= to && b[..to'] == Dir(Absolute(s), names')
    ensures Between(b, s, to', fr + 2, names')
  {
    SkipDotDot(s[fr..], names, Absolute(s));
    assert s[fr..][2..] == s[fr + 2..];
    assert b[fr + 2..|s|] == b[fr..|s|][2..];
  }

  /** Which branch the letters at `fr` take. */
  lemma {:induction false} Branch(b: seq<char>, s: string, to: nat, fr: nat, names: seq<string>)
    requires Layout(b, s, to, fr, names) && NoNul(s)
    ensures fr < |s| <==> b[fr] != NUL
    ensures b[fr] == '/' <==> fr < |s| && s[fr..][0] == '/'
    ensures b[fr] == '.' && (b[fr + 1] == '/' || b[fr + 1] == NUL) <==> DotComponent(s[fr..])
    ensures b[fr] == '.' && b[fr + 1] == '.' && (b[fr + 2] == '/' || b[fr + 2] == NUL) <==> DotDotComponent(s[fr..])
  {
    if fr < |s| { BetweenAt(b, s, to, fr, names, fr); }
    if fr + 1 < |s| { BetweenAt(b, s, to, fr, names, fr + 1); }
    if fr + 2 < |s| { BetweenAt(b, s, to, fr, names, fr + 2); }
  }

  ghost predicate Going(b: seq<char>, s: string, to: nat, fr: nat) {
    exists names :: Between(b, s, to, fr, names)
  }

  predicate NoNul(s: string) {
    forall i :: 0 <= i < |s| ==> s[i] != NUL
  }

  /** At the start of a component, or behind the last. */
  ghost predicate State(b: seq<char>, s: string, to: nat, fr: nat) {
    NoNul(s) && (Going(b, s, to, fr) || AtEnd(b, s, to, fr))
  }

  lemma {:induction false} StateBounds(b: seq<char>, s: string, to: nat, fr: nat)
    requires State(b, s, to, fr)
    ensures fr <= |s| && to <= |s| + 1 < |b| && b[|s|] == NUL && (AtEnd(b, s, to, fr) ==> b[fr] == NUL)
  {
  }

  predicate NameAt(s: string, fr: nat) {
    fr < |s| && StartsWithName(s[fr..])
  }

  datatype Found = Name | Again | Fail

  predicate DotAt(b: seq<char>, fr: nat)
    requires fr + 1 < |b|
  {
    b[fr] == '.' && (b[fr + 1] == '/' || b[fr + 1] == NUL)
  }

  predicate DotDotAt(b: seq<char>, fr: nat)
    requires fr + 1 < |b|
  {
    b[fr] == '.' && b[fr + 1] == '.' && fr + 2 < |b| && (b[fr + 2] == '/' || b[fr + 2] == NUL)
  }

  lemma {:induction false} OverSelf(b: seq<char>, s: string, to: nat, fr: nat)
    requires State(b, s, to, fr) && fr + 1 < |b| && (b[fr] == '/' || DotAt(b, fr))
    ensures fr < |s| && State(b, s, to, fr + 1)
  {
    hide Resolve, Slash;
    StateBounds(b, s, to, fr);
    var names :| Between(b, s, to, fr, names);
    Branch(b, s, to, fr, names);
    if b[fr] == '/' {
      SkipSlash(s[fr..], names, Absolute(s));
    } else {
      SkipDot(s[fr..], names, Absolute(s));
    }
    BetweenSkip(b, s, to, fr, names, 1);
  }

  ghost predicate AtParent(b: seq<char>, s: string, to: nat, fr: nat) {
    exists names :: Between(b, s, to, fr, names) && DotDotComponent(s[fr..])
  }

  lemma {:induction false} OnParent(b: seq<char>, s: string, to: nat, fr: nat)
    requires State(b, s, to, fr) && fr + 1 < |b| && DotDotAt(b, fr)
    ensures AtParent(b, s, to, fr)
  {
    StateBounds(b, s, to, fr);
    var names :| Between(b, s, to, fr, names);
    Branch(b, s, to, fr, names);
  }

  lemma {:induction false} OnName(b: seq<char>, s: string, to: nat, fr: nat)
    requires State(b, s, to, fr) && fr + 1 < |b| && b[fr] != '/' && !DotAt(b, fr) && !DotDotAt(b, fr)
    ensures b[fr] == NUL <==> fr == |s|
    ensures fr < |s| ==> NameAt(s, fr)
  {
    StateBounds(b, s, to, fr);
    if Going(b, s, to, fr) {
      var names :| Between(b, s, to, fr, names);
      Branch(b, s, to, fr, names);
    }
  }

  /** One turn of the loop that skips what is not a name. */
  method SkipOne(path: array<char>, to: nat, fr: nat, ghost s: string) returns (to': nat, fr': nat, found: Found)
    requires State(path[..], s, to, fr)
    ensures !found.Fail? ==> State(path[..], s, to', fr') && fr <= fr' <= |s|
    ensures found.Again? ==> fr < fr'
    ensures found.Name? ==> (path[fr'] == NUL <==> fr' == |s|)
    ensures found.Name? && fr' < |s| ==> NameAt(s, fr')
    ensures found.Fail? ==> Canonical(s) == Climbs
  {
    ghost var b := path[..];
    StateBounds(b, s, to, fr);
    if path[fr] == '/' {
      OverSelf(b, s, to, fr);
      return to, fr + 1, Again;
    }
    if path[fr] == '.' && (path[fr + 1] == '/' || path[fr + 1] == NUL) {
      OverSelf(b, s, to, fr);
      return to, fr + 1, Again;
    }
    if path[fr] == '.' && path[fr + 1] == '.' && (path[fr + 2] == '/' || path[fr + 2] == NUL) {
      OnParent(b, s, to, fr);
      to', found := Parent(path, to, fr, s);
      return to', fr + 2, found;
    }
    OnName(b, s, to, fr);
    return to, fr, Name;
  }

  method Parent(path: array<char>, to: nat, fr: nat, ghost s: string) returns (to': nat, found: Found)
    requires AtParent(path[..], s, to, fr)
    ensures found != Name && (found.Fail? ==> Canonical(s) == Climbs)
    ensures !found.Fail? ==> Going(path[..], s, to', fr + 2) && fr + 2 <= |s|
  {
    ghost var b, abs := path[..], Absolute(s);
    ghost var names :| Between(b, s, to, fr, names) && DotDotComponent(s[fr..]);
    DirEnds(abs, names);
    assert path[..to] == b[..to];
    SkipDotDot(s[fr..], names, abs);
    if to == 1 && path[0] == '/' {
      assert names == [] && abs;
      BetweenParent(b, s, to, fr, names, to, names);
      return to, Again;
    }
    if to <= 0 {
      return to, Fail;
    }
    to' := Back(path, to, abs, names);
    assert path[..to'] == b[..to'];
    BetweenParent(b, s, to, fr, names, to', names[..|names| - 1]);
    return to', Again;
  }

  lemma {:induction false} Three(b: seq<char>, to: nat, k: nat, d: string, c: string, x: char)
    requires to + k < |b| && b[..to] == d && b[to..to + k] == c && b[to + k] == x
    ensures b[..to + k + 1] == d + c + [x]
  {
  }

  lemma {:induction false} CopiedFront(
      b: seq<char>, b': seq<char>, s: string, to: nat, fr: nat, names: seq<string>, k: nat, fr': nat)
    requires Layout(b, s, to, fr, names) && fr + k <= |s| && Copied(b, b', to, fr, k, fr')
    ensures b'[..to + k + 1] == Dir(Absolute(s), names) + s[fr..][..k] + [b[fr + k]]
  {
    assert b'[..to] == b[..to];
    var c := s[fr..][..k];
    assert b[fr..fr + k] == b[fr..|s|][..k] == c;
    assert b'[to..to + k] == b[fr..fr + k];
    Three(b', to, k, Dir(Absolute(s), names), c, b[fr + k]);
  }

  lemma {:induction false} RestKept(
      b: seq<char>, b': seq<char>, s: string, to: nat, fr: nat, names: seq<string>, k: nat, fr': nat)
    requires Layout(b, s, to, fr, names) && Copied(b, b', to, fr, k, fr') && fr <= fr' <= |s|
    ensures b'[fr'..|s|] == s[fr'..] && b'[|s|] == NUL
  {
    assert b'[fr'..|s|] == b[fr'..|s|] == b[fr..|s|][fr' - fr..];
  }

  lemma {:induction false} MeaningMore(s: string, fr: nat, names: seq<string>, k: nat)
    requires Meaning(s, fr, names) && NameAt(s, fr) && NoNul(s) && k == Slash(s[fr..]) && fr + k < |s|
    ensures Plain(s[fr..][..k]) && Meaning(s, fr + k + 1, names + [s[fr..][..k]])
  {
    var t := s[fr..];
    FirstName(t, k, t[..k]);
    PushName(t, names, Absolute(s), k, t[..k]);
    assert t[k + 1..] == s[fr + k + 1..];
  }

  lemma {:induction false} LayoutMore(
      b: seq<char>, b': seq<char>, s: string, to: nat, fr: nat, names: seq<string>, k: nat, c: string)
    requires Layout(b, s, to, fr, names) && fr + k < |s| && s[fr + k] == '/' && c == s[fr..][..k] && Plain(c)
    requires Copied(b, b', to, fr, k, fr + k + 1)
    ensures Layout(b', s, to + k + 1, fr + k + 1, names + [c])
  {
    CopiedFront(b, b', s, to, fr, names, k, fr + k + 1);
    BetweenAt(b, s, to, fr, names, fr + k);
    RestKept(b, b', s, to, fr, names, k, fr + k + 1);
    var names' := names + [c];
    assert names'[..|names|] == names && AllPlain(names');
  }

  lemma {:induction false} PushMore(
      b: seq<char>, b': seq<char>, s: string, to: nat, fr: nat, names: seq<string>, k: nat)
    requires Between(b, s, to, fr, names) && NameAt(s, fr) && NoNul(s) && k == Slash(s[fr..]) && fr + k < |s|
    requires Copied(b, b', to, fr, k, fr + k + 1)
    ensures Going(b', s, to + k + 1, fr + k + 1)
  {
    var c := s[fr..][..k];
    MeaningMore(s, fr, names, k);
    SlashEnds(s[fr..]);
    assert s[fr + k] == s[fr..][k];
    LayoutMore(b, b', s, to, fr, names, k, c);
    assert Between(b', s, to + k + 1, fr + k + 1, names + [c]);
  }

  lemma {:induction false} PushLast(
      b: seq<char>, b': seq<char>, s: string, to: nat, fr: nat, names: seq<string>, k: nat)
    requires Between(b, s, to, fr, names) && NameAt(s, fr) && NoNul(s) && k == Slash(s[fr..]) && fr + k == |s|
    requires Copied(b, b', to, fr, k, fr + k)
    ensures AtEnd(b', s, to + k + 1, fr + k)
  {
    hide Text, Resolve, Canonical;
    var c := s[fr..][..k];
    FirstName(s[fr..], k, c);
    PushName(s[fr..], names, Absolute(s), k, c);
    CopiedFront(b, b', s, to, fr, names, k, fr + k);
    BareText(Absolute(s), names, c);
  }

  lemma {:induction false} BareText(abs: bool, names: seq<string>, c: string)
    requires Plain(c)
    ensures Text(abs, names + [c], true) == Dir(abs, names) + c
  {
    assert (names + [c])[..|names|] == names;
    var d := Dir(abs, names + [c]);
    assert d == Dir(abs, names) + c + "/";
    assert d[..|d| - 1] == Dir(abs, names) + c;
  }

  /** In front of a name of k letters. */
  ghost predicate BeforeName(b: seq<char>, s: string, to: nat, fr: nat, k: nat) {
    exists names :: Between(b, s, to, fr, names) && NameAt(s, fr) && NoNul(s) && k == Slash(s[fr..])
  }

  /** What copying the name at `fr` leads to. */
  lemma {:induction false} Push(b: seq<char>, b': seq<char>, s: string, to: nat, fr: nat, k: nat, fr': nat)
    requires BeforeName(b, s, to, fr, k)
    requires fr' == (if fr + k < |s| then fr + k + 1 else fr + k) && Copied(b, b', to, fr, k, fr')
    ensures fr < fr' <= |s| && State(b', s, to + k + 1, fr')
  {
    var names :| Between(b, s, to, fr, names) && NameAt(s, fr) && NoNul(s) && k == Slash(s[fr..]);
    if fr + k < |s| {
      PushMore(b, b', s, to, fr, names, k);
    } else {
      PushLast(b, b', s, to, fr, names, k);
    }
  }

  /** The letters of the name at `fr`. */
  lemma {:induction false} NameLetters(b: seq<char>, s: string, to: nat, fr: nat) returns (k: nat)
    requires State(b, s, to, fr) && NameAt(s, fr)
    ensures BeforeName(b, s, to, fr, k) && to <= fr && fr + k <= |s| < |b|
    ensures forall i :: fr <= i < fr + k ==> b[i] != '/' && b[i] != NUL
    ensures b[fr + k] == if fr + k < |s| then '/' else NUL
  {
    var names :| Between(b, s, to, fr, names);
    k := Slash(s[fr..]);
    SlashEnds(s[fr..]);
    forall i | fr <= i < |s| ensures b[i] == s[i] == s[fr..][i - fr] {
      BetweenAt(b, s, to, fr, names, i);
    }
  }

  /** The result of a path that ends in a directory. */
  lemma {:induction false} AtDirectory(b: seq<char>, s: string, to: nat)
    requires Going(b, s, to, |s|)
    ensures var r := Canonical(s);
      && r.Path? && !r.bare && b[..to] == Dir(Absolute(s), r.names)
      && Text(Absolute(s), r.names, r.bare) == if to == 0 then "." else b[..to]
  {
    var names :| Between(b, s, to, |s|, names);
    assert s[|s|..] == "";
    FirstComponent("", 0);
  }

  /** The loop that skips what is not a name. */
  method SkipToName(path: array<char>, to0: nat, fr0: nat, ghost s: string) returns (to: nat, fr: nat, ok: bool)
    requires State(path[..], s, to0, fr0)
    ensures ok ==>
        State(path[..], s, to, fr) && fr0 <= fr <= |s| && |s| < path.Length && (path[fr] == NUL <==> fr == |s|)
    ensures ok && fr < |s| ==> NameAt(s, fr)
    ensures !ok ==> Canonical(s) == Climbs
  {
    StateBounds(path[..], s, to0, fr0);
    to, fr := to0, fr0;
    var found := Again;
    while found == Again
      invariant found != Fail && fr0 <= fr <= |s| && State(path[..], s, to, fr)
      invariant found == Name && fr < |s| ==> NameAt(s, fr)
      invariant found == Name ==> (path[fr] == NUL <==> fr == |s|)
      decreases |s| - fr, found == Again
    {
      to, fr, found := SkipOne(path, to, fr, s);
      if found == Fail {
        return to, fr, false;
      }
    }
    return to, fr, true;
  }

  method TakeName(path: array<char>, to: nat, fr: nat, ghost s: string) returns (to': nat, fr': nat)
    requires State(path[..], s, to, fr) && NameAt(s, fr)
    modifies path
    ensures fr < fr' <= |s| && State(path[..], s, to', fr')
  {
    hide State, NameAt, Copied, Between, Meaning;
    ghost var b := path[..];
    ghost var k := NameLetters(b, s, to, fr);
    to', fr' := CopyName(path, to, fr, k);
    Push(b, path[..], s, to, fr, k, fr');
  }

  lemma {:induction false} SplitClean(s: string)
    requires NoNul(s)
    ensures forall i :: 0 <= i < |Split(s)| ==> Clean(Split(s)[i])
    decreases |s|
  {
    var k := Slash(s);
    SlashEnds(s);
    if k < |s| { SplitClean(s[k + 1..]); }
  }

  predicate Clean(c: string) {
    forall i :: 0 <= i < |c| ==> c[i] != '/' && c[i] != NUL
  }

  lemma {:induction false} EnterPlain(names: seq<string>, c: string)
    requires AllPlain(names) && Clean(c)
    ensures AllPlain(Enter(names, c))
  {
    assert (names + [c])[..|names|] == names;
  }

  lemma {:induction false} ResolvePlain(comps: seq<string>, names: seq<string>, abs: bool)
    requires |comps| > 0 && AllPlain(names) && forall i :: 0 <= i < |comps| ==> Clean(comps[i])
    ensures var r := Resolve(comps, names, abs); r.Path? ==> AllPlain(r.names)
  {
    if |comps| > 1 && !(IsParent(comps[0]) && names == [] && !abs) {
      EnterPlain(names, comps[0]);
      ResolvePlain(comps[1..], Enter(names, comps[0]), abs);
    } else {
      EnterPlain(names, comps[0]);
    }
  }

  /** The result has names only: nothing empty, no `.` and no `..`. */
  lemma {:induction false} CanonicalPlain(s: string)
    requires NoNul(s)
    ensures Canonical(s).Path? ==> AllPlain(Canonical(s).names)
  {
    SplitClean(s);
    ResolvePlain(Split(s), [], Absolute(s));
  }

  lemma {:induction false} DirNoNul(abs: bool, names: seq<string>)
    requires AllPlain(names)
    ensures NoNul(Dir(abs, names))
  {
    if names != [] {
      DirNoNul(abs, names[..|names| - 1]);
      assert Plain(names[|names| - 1]);
    }
  }

  /** What stands in front of `to` at the end. */
  lemma {:induction false} Result(b: seq<char>, s: string, to: nat) returns (r: Resolved, text: string)
    requires State(b, s, to, |s|)
    ensures r == Canonical(s) && r.Path? && text == Text(Absolute(s), r.names, r.bare) && NoNul(text) && to <= |b|
    ensures if to == 0 then text == "." else b[..to] == text || b[..to] == text + [NUL]
  {
    r := Canonical(s);
    CanonicalPlain(s);
    if Going(b, s, to, |s|) { AtDirectory(b, s, to); }
    text := Text(Absolute(s), r.names, r.bare);
    DirNoNul(Absolute(s), r.names);
  }

  /** The end: a path with nothing left of it is `.`. */
  method Terminate(path: array<char>, to: nat, ghost s: string)
    requires State(path[..], s, to, |s|)
    modifies path
    ensures Canonical(s).Path? && Holds(path[..], CanonicalText(s))
  {
    hide State, Resolve, Text;
    ghost var b := path[..];
    StateBounds(b, s, to, |s|);
    ghost var r, text := Result(b, s, to);
    var end := to;
    if end == 0 {
      path[end] := '.';
      end := end + 1;
    }
    path[end] := NUL;
    assert path[..|text|] == text;
  }

  /** `canPath`, on a buffer with one byte to spare behind the end of the string. */
  method CanPath(path: array<char>, ghost s: string) returns (ok: bool)
    requires Holds(path[..], s) && |s| + 1 < path.Length
    modifies path
    ensures ok <==> Canonical(s).Path?
    ensures ok ==> Holds(path[..], CanonicalText(s))
  {
    var to, fr := 0, 0;
    StartState(path[..], s);
    if path[0] == '/' {
      to, fr := 1, 1;
    }
    while true
      invariant fr <= |s| && State(path[..], s, to, fr)
      decreases |s| - fr
    {
      to, fr, ok := SkipToName(path, to, fr, s);
      if !ok {
        return;
      }
      if path[fr] == NUL {
        break;
      }
      to, fr := TakeName(path, to, fr, s);
    }
    Terminate(path, to, s);
    ok := true;
  }

  lemma {:induction false} StartState(b: seq<char>, s: string)
    requires Holds(b, s) && |s| + 1 < |b|
    ensures b[0] == '/' <==> Absolute(s)
    ensures if Absolute(s) then 1 <= |s| && State(b, s, 1, 1) else State(b, s, 0, 0)
  {
    assert |s| == 0 || b[0] == b[..|s|][0];
    assert s[0..] == s && b[0..|s|] == b[..|s|];
    if Absolute(s) {
      SkipSlash(s, [], true);
      assert b[1..|s|] == b[..|s|][1..];
      assert b[..1] == "/";
      assert Between(b, s, 1, 1, []);
    } else {
      assert Between(b, s, 0, 0, []);
    }
  }

  // ---------- what canonical paths are ----------

  lemma {:induction false} ResolveDir(abs: bool, names: seq<string>, rest: string)
    requires AllPlain(names)
    ensures Resolve(Split(Dir(abs, names) + rest), [], abs) == Resolve(Split(rest), names, abs)
  {
    if names == [] {
      assert "" + rest == rest && ("/" + rest)[1..] == rest;
      if abs { SkipSlash("/" + rest, [], abs); }
    } else {
      var front, c := names[..|names| - 1], names[|names| - 1];
      var t := c + "/" + rest;
      assert Dir(abs, names) + rest == Dir(abs, front) + t;
      ResolveDir(abs, front, t);
      assert Plain(c) && t[..|c|] == c && t[|c| + 1..] == rest;
      FirstComponent(t, |c|);
      PushName(t, front, abs, |c|, c);
      assert front + [c] == names;
    }
  }

  lemma {:induction false} DirStart(abs: bool, names: seq<string>, rest: string)
    requires AllPlain(names) && (rest == "" || rest[0] != '/')
    ensures Absolute(Dir(abs, names) + rest) <==> abs
  {
    if names != [] {
      var front, c := names[..|names| - 1], names[|names| - 1];
      var t := c + "/" + rest;
      assert Dir(abs, names) + rest == Dir(abs, front) + t;
      assert Plain(c) && t[0] == c[0];
      DirStart(abs, front, t);
    }
  }

  lemma {:induction false} ResolveText(abs: bool, names: seq<string>, bare: bool)
    requires AllPlain(names) && (bare ==> names != [])
    ensures var t := Text(abs, names, bare); (Absolute(t) <==> abs) && Resolve(Split(t), [], abs) == Path(names, bare)
  {
    var t := Text(abs, names, bare);
    DirEnds(abs, names);
    if Dir(abs, names) == "" {
      SkipDot(t, [], abs);
      FirstComponent(t[1..], 0);
    } else if !bare {
      assert t == Dir(abs, names) + "";
      DirStart(abs, names, "");
      ResolveDir(abs, names, "");
      FirstComponent("", 0);
    } else {
      var front, c := names[..|names| - 1], names[|names| - 1];
      assert t == Dir(abs, front) + c && Plain(c);
      DirStart(abs, front, c);
      ResolveDir(abs, front, c);
      FirstComponent(c, |c|);
      PushName(c, front, abs, |c|, c[..|c|]);
      assert c[..|c|] == c && front + [c] == names;
    }
  }

  function CanonicalText(s: string): string
    requires Canonical(s).Path?
  {
    Text(Absolute(s), Canonical(s).names, Canonical(s).bare)
  }

  /** A second application changes nothing. */
  lemma {:induction false} Idempotent(s: string)
    requires NoNul(s) && Canonical(s).Path?
    ensures Canonical(CanonicalText(s)) == Canonical(s) && CanonicalText(CanonicalText(s)) == CanonicalText(s)
  {
    CanonicalPlain(s);
    ResolveText(Absolute(s), Canonical(s).names, Canonical(s).bare);
  }

  // How the result is written.

  /** The names with slashes between them. */
  function Joined(names: seq<string>): string {
    if names == [] then "" else if |names| == 1 then names[0] else names[0] + "/" + Joined(names[1..])
  }

  lemma {:induction false} JoinedNext(names: seq<string>, c: string)
    requires names != []
    ensures Joined(names + [c]) == Joined(names) + "/" + c
  {
    assert (names + [c])[1..] == names[1..] + [c];
    if |names| > 1 { JoinedNext(names[1..], c); }
  }

  lemma {:induction false} DirJoined(abs: bool, names: seq<string>)
    requires names != []
    ensures Dir(abs, names) == (if abs then "/" else "") + Joined(names) + "/"
  {
    var front, c := names[..|names| - 1], names[|names| - 1];
    assert names == front + [c];
    if front != [] {
      DirJoined(abs, front);
      JoinedNext(front, c);
    }
  }

  lemma {:induction false} ResolveBare(comps: seq<string>, names: seq<string>, abs: bool)
    requires |comps| > 0
    ensures var r := Resolve(comps, names, abs); r.Path? ==> (r.bare <==> IsName(comps[|comps| - 1]))
  {
    if |comps| > 1 && !(IsParent(comps[0]) && names == [] && !abs) {
      ResolveBare(comps[1..], Enter(names, comps[0]), abs);
    }
  }

  /** The result is the names with one slash between them, in front of them if the path is absolute,
      and behind them if the path does not end in a name; without names it is the root or `.`. */
  lemma {:induction false} CanonicalForm(s: string)
    requires Canonical(s).Path?
    ensures var names, last := Canonical(s).names, Split(s)[|Split(s)| - 1];
      CanonicalText(s) ==
        if names == [] then (if Absolute(s) then "/" else ".")
        else (if Absolute(s) then "/" else "") + Joined(names) + (if IsName(last) then "" else "/")
  {
    ResolveBare(Split(s), [], Absolute(s));
    var names := Canonical(s).names;
    if names != [] {
      DirJoined(Absolute(s), names);
      var d := (if Absolute(s) then "/" else "") + Joined(names);
      assert (d + "/")[..|d|] == d && d + "" == d;
    }
  }

  /** Where a path leads from a directory; the root is its own parent. */
  function Walk(comps: seq<string>, dir: seq<string>): seq<string> {
    if comps == [] then dir else Walk(comps[1..], Enter(dir, comps[0]))
  }

  lemma {:induction false} ResolveWalks(comps: seq<string>, base: seq<string>, names: seq<string>, abs: bool)
    requires |comps| > 0 && (abs ==> base == [])
    ensures var r := Resolve(comps, names, abs); r.Path? ==> Walk(comps, base + names) == base + r.names
  {
    var r := Resolve(comps, names, abs);
    if r.Path? {
      var next := Enter(names, comps[0]);
      assert Enter(base + names, comps[0]) == base + next;
      if |comps| > 1 {
        ResolveWalks(comps[1..], base, next, abs);
      } else {
        assert comps[1..] == [];
      }
    }
  }

  /** From every directory the canonical path leads where the path leads. */
  lemma {:induction false} SamePlace(s: string, cwd: seq<string>)
    requires NoNul(s) && Canonical(s).Path?
    ensures var start := if Absolute(s) then [] else cwd;
      Walk(Split(CanonicalText(s)), start) == Walk(Split(s), start) == start + Canonical(s).names
  {
    var start := if Absolute(s) then [] else cwd;
    ResolveWalks(Split(s), start, [], Absolute(s));
    Idempotent(s);
    CanonicalPlain(s);
    ResolveText(Absolute(s), Canonical(s).names, Canonical(s).bare);
    ResolveWalks(Split(CanonicalText(s)), start, [], Absolute(s));
    assert start + [] == start;
  }

  /** How far below its start a path leads, counting only names and parents. */
  function Depth(comps: seq<string>): int {
    if comps == [] then 0
    else (if IsParent(comps[0]) then -1 else if IsName(comps[0]) then 1 else 0) + Depth(comps[1..])
  }

  ghost predicate ClimbsAbove(comps: seq<string>, level: nat) {
    exists k :: 0 <= k <= |comps| && level + Depth(comps[..k]) < 0
  }

  lemma {:induction false} ResolveClimbs(comps: seq<string>, names: seq<string>)
    requires |comps| > 0
    ensures Resolve(comps, names, false).Climbs? <==> ClimbsAbove(comps, |names|)
  {
    var next := Enter(names, comps[0]);
    if IsParent(comps[0]) && names == [] {
      assert comps[..1][1..] == [];
      assert Depth(comps[..1]) == -1;
    } else {
      forall k | 1 <= k <= |comps| ensures |names| + Depth(comps[..k]) == |next| + Depth(comps[1..][..k - 1]) {
        assert comps[..k][1..] == comps[1..][..k - 1];
      }
      if |comps| > 1 {
        ResolveClimbs(comps[1..], next);
        if ClimbsAbove(comps[1..], |next|) {
          var k :| 0 <= k <= |comps[1..]| && |next| + Depth(comps[1..][..k]) < 0;
          assert |names| + Depth(comps[..k + 1]) < 0;
        }
      } else {
        assert comps[1..][..0] == [];
      }
    }
  }

  /** FAIL is returned exactly for a relative path that climbs above its start on the way. */
  lemma {:induction false} FailsExactly(s: string)
    ensures Canonical(s) == Climbs <==> !Absolute(s) && ClimbsAbove(Split(s), 0)
  {
    if Absolute(s) {
      NeverClimbs(Split(s), []);
    } else {
      ResolveClimbs(Split(s), []);
    }
  }

  lemma {:induction false} NeverClimbs(comps: seq<string>, names: seq<string>)
    requires |comps| > 0
    ensures Resolve(comps, names, true).Path?
  {
    if |comps| > 1 { NeverClimbs(comps[1..], Enter(names, comps[0])); }
  }
}
