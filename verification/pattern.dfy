/**
 The first regular expression `scrape_scene_by_fragment` tries on a file name,
 `^(.+?)\s*-\s*(.+?)\s+(.+?)$` ("Studio - Scene Performers"), applied with
 `re.match`.

 The regular expression is modelled as the backtracking search Python's engine
 performs, one function per element: lazy groups try the shortest text first,
 greedy `\s*` / `\s+` runs try the longest run first and give back one character
 at a time. `.` is any character but a newline, and `$` matches at the end or
 just before a final newline.
 */
module Pattern {
  import opened Options
  import opened Strings

  predicate Dot(c: char) {
    c != '\n'
  }

  /** `s[i..j]` could be matched by `.*`. */
  predicate Dots(s: string, i: int, j: int) {
    0 <= i <= j <= |s| && forall k :: i <= k < j ==> Dot(s[k])
  }

  /** `s[i..j]` could be matched by `\s*`. */
  predicate Spaces(s: string, i: int, j: int) {
    0 <= i <= j <= |s| && forall k :: i <= k < j ==> IsSpace(s[k])
  }

  /** Where `$` matches: the end, or before a final newline. */
  function EndOf(s: string): nat {
    if |s| > 0 && s[|s| - 1] == '\n' then |s| - 1 else |s|
  }

  /** `(.+?)$` matches from `r` (and then, necessarily, up to `EndOf(s)`). */
  predicate RestOk(s: string, r: int) {
    0 <= r < EndOf(s) && Dots(s, r, EndOf(s))
  }

  /** `\s+(.+?)$` matches from `e`, the rest group starting at `r`. */
  predicate SplitOk(s: string, e: int, r: int) {
    e < r && Spaces(s, e, r) && RestOk(s, r)
  }

  /** `(.+?)\s+(.+?)$` matches from `b`, the scene group being `s[b..e]`. */
  predicate SceneOk(s: string, b: int, e: int, r: int) {
    b < e && Dots(s, b, e) && SplitOk(s, e, r)
  }

  /** `\s*(.+?)\s+(.+?)$` matches right after the hyphen at `d`. */
  predicate AfterDashOk(s: string, d: int, b: int, e: int, r: int) {
    0 <= d < b && Spaces(s, d + 1, b) && SceneOk(s, b, e, r)
  }

  /** `\s*-\s*(.+?)\s+(.+?)$` matches from `a`, the hyphen at `d`. */
  predicate DashOk(s: string, a: int, d: int, b: int, e: int, r: int) {
    Spaces(s, a, d) && d < |s| && s[d] == '-' && AfterDashOk(s, d, b, e, r)
  }

  /** The whole pattern matches with studio `s[..a]`, scene `s[b..e]`, performers `s[r..EndOf(s)]`. */
  predicate Match1(s: string, a: int, d: int, b: int, e: int, r: int) {
    0 < a && Dots(s, 0, a) && DashOk(s, a, d, b, e, r)
  }

  /** The group boundaries of a match. */
  datatype Spans = Spans(studioEnd: nat, dash: nat, sceneStart: nat, sceneEnd: nat, restStart: nat)

  predicate IsMatch(s: string, m: Spans) {
    Match1(s, m.studioEnd, m.dash, m.sceneStart, m.sceneEnd, m.restStart)
  }

  /**
   The engine's preference between two matches: shorter studio first, then the
   longer whitespace run after the hyphen (later scene start), then the shorter
   scene, then the longer whitespace run before the performers.
   */
  predicate Prefers(m: Spans, a: int, b: int, e: int, r: int) {
    m.studioEnd < a
    || (m.studioEnd == a && (m.sceneStart > b
        || (m.sceneStart == b && (m.sceneEnd < e
            || (m.sceneEnd == e && m.restStart >= r)))))
  }

  /** The end of the whitespace run starting at `i`. */
  function RunEnd(s: string, i: nat): (j: nat)
    requires i <= |s|
    ensures i <= j <= |s| && Spaces(s, i, j) && (j == |s| || !IsSpace(s[j]))
    ensures forall k :: Spaces(s, i, k) ==> k <= j
    decreases |s| - i
  {
    if i < |s| && IsSpace(s[i]) then RunEnd(s, i + 1) else i
  }

  /** `\s+` giving back: try the rest group from `r`, `r - 1`, ... down to `e + 1`. */
  function BackOffRest(s: string, e: nat, r: nat): (o: Option<nat>)
    requires e < r <= |s|
    ensures o.Some? ==> e < o.value <= r && RestOk(s, o.value)
    ensures o.Some? ==> forall y :: o.value < y <= r ==> !RestOk(s, y)
    ensures o.None? ==> forall y :: e < y <= r ==> !RestOk(s, y)
    decreases r
  {
    if RestOk(s, r) then Some(r)
    else if r - 1 > e then BackOffRest(s, e, r - 1)
    else None
  }

  /** `\s+(.+?)$` from `e`: the rest start the engine settles on. */
  function RestAfter(s: string, e: nat): (o: Option<nat>)
    requires e <= |s|
    ensures o.Some? ==> SplitOk(s, e, o.value)
    ensures o.Some? ==> forall y :: SplitOk(s, e, y) ==> y <= o.value
    ensures o.None? ==> forall y :: !SplitOk(s, e, y)
  {
    var m := RunEnd(s, e);
    if m > e then BackOffRest(s, e, m) else None
  }

  /** The lazy scene group starting at `b`: try ending it at `e`, `e + 1`, ... */
  function SceneFrom(s: string, b: nat, e: nat): (o: Option<(nat, nat)>)
    requires b < e <= |s| && Dots(s, b, e)
    ensures o.Some? ==> e <= o.value.0 && SceneOk(s, b, o.value.0, o.value.1)
    ensures o.Some? ==> forall e', r' :: e <= e' && SceneOk(s, b, e', r') ==>
                          o.value.0 < e' || (o.value.0 == e' && r' <= o.value.1)
    ensures o.None? ==> forall e', r' :: e <= e' ==> !SceneOk(s, b, e', r')
    decreases |s| - e
  {
    match RestAfter(s, e)
    case Some(r) => Some((e, r))
    case None =>
      if e < |s| && Dot(s[e]) then SceneFrom(s, b, e + 1) else None
  }

  /** `\s*` after the hyphen giving back: try the scene group from `b`, `b - 1`, ... down to `d + 1`. */
  function SceneStart(s: string, d: nat, b: nat): (o: Option<(nat, nat, nat)>)
    requires d < b <= |s| && Spaces(s, d + 1, b)
    ensures o.Some? ==> o.value.0 <= b && AfterDashOk(s, d, o.value.0, o.value.1, o.value.2)
    ensures o.Some? ==> forall b', e', r' :: b' <= b && AfterDashOk(s, d, b', e', r') ==>
                          Prefers(Spans(0, d, o.value.0, o.value.1, o.value.2), 0, b', e', r')
    ensures o.None? ==> forall b', e', r' :: b' <= b ==> !AfterDashOk(s, d, b', e', r')
    decreases b
  {
    var here := if b < |s| && Dot(s[b]) then SceneFrom(s, b, b + 1) else None;
    if here.Some? then Some((b, here.value.0, here.value.1))
    else if b > d + 1 then SceneStart(s, d, b - 1)
    else None
  }

  /** `\s*-\s*(.+?)\s+(.+?)$` from `a`: the greedy `\s*` can only stop at a hyphen after the whole run. */
  function DashAfter(s: string, a: nat): (o: Option<(nat, nat, nat, nat)>)
    requires a <= |s|
    ensures o.Some? ==> DashOk(s, a, o.value.0, o.value.1, o.value.2, o.value.3)
    ensures o.Some? ==> forall d', b', e', r' :: DashOk(s, a, d', b', e', r') ==>
                          d' == o.value.0 && Prefers(Spans(0, d', o.value.1, o.value.2, o.value.3), 0, b', e', r')
    ensures o.None? ==> forall d', b', e', r' :: !DashOk(s, a, d', b', e', r')
  {
    var d := RunEnd(s, a);
    if d < |s| && s[d] == '-' then
      match SceneStart(s, d, RunEnd(s, d + 1))
      case Some(x) => Some((d, x.0, x.1, x.2))
      case None => None
    else None
  }

  /** The lazy studio group: try ending it at `a`, `a + 1`, ... */
  function StudioFrom(s: string, a: nat): (o: Option<Spans>)
    requires 0 < a <= |s| && Dots(s, 0, a)
    ensures o.Some? ==> a <= o.value.studioEnd && IsMatch(s, o.value)
    ensures o.Some? ==> forall a', d', b', e', r' :: a <= a' && Match1(s, a', d', b', e', r') ==>
                          Prefers(o.value, a', b', e', r')
    ensures o.None? ==> forall a', d', b', e', r' :: a <= a' ==> !Match1(s, a', d', b', e', r')
    decreases |s| - a
  {
    match DashAfter(s, a)
    case Some(x) => Some(Spans(a, x.0, x.1, x.2, x.3))
    case None =>
      if a < |s| && Dot(s[a]) then StudioFrom(s, a + 1) else None
  }

  /**
   `re.match(r'^(.+?)\s*-\s*(.+?)\s+(.+?)$', s)`: the match the engine returns,
   which is the one it prefers over every other, or `None` when there is none.
   */
  function Pattern1(s: string): (o: Option<Spans>)
    ensures o.Some? ==> IsMatch(s, o.value)
    ensures o.Some? ==> forall a, d, b, e, r :: Match1(s, a, d, b, e, r) ==> Prefers(o.value, a, b, e, r)
    ensures o.None? ==> forall a, d, b, e, r :: !Match1(s, a, d, b, e, r)
  {
    if |s| > 0 && Dot(s[0]) then StudioFrom(s, 1) else None
  }

  /** The positions of a text of the form `studio sp1 "-" sp2 scene " " rest`. */
  predicate Layout(s: string, studio: string, sp1: string, sp2: string, scene: string, rest: string) {
    s == studio + sp1 + "-" + sp2 + scene + " " + rest
  }

  function LayoutSpans(studio: string, sp1: string, sp2: string, scene: string): Spans {
    var a := |studio|;
    var d := a + |sp1|;
    var b := d + 1 + |sp2|;
    var e := b + |scene|;
    Spans(a, d, b, e, e + 1)
  }

  /** What each position of such a text holds. */
  lemma {:induction false} LayoutChars(s: string, studio: string, sp1: string, sp2: string, scene: string, rest: string)
    requires Layout(s, studio, sp1, sp2, scene, rest)
    ensures var m := LayoutSpans(studio, sp1, sp2, scene);
            && |s| == m.restStart + |rest|
            && (forall k :: 0 <= k < m.studioEnd ==> s[k] == studio[k])
            && (forall k :: m.studioEnd <= k < m.dash ==> s[k] == sp1[k - m.studioEnd])
            && s[m.dash] == '-'
            && (forall k :: m.dash + 1 <= k < m.sceneStart ==> s[k] == sp2[k - m.dash - 1])
            && (forall k :: m.sceneStart <= k < m.sceneEnd ==> s[k] == scene[k - m.sceneStart])
            && s[m.sceneEnd] == ' '
            && (forall k :: m.restStart <= k < |s| ==> s[k] == rest[k - m.restStart])
  {
  }

  /** Conditions under which the layout above is a match of the pattern. */
  predicate PlainLayout(studio: string, sp1: string, sp2: string, scene: string, rest: string) {
    && studio != [] && '-' !in studio && '\n' !in studio && !IsSpace(studio[|studio| - 1])
    && AllSpace(sp1) && AllSpace(sp2)
    && scene != [] && NoSpace(scene)
    && rest != [] && !IsSpace(rest[0]) && '\n' !in rest
  }

  lemma {:induction false} LayoutMatches(s: string, studio: string, sp1: string, sp2: string, scene: string, rest: string)
    requires Layout(s, studio, sp1, sp2, scene, rest) && PlainLayout(studio, sp1, sp2, scene, rest)
    ensures IsMatch(s, LayoutSpans(studio, sp1, sp2, scene))
  {
    var m := LayoutSpans(studio, sp1, sp2, scene);
    LayoutChars(s, studio, sp1, sp2, scene, rest);
    assert s[|s| - 1] == rest[|rest| - 1];
    assert EndOf(s) == |s|;
    assert Dots(s, 0, m.studioEnd) by {
      forall k | 0 <= k < m.studioEnd ensures Dot(s[k]) {
        assert studio[k] in studio;
      }
    }
    assert Dots(s, m.sceneStart, m.sceneEnd);
    assert Dots(s, m.restStart, |s|) by {
      forall k | m.restStart <= k < |s| ensures Dot(s[k]) {
        assert rest[k - m.restStart] in rest;
      }
    }
    assert SplitOk(s, m.sceneEnd, m.restStart);
  }

  /**
   On a text `studio sp1 "-" sp2 scene " " rest` the engine's match is the obvious
   one: the studio up to the hyphen, the scene group up to the first whitespace
   after it, the performers group everything after that.
   */
  lemma {:induction false} Pattern1Layout(s: string, studio: string, sp1: string, sp2: string, scene: string, rest: string)
    requires Layout(s, studio, sp1, sp2, scene, rest) && PlainLayout(studio, sp1, sp2, scene, rest)
    ensures Pattern1(s) == Some(LayoutSpans(studio, sp1, sp2, scene))
  {
    var x := LayoutSpans(studio, sp1, sp2, scene);
    LayoutMatches(s, studio, sp1, sp2, scene, rest);
    LayoutChars(s, studio, sp1, sp2, scene, rest);
    var m := Pattern1(s).value;
    assert Prefers(m, x.studioEnd, x.sceneStart, x.sceneEnd, x.restStart);
    // The studio cannot end earlier: the hyphen would then follow a non-space character of the studio.
    assert m.studioEnd == x.studioEnd;
    // The hyphen is the one after `sp1`.
    assert m.dash == x.dash;
    // The whitespace after the hyphen cannot reach into the scene, and the scene
    // group ends at the first whitespace.
    assert forall k :: x.sceneStart <= k < x.sceneEnd ==> !IsSpace(s[k]);
    assert !IsSpace(s[x.sceneStart]);
    assert IsSpace(s[m.sceneEnd]);
    assert m.sceneStart == x.sceneStart;
    assert m.sceneEnd == x.sceneEnd;
    assert !IsSpace(s[x.restStart]);
  }

  /** Whitespace at least two characters after a hyphen: what every match needs. */
  predicate LateSpace(s: string) {
    exists d, k :: 0 <= d && d + 2 <= k < |s| && s[d] == '-' && IsSpace(s[k])
  }

  /**
   The scene group is non-empty and must be followed by whitespace, so a text
   without whitespace two or more characters past some hyphen never matches.
   */
  lemma {:induction false} MatchNeedsLateSpace(s: string)
    ensures Pattern1(s).Some? ==> LateSpace(s)
  {
    if Pattern1(s).Some? {
      var m := Pattern1(s).value;
      assert s[m.dash] == '-' && IsSpace(s[m.sceneEnd]);
    }
  }

  /** Text without whitespace never matches. */
  lemma {:induction false} NoSpaceNoMatch(s: string)
    requires NoSpace(s)
    ensures Pattern1(s).None?
  {
    MatchNeedsLateSpace(s);
  }
}
