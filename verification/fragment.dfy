/**
 Python's `scrape_scene_by_fragment`: guessing studio, scene name and performers
 from a file name (the fragment's `title`; a missing title is the empty string).
 Three attempts are made in order, each only when the previous ones left the
 record empty: the regular expression of module `Pattern`, a split on `_-_`,
 and a loose fallback.
 */
module Fragment {
  import opened Options
  import opened Strings
  import opened Clean
  import opened TitleParse
  import opened Scene
  import opened Pattern

  /** `[clean_text(p) for p in ps]` */
  function CleanAll(ps: seq<string>): (r: seq<string>)
    ensures |r| == |ps|
  {
    seq(|ps|, i requires 0 <= i < |ps| => CleanText(ps[i]))
  }

  // ------------------------------------------------------------ the regular expression

  /** The performers group: split on `,` when it holds one, each piece cleaned. */
  function RestNames(rest: string): (names: seq<string>)
    ensures ',' !in rest ==> names == [CleanText(rest)]
  {
    if ',' in rest then CleanAll(Split(rest, [','])) else [CleanText(rest)]
  }

  /** The record built from a match: studio and title are always set, performers too (maybe empty). */
  function FromMatch(s: string, m: Spans): (r: SceneRecord)
    requires IsMatch(s, m)
    ensures r.studio.Some? && r.title.Some? && r.performers.Some?
    ensures forall i :: 0 <= i < |r.performers.value| ==> r.performers.value[i] != []
    ensures r.tags.None? && r.url.None?
  {
    SceneRecord(
      title := Some(CleanText(s[m.sceneStart..m.sceneEnd])),
      studio := Some(CleanText(s[..m.studioEnd])),
      performers := Some(NonEmptyNames(RestNames(s[m.restStart..EndOf(s)]))),
      tags := None,
      url := None)
  }

  // ------------------------------------------------------------ the `_-_` split

  const Underscored: string := "_-_"

  /**
   "STUDIO_-_SCENE_-_Actor1_-_Actor2": with three or more pieces, the first is the
   studio, the second the scene, the rest the performers (cleaned, blanks dropped).
   */
  function FromUnderscores(s: string): (o: Option<SceneRecord>)
    ensures o.Some? <==> |Split(s, Underscored)| >= 3
    ensures o.Some? ==> Contains(s, Underscored)
    ensures o.Some? ==> o.value.studio.Some? && o.value.title.Some? && o.value.performers.Some?
    ensures o.Some? ==> o.value.tags.None? && o.value.url.None?
    ensures !Contains(s, Underscored) ==> o.None?
  {
    SplitSingleton(s, Underscored);
    if Contains(s, Underscored) then
      var parts := Split(s, Underscored);
      if |parts| >= 3 then
        Some(SceneRecord(
          title := Some(CleanText(parts[1])),
          studio := Some(CleanText(parts[0])),
          performers := Some(NonEmptyNames(CleanAll(parts[2..]))),
          tags := None,
          url := None))
      else None
    else None
  }

  // ------------------------------------------------------------ the fallback

  /** A non-empty separator, as `str.split` demands. */
  type Delimiter = s: string | |s| > 0 witness " "

  /** The separators the fallback looks for performers on, in order. */
  const PerformerSeparators: seq<Delimiter> := [", ", " & ", "_-_"]

  /** A piece that may be a name: longer than two characters and not a number. */
  predicate Plausible(p: string) {
    |p| > 2 && !IsDigits(p)
  }

  /** `[p for p in ps if len(p) > 2 and not p.isdigit()]` */
  function PlausibleNames(ps: seq<string>): (r: seq<string>)
    ensures forall i :: 0 <= i < |r| ==> Plausible(r[i]) && r[i] in ps
    ensures forall p :: p in ps && Plausible(p) ==> p in r
  {
    if ps == [] then []
    else if Plausible(ps[0]) then [ps[0]] + PlausibleNames(ps[1..])
    else PlausibleNames(ps[1..])
  }

  /** The separator at index `i` is in `s` and splitting on it yields plausible names. */
  predicate Yields(s: string, seps: seq<Delimiter>, i: int) {
    0 <= i < |seps| && Contains(s, seps[i]) && PlausibleNames(Split(s, seps[i])) != []
  }

  /**
   The loop over the separators with its `break`: the plausible pieces for the
   first separator that yields any, and none when no separator does.
   */
  function PickNames(s: string, seps: seq<Delimiter>): (r: seq<string>)
    ensures r != [] ==> exists i :: Yields(s, seps, i) && r == PlausibleNames(Split(s, seps[i]))
                                    && forall j :: 0 <= j < i ==> !Yields(s, seps, j)
    ensures r == [] <==> forall j :: 0 <= j < |seps| ==> !Yields(s, seps, j)
  {
    if seps == [] then []
    else if Contains(s, seps[0]) && PlausibleNames(Split(s, seps[0])) != [] then
      assert Yields(s, seps, 0);
      PlausibleNames(Split(s, seps[0]))
    else
      var r := PickNames(s, seps[1..]);
      assert forall j :: 1 <= j < |seps| ==> (Yields(s, seps, j) <==> Yields(s, seps[1..], j - 1));
      r
  }

  /** The loose fallback: studio and scene from " - ", performers from the first separator that yields names. */
  function Fallback(s: string): (r: SceneRecord)
    ensures Contains(s, Dash) <==> r.studio.Some?
    ensures Contains(s, Dash) <==> r.title.Some?
    ensures PickNames(s, PerformerSeparators) != [] <==> r.performers.Some?
    ensures r.tags.None? && r.url.None?
  {
    var withDash := DashFields(s);
    var picked := PickNames(s, PerformerSeparators);
    if picked != [] then withDash.(performers := Some(NonEmptyNames(CleanAll(picked)))) else withDash
  }

  /** Studio and scene of the fallback: the cleaned first two pieces of a " - " split, when there are two. */
  function DashFields(s: string): (r: SceneRecord)
    ensures Contains(s, Dash) <==> r.studio.Some?
    ensures Contains(s, Dash) <==> r.title.Some?
    ensures r.performers.None? && r.tags.None? && r.url.None?
  {
    if Contains(s, Dash) then
      var parts := Split(s, Dash);
      SplitSingleton(s, Dash);
      if |parts| >= 2 then Empty.(studio := Some(CleanText(parts[0])), title := Some(CleanText(parts[1])))
      else Empty
    else Empty
  }

  // ------------------------------------------------------------ the scraper

  /**
   Python's `scrape_scene_by_fragment`. The result is `{}` exactly when the
   expression does not match, the `_-_` split has fewer than three pieces, there
   is no " - " and no separator yields plausible names.
   */
  function ScrapeSceneByFragment(title: string): (r: SceneRecord)
    ensures r.tags.None? && r.url.None?
    ensures Pattern1(title).Some? ==> r.studio.Some? && r.title.Some? && r.performers.Some?
    ensures r == Empty <==>
              && Pattern1(title).None?
              && FromUnderscores(title).None?
              && !Contains(title, Dash)
              && PickNames(title, PerformerSeparators) == []
  {
    match Pattern1(title)
    case Some(m) => FromMatch(title, m)
    case None =>
      match FromUnderscores(title)
      case Some(scene) => scene
      case None => Fallback(title)
  }

  // ------------------------------------------------------------ properties

  /** The three attempts, each taken only when the earlier ones failed. */
  lemma {:induction false} ByPattern(s: string, m: Spans)
    requires Pattern1(s) == Some(m)
    ensures ScrapeSceneByFragment(s) == FromMatch(s, m)
  {
  }

  lemma {:induction false} ByUnderscores(s: string)
    requires Pattern1(s).None? && FromUnderscores(s).Some?
    ensures ScrapeSceneByFragment(s) == FromUnderscores(s).value
  {
  }

  lemma {:induction false} ByFallback(s: string)
    requires Pattern1(s).None? && FromUnderscores(s).None?
    ensures ScrapeSceneByFragment(s) == Fallback(s)
  {
  }

  /** Clean pieces are their own cleaning, and none is dropped as blank. */
  lemma {:induction false} CleanAllFixed(ps: seq<string>)
    requires AllClean(ps)
    ensures NonEmptyNames(CleanAll(ps)) == ps
  {
    forall i | 0 <= i < |ps|
      ensures CleanAll(ps)[i] == ps[i] && ps[i] != []
    {
      AllCleanAt(ps, i);
      CleanTextFixed(ps[i]);
    }
    assert CleanAll(ps) == ps;
    NonEmptyNamesKeeps(ps);
  }

  /** An empty or missing file name gives `{}`. */
  lemma {:induction false} EmptyTitle()
    ensures ScrapeSceneByFragment("") == Empty
  {
    assert !Contains("", Dash);
    assert forall j :: 0 <= j < |PerformerSeparators| ==> !Contains("", PerformerSeparators[j]);
  }

  /**
   On `studio sp1 "-" sp2 scene " " rest` the expression decides everything:
   the studio is the text before the hyphen, the title the first word after it,
   the performers the remainder split on commas, each cleaned.
   */
  lemma {:induction false} FragmentLayout(s: string, studio: string, sp1: string, sp2: string, scene: string, rest: string)
    requires Layout(s, studio, sp1, sp2, scene, rest) && PlainLayout(studio, sp1, sp2, scene, rest)
    ensures ScrapeSceneByFragment(s) ==
              SceneRecord(Some(CleanText(scene)), Some(CleanText(studio)),
                          Some(NonEmptyNames(RestNames(rest))), None, None)
  {
    var m := LayoutSpans(studio, sp1, sp2, scene);
    Pattern1Layout(s, studio, sp1, sp2, scene, rest);
    ByPattern(s, m);
    FromLayout(s, studio, sp1, sp2, scene, rest);
  }

  /** The same with a clean studio and scene, which come back unchanged. */
  lemma {:induction false} CleanLayout(s: string, studio: string, sp1: string, sp2: string, scene: string, rest: string)
    requires Layout(s, studio, sp1, sp2, scene, rest) && PlainLayout(studio, sp1, sp2, scene, rest)
    requires IsClean(studio) && IsClean(scene)
    ensures ScrapeSceneByFragment(s) == SceneRecord(Some(scene), Some(studio), Some(NonEmptyNames(RestNames(rest))), None, None)
  {
    FragmentLayout(s, studio, sp1, sp2, scene, rest);
    CleanTextFixed(studio);
    CleanTextFixed(scene);
  }

  lemma {:induction false} FromLayout(s: string, studio: string, sp1: string, sp2: string, scene: string, rest: string)
    requires Layout(s, studio, sp1, sp2, scene, rest) && PlainLayout(studio, sp1, sp2, scene, rest)
    requires IsMatch(s, LayoutSpans(studio, sp1, sp2, scene))
    ensures FromMatch(s, LayoutSpans(studio, sp1, sp2, scene)) ==
              SceneRecord(Some(CleanText(scene)), Some(CleanText(studio)),
                          Some(NonEmptyNames(RestNames(rest))), None, None)
  {
    LayoutChars(s, studio, sp1, sp2, scene, rest);
    var m := LayoutSpans(studio, sp1, sp2, scene);
    assert rest[|rest| - 1] in rest;
    assert EndOf(s) == |s|;
    assert s[..m.studioEnd] == studio;
    assert s[m.sceneStart..m.sceneEnd] == scene;
    assert s[m.restStart..|s|] == rest;
  }

  /**
   Clean names without commas, written as "A, B, C", come back out of the
   performers group, and none is dropped as blank.
   */
  lemma {:induction false} RestNamesRoundTrip(names: seq<string>)
    requires |names| >= 2 && AllClean(names)
    requires forall i :: 0 <= i < |names| ==> ',' !in names[i]
    ensures RestNames(Join(names, ", ")) == names
    ensures NonEmptyNames(RestNames(Join(names, ", "))) == names
  {
    CommaSpacePieces(names);
    CharInJoin(names, ", ", 0);
    CleanPieces(names, Split(Join(names, ", "), [',']));
    NonEmptyNamesKeeps(names);
  }

  /** Cleaning the pieces of a ", " join strips the space before each later name. */
  lemma {:induction false} CleanPieces(names: seq<string>, parts: seq<string>)
    requires AllClean(names)
    requires |parts| == |names| >= 1 && parts[0] == names[0]
    requires forall i :: 1 <= i < |names| ==> parts[i] == [' '] + names[i]
    ensures CleanAll(parts) == names
    ensures forall i :: 0 <= i < |names| ==> names[i] != []
  {
    forall i | 0 <= i < |names|
      ensures CleanAll(parts)[i] == names[i] && names[i] != []
    {
      AllCleanAt(names, i);
      if i == 0 {
        CleanTextFixed(names[0]);
      } else {
        CleanLeadingSpace(names[i]);
      }
    }
  }

  /** The `,` split of names joined by ", ": the first name, then each later name after one space. */
  lemma {:induction false} CommaSpacePieces(names: seq<string>)
    requires |names| >= 1
    requires forall i :: 0 <= i < |names| ==> ',' !in names[i]
    ensures var parts := Split(Join(names, ", "), [',']);
            && |parts| == |names| && parts[0] == names[0]
            && forall i :: 1 <= i < |names| ==> parts[i] == [' '] + names[i]
    decreases |names|
  {
    if |names| == 1 {
      NotContainsByChar(names[0], [','], 0);
      SplitSingleton(names[0], [',']);
    } else {
      var tail := names[1..];
      CommaSpacePieces(tail);
      var j := Join(tail, ", ");
      JoinCommaStep(names);
      SplitPrefixChar(names[0], [','], [' '] + j, 0);
      SplitFreeHead([' '], j, [',']);
      ShiftPieces(names, Split(Join(names, ", "), [',']), Split([' '] + j, [',']), Split(j, [',']));
    }
  }

  lemma {:induction false} JoinCommaStep(names: seq<string>)
    requires |names| >= 2
    ensures Join(names, ", ") == names[0] + [','] + ([' '] + Join(names[1..], ", "))
  {
    var j := Join(names[1..], ", ");
    assert Join(names, ", ") == names[0] + ", " + j;
    assert names[0] + ", " + j == names[0] + [','] + ([' '] + j);
  }

  /** The index bookkeeping of one step of CommaSpacePieces, on plain sequences. */
  lemma {:induction false} ShiftPieces(names: seq<string>, parts: seq<string>, qs: seq<string>, rs: seq<string>)
    requires |names| >= 2
    requires parts == [names[0]] + qs
    requires |qs| == |rs| == |names| - 1 && qs[0] == [' '] + rs[0] && qs[1..] == rs[1..]
    requires rs[0] == names[1]
    requires forall i :: 1 <= i < |rs| ==> rs[i] == [' '] + names[i + 1]
    ensures |parts| == |names| && parts[0] == names[0]
    ensures forall i :: 1 <= i < |names| ==> parts[i] == [' '] + names[i]
  {
    forall i | 1 <= i < |names|
      ensures parts[i] == [' '] + names[i]
    {
      if i == 1 {
        assert parts[1] == qs[0];
      } else {
        assert parts[i] == qs[i - 1] == qs[1..][i - 2] == rs[1..][i - 2] == rs[i - 1];
      }
    }
  }

  /** The comma-separated performers group of two clean names gives both names back. */
  lemma {:induction false} RestNamesPair(a: string, b: string)
    requires a != [] && IsClean(a) && ',' !in a
    requires b != [] && IsClean(b) && ',' !in b
    ensures NonEmptyNames(RestNames(a + ", " + b)) == [a, b]
  {
    CommaPair(a, b);
    CleanPair(a, b);
    NonEmptyNamesKeeps([a, b]);
  }

  lemma {:induction false} CommaPair(a: string, b: string)
    requires ',' !in a && ',' !in b
    ensures ',' in a + ", " + b
    ensures Split(a + ", " + b, [',']) == [a, [' '] + b]
  {
    var rest := a + ", " + b;
    var tail := [' '] + b;
    assert rest[|a|] == ',';
    assert rest == a + [','] + tail;
    SplitPrefixChar(a, [','], tail, 0);
    NotContainsByChar(tail, [','], 0);
    SplitSingleton(tail, [',']);
  }

  lemma {:induction false} CleanPair(a: string, b: string)
    requires a != [] && IsClean(a)
    requires b != [] && IsClean(b)
    ensures CleanAll([a, [' '] + b]) == [a, b]
  {
    CleanAllPair(a, [' '] + b);
    CleanTextFixed(a);
    CleanLeadingSpace(b);
  }

  lemma {:induction false} CleanAllPair(x: string, y: string)
    ensures CleanAll([x, y]) == [CleanText(x), CleanText(y)]
  {
    var c := CleanAll([x, y]);
    assert c[0] == CleanText(x);
    assert c[1] == CleanText(y);
  }

  /**
   "studio - scene a, b" with a one-word scene: the title is the word after the
   hyphen and the two performers are split on the comma.
   */
  lemma {:induction false} SpacedDashPair(studio: string, scene: string, a: string, b: string)
    requires studio != [] && IsClean(studio) && '-' !in studio && '\n' !in studio
    requires scene != [] && IsClean(scene) && NoSpace(scene)
    requires a != [] && IsClean(a) && ',' !in a && '\n' !in a
    requires b != [] && IsClean(b) && ',' !in b && '\n' !in b
    ensures ScrapeSceneByFragment(studio + " - " + scene + " " + (a + ", " + b)) ==
              SceneRecord(Some(scene), Some(studio), Some([a, b]), None, None)
  {
    var rest := a + ", " + b;
    var s := studio + " - " + scene + " " + rest;
    SpacedPairLayout(studio, scene, a, b);
    CleanLayout(s, studio, " ", " ", scene, rest);
    RestNamesPair(a, b);
  }

  lemma {:induction false} SpacedPairLayout(studio: string, scene: string, a: string, b: string)
    requires studio != [] && Trimmed(studio) && '-' !in studio && '\n' !in studio
    requires scene != [] && NoSpace(scene)
    requires a != [] && Trimmed(a) && '\n' !in a && '\n' !in b
    ensures Layout(studio + " - " + scene + " " + (a + ", " + b), studio, " ", " ", scene, a + ", " + b)
    ensures PlainLayout(studio, " ", " ", scene, a + ", " + b)
  {
    var rest := a + ", " + b;
    assert rest[0] == a[0];
    assert '\n' !in rest;
  }

  /**
   "Studio - Scene Name Actor1, Actor2": the scene group stops at the first
   whitespace, so the title is "Scene" and "Name" is taken for a performer.
   */
  lemma {:induction false} SpacedDashExample()
    ensures ScrapeSceneByFragment("Studio - Scene Name Actor1, Actor2") ==
              SceneRecord(Some("Scene"), Some("Studio"), Some(["Name Actor1", "Actor2"]), None, None)
  {
    SpacedDashText();
    SpacedDashInstance();
  }

  lemma {:induction false} SpacedDashText()
    ensures "Studio - Scene Name Actor1, Actor2" == "Studio" + " - " + "Scene" + " " + ("Name Actor1" + ", " + "Actor2")
  {
  }

  lemma {:induction false} SpacedDashInstance()
    ensures ScrapeSceneByFragment("Studio" + " - " + "Scene" + " " + ("Name Actor1" + ", " + "Actor2")) ==
              SceneRecord(Some("Scene"), Some("Studio"), Some(["Name Actor1", "Actor2"]), None, None)
  {
    SpacedDashInputs();
    SpacedDashPair("Studio", "Scene", "Name Actor1", "Actor2");
  }

  lemma {:induction false} SpacedDashInputs()
    ensures IsClean("Studio") && '-' !in "Studio" && '\n' !in "Studio"
    ensures IsClean("Scene") && NoSpace("Scene")
    ensures IsClean("Name Actor1") && ',' !in "Name Actor1" && '\n' !in "Name Actor1"
    ensures IsClean("Actor2") && ',' !in "Actor2" && '\n' !in "Actor2"
  {
    StudioInput();
    SceneInput();
    NameActorInput();
    ActorInput();
  }

  lemma {:induction false} StudioInput()
    ensures IsClean("Studio") && '-' !in "Studio" && '\n' !in "Studio"
  {
  }

  lemma {:induction false} SceneInput()
    ensures IsClean("Scene") && NoSpace("Scene")
  {
  }

  lemma {:induction false} NameActorInput()
    ensures IsClean("Name Actor1") && ',' !in "Name Actor1" && '\n' !in "Name Actor1"
  {
  }

  lemma {:induction false} ActorInput()
    ensures IsClean("Actor2") && ',' !in "Actor2" && '\n' !in "Actor2"
  {
  }

  /** The hyphen needs no whitespace around it: "studio-scene name". */
  lemma {:induction false} TightDash(studio: string, scene: string, name: string)
    requires studio != [] && IsClean(studio) && '-' !in studio && '\n' !in studio
    requires scene != [] && IsClean(scene) && NoSpace(scene)
    requires name != [] && IsClean(name) && ',' !in name && '\n' !in name
    ensures ScrapeSceneByFragment(studio + "-" + scene + " " + name) ==
              SceneRecord(Some(scene), Some(studio), Some([name]), None, None)
  {
    var s := studio + "-" + scene + " " + name;
    assert Layout(s, studio, "", "", scene, name);
    assert PlainLayout(studio, "", "", scene, name);
    CleanLayout(s, studio, "", "", scene, name);
    assert NonEmptyNames(RestNames(name)) == [name] by {
      CleanTextFixed(name);
    }
  }

  lemma {:induction false} TightDashExample()
    ensures ScrapeSceneByFragment("Studio-Scene Name") ==
              SceneRecord(Some("Scene"), Some("Studio"), Some(["Name"]), None, None)
  {
    assert "Studio-Scene Name" == "Studio" + "-" + "Scene" + " " + "Name";
    TightDash("Studio", "Scene", "Name");
  }

  /**
   A name written as "Big_Studio_-_Hot_Scene_-_A_-_B" (at least three pieces,
   none with whitespace or a hyphen; underscores are fine) comes apart again on
   `_-_`: the expression cannot match for lack of whitespace.
   */
  lemma {:induction false} UnderscoreRoundTrip(parts: seq<string>)
    requires |parts| >= 3
    requires AllClean(parts)
    requires forall i :: 0 <= i < |parts| ==> NoSpace(parts[i]) && '-' !in parts[i]
    ensures ScrapeSceneByFragment(Join(parts, Underscored)) ==
              SceneRecord(Some(parts[1]), Some(parts[0]), Some(parts[2..]), None, None)
  {
    var s := Join(parts, Underscored);
    JoinNoSpace(parts, Underscored);
    NoSpaceNoMatch(s);
    UnderscoresBack(parts);
    ByUnderscores(s);
  }

  /** The `_-_` attempt on such a name. */
  lemma {:induction false} UnderscoresBack(parts: seq<string>)
    requires |parts| >= 3
    requires AllClean(parts)
    requires forall i :: 0 <= i < |parts| ==> '-' !in parts[i]
    ensures FromUnderscores(Join(parts, Underscored)) ==
              Some(SceneRecord(Some(parts[1]), Some(parts[0]), Some(parts[2..]), None, None))
  {
    var s := Join(parts, Underscored);
    assert Split(s, Underscored) == parts && Contains(s, Underscored) by {
      SplitJoinFree(parts, Underscored, 1);
      SplitSingleton(s, Underscored);
    }
    assert CleanText(parts[0]) == parts[0] by {
      AllCleanAt(parts, 0);
      CleanTextFixed(parts[0]);
    }
    assert CleanText(parts[1]) == parts[1] by {
      AllCleanAt(parts, 1);
      CleanTextFixed(parts[1]);
    }
    assert NonEmptyNames(CleanAll(parts[2..])) == parts[2..] by {
      AllCleanSuffix(parts, 2);
      CleanAllFixed(parts[2..]);
    }
  }

  lemma {:induction false} UnderscoreExample()
    ensures ScrapeSceneByFragment("STUDIO_-_SCENE_-_A_-_B_-_C") ==
              SceneRecord(Some("SCENE"), Some("STUDIO"), Some(["A", "B", "C"]), None, None)
  {
    UnderscoreText();
    UnderscoreInstance();
  }

  lemma {:induction false} UnderscoreText()
    ensures Join(["STUDIO", "SCENE", "A", "B", "C"], Underscored) == "STUDIO_-_SCENE_-_A_-_B_-_C"
  {
  }

  lemma {:induction false} UnderscoreInstance()
    ensures ScrapeSceneByFragment(Join(["STUDIO", "SCENE", "A", "B", "C"], Underscored)) ==
              SceneRecord(Some("SCENE"), Some("STUDIO"), Some(["A", "B", "C"]), None, None)
  {
    var parts := ["STUDIO", "SCENE", "A", "B", "C"];
    assert AllClean(parts);
    UnderscoreRoundTrip(parts);
    assert parts[2..] == ["A", "B", "C"];
  }

  /** No separator of the fallback occurs, so it finds no performers. */
  lemma {:induction false} NoSeparators(s: string)
    requires ',' !in s && '&' !in s && '_' !in s
    ensures PickNames(s, PerformerSeparators) == []
  {
    NotContainsByChar(s, ", ", 0);
    NotContainsByChar(s, " & ", 1);
    NotContainsByChar(s, Underscored, 0);
    assert forall j :: 0 <= j < |PerformerSeparators| ==> !Yields(s, PerformerSeparators, j);
  }

  /**
   "Studio - Scene" with a one-word scene and no separators: the expression needs
   a performers group and fails, and the fallback's " - " split gives studio and title.
   */
  lemma {:induction false} FallbackStudioScene(studio: string, scene: string)
    requires studio != [] && IsClean(studio) && '-' !in studio && '_' !in studio && ',' !in studio
    requires scene != [] && IsClean(scene) && NoSpace(scene) && '-' !in scene && '_' !in scene && ',' !in scene
    ensures ScrapeSceneByFragment(studio + Dash + scene) ==
              SceneRecord(Some(scene), Some(studio), None, None, None)
  {
    var s := studio + Dash + scene;
    assert Pattern1(s).None? by {
      NoLateSpaceAroundDash(studio, scene);
      MatchNeedsLateSpace(s);
    }
    assert FromUnderscores(s).None? by {
      NotContainsByChar(s, Underscored, 0);
    }
    ByFallback(s);
    FallbackOnDash(studio, scene);
  }

  /** Past the only hyphen of `studio - scene` there is no whitespace. */
  lemma {:induction false} NoLateSpaceAroundDash(studio: string, scene: string)
    requires '-' !in studio && '-' !in scene && NoSpace(scene)
    ensures !LateSpace(studio + Dash + scene)
  {
    var s := studio + Dash + scene;
    var n := |studio|;
    assert s[n] == ' ' && s[n + 2] == ' ';
    forall d | 0 <= d < n ensures s[d] != '-' {
      assert s[d] == studio[d];
    }
    forall d | n + 3 <= d < |s| ensures s[d] != '-' && !IsSpace(s[d]) {
      assert s[d] == scene[d - n - 3];
    }
  }

  /** The fallback on `studio - scene` without separators. */
  lemma {:induction false} FallbackOnDash(studio: string, scene: string)
    requires IsClean(studio) && '-' !in studio && '_' !in studio && ',' !in studio
    requires IsClean(scene) && '-' !in scene && '_' !in scene && ',' !in scene
    ensures Fallback(studio + Dash + scene) == SceneRecord(Some(scene), Some(studio), None, None, None)
  {
    var s := studio + Dash + scene;
    assert Split(s, Dash) == [studio, scene] by {
      SplitPrefixChar(studio, Dash, scene, 1);
      NotContainsByChar(scene, Dash, 1);
      SplitSingleton(scene, Dash);
    }
    SplitSingleton(s, Dash);
    NoSeparators(s);
    CleanTextFixed(studio);
    CleanTextFixed(scene);
  }

  lemma {:induction false} FallbackExample()
    ensures ScrapeSceneByFragment("Studio - Scene") == SceneRecord(Some("Scene"), Some("Studio"), None, None, None)
  {
    assert "Studio - Scene" == "Studio" + Dash + "Scene";
    FallbackStudioScene("Studio", "Scene");
  }

  /**
   The filter works piece by piece: filtering a concatenation concatenates the
   filtered parts, so order and repetitions are kept.
   */
  lemma {:induction false} PlausibleNamesConcat(a: seq<string>, b: seq<string>)
    ensures PlausibleNames(a + b) == PlausibleNames(a) + PlausibleNames(b)
    decreases |a|
  {
    if a == [] {
      assert a + b == b;
    } else {
      var ab := a + b;
      assert ab[0] == a[0] && ab[1..] == a[1..] + b;
      PlausibleNamesConcat(a[1..], b);
      var x, y := PlausibleNames(a[1..]), PlausibleNames(b);
      if Plausible(a[0]) {
        assert [a[0]] + (x + y) == ([a[0]] + x) + y;
      }
    }
  }

  /** Plausible names pass the filter unchanged. */
  lemma {:induction false} PlausibleKeeps(ps: seq<string>)
    requires forall i :: 0 <= i < |ps| ==> Plausible(ps[i])
    ensures PlausibleNames(ps) == ps
  {
    if ps != [] {
      PlausibleKeeps(ps[1..]);
      assert ps == [ps[0]] + ps[1..];
    }
  }

  /**
   A plain list "A, B, C" (no hyphen, so no studio) is read by the fallback: the
   pieces between ", " that are longer than two characters and not numbers are
   the performers.
   */
  lemma {:induction false} FallbackNames(names: seq<string>)
    requires |names| >= 2 && AllClean(names) && PlausibleNames(names) != []
    requires forall i :: 0 <= i < |names| ==> ',' !in names[i] && '-' !in names[i]
    ensures ScrapeSceneByFragment(Join(names, ", ")) == SceneRecord(None, None, Some(PlausibleNames(names)), None, None)
  {
    var s := Join(names, ", ");
    NoCharInJoin(names, ", ", '-');
    assert Pattern1(s).None? by {
      MatchNeedsLateSpace(s);
    }
    assert FromUnderscores(s).None? by {
      NotContainsByChar(s, Underscored, 1);
    }
    ByFallback(s);
    FallbackOnCommas(names);
  }

  /** When every piece is plausible, all of them come back. */
  lemma {:induction false} FallbackAllNames(names: seq<string>)
    requires |names| >= 2 && AllClean(names) && forall i :: 0 <= i < |names| ==> Plausible(names[i])
    requires forall i :: 0 <= i < |names| ==> ',' !in names[i] && '-' !in names[i]
    ensures ScrapeSceneByFragment(Join(names, ", ")) == SceneRecord(None, None, Some(names), None, None)
  {
    PlausibleKeeps(names);
    FallbackNames(names);
  }

  /** "Jo, 2024, Maxi": "Jo" is too short and "2024" is a number, so only "Maxi" is kept. */
  lemma {:induction false} FilterExample()
    ensures ScrapeSceneByFragment("Jo, 2024, Maxi") == SceneRecord(None, None, Some(["Maxi"]), None, None)
  {
    FilterText();
    FilterInstance();
  }

  lemma {:induction false} FilterText()
    ensures Join(["Jo", "2024", "Maxi"], ", ") == "Jo, 2024, Maxi"
  {
  }

  lemma {:induction false} FilterInstance()
    ensures ScrapeSceneByFragment(Join(["Jo", "2024", "Maxi"], ", ")) == SceneRecord(None, None, Some(["Maxi"]), None, None)
  {
    var names := ["Jo", "2024", "Maxi"];
    FilterInputs();
    assert forall i :: 0 <= i < |names| ==> ',' !in names[i] && '-' !in names[i];
    FallbackNames(names);
  }

  lemma {:induction false} FilterInputs()
    ensures PlausibleNames(["Jo", "2024", "Maxi"]) == ["Maxi"]
    ensures AllClean(["Jo", "2024", "Maxi"])
  {
    var names := ["Jo", "2024", "Maxi"];
    FilterVerdicts();
    assert names[1..][1..] == [names[2]] && names[2..][1..] == [];
    FilterClean();
  }

  lemma {:induction false} FilterVerdicts()
    ensures !Plausible("Jo") && !Plausible("2024") && Plausible("Maxi")
  {
    assert IsDigits("2024");
    assert !IsDigit("Maxi"[0]);
  }

  lemma {:induction false} FilterClean()
    ensures AllClean(["Jo", "2024", "Maxi"])
  {
    var names := ["Jo", "2024", "Maxi"];
    assert IsClean(names[0]) && IsClean(names[1]) && IsClean(names[2]);
  }

  /** Plausible pieces of clean pieces are clean. */
  lemma {:induction false} PlausibleClean(ps: seq<string>)
    requires AllClean(ps)
    ensures AllClean(PlausibleNames(ps))
  {
    if ps != [] {
      PlausibleClean(ps[1..]);
    }
  }

  /** The fallback on pieces joined by ", ". */
  lemma {:induction false} FallbackOnCommas(names: seq<string>)
    requires |names| >= 2 && AllClean(names) && PlausibleNames(names) != []
    requires forall i :: 0 <= i < |names| ==> ',' !in names[i] && '-' !in names[i]
    ensures Fallback(Join(names, ", ")) == SceneRecord(None, None, Some(PlausibleNames(names)), None, None)
  {
    NoDashInNames(names);
    PickCommaNames(names);
    PlausibleClean(names);
    CleanAllFixed(PlausibleNames(names));
    FallbackWithoutDash(Join(names, ", "));
  }

  lemma {:induction false} NoDashInNames(names: seq<string>)
    requires forall i :: 0 <= i < |names| ==> '-' !in names[i]
    ensures !Contains(Join(names, ", "), Dash)
  {
    NoCharInJoin(names, ", ", '-');
    NotContainsByChar(Join(names, ", "), Dash, 1);
  }

  /** Without " - " the fallback only sets the performers, if it finds any. */
  lemma {:induction false} FallbackWithoutDash(s: string)
    requires !Contains(s, Dash) && PickNames(s, PerformerSeparators) != []
    ensures Fallback(s) == SceneRecord(None, None, Some(NonEmptyNames(CleanAll(PickNames(s, PerformerSeparators)))), None, None)
  {
  }

  /** The fallback's loop stops at its first separator, ", ", when that yields names. */
  lemma {:induction false} PickCommaNames(names: seq<string>)
    requires |names| >= 2 && PlausibleNames(names) != []
    requires forall i :: 0 <= i < |names| ==> ',' !in names[i]
    ensures PickNames(Join(names, ", "), PerformerSeparators) == PlausibleNames(names)
  {
    CommaJoinSplit(names);
    PickOnComma(Join(names, ", "), names);
  }

  lemma {:induction false} CommaJoinSplit(names: seq<string>)
    requires |names| >= 2
    requires forall i :: 0 <= i < |names| ==> ',' !in names[i]
    ensures Split(Join(names, ", "), ", ") == names && Contains(Join(names, ", "), ", ")
  {
    SplitJoinFree(names, ", ", 0);
    SplitSingleton(Join(names, ", "), ", ");
  }

  lemma {:induction false} PickOnComma(s: string, names: seq<string>)
    requires Split(s, ", ") == names && Contains(s, ", ") && PlausibleNames(names) != []
    ensures PickNames(s, PerformerSeparators) == PlausibleNames(names)
  {
    assert PerformerSeparators[0] == ", ";
    PickFirst(s, PerformerSeparators);
  }

  /** A separator that yields names ends the loop at once. */
  lemma {:induction false} PickFirst(s: string, seps: seq<Delimiter>)
    requires |seps| > 0
    requires Contains(s, seps[0]) && PlausibleNames(Split(s, seps[0])) != []
    ensures PickNames(s, seps) == PlausibleNames(Split(s, seps[0]))
  {
  }
}
