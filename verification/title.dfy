/**
 The title heuristics: a page title such as "Studio - Performer1 & Performer2 - Scene"
 is cut on a spaced hyphen (or, for two of the three extractors, on a spaced en
 dash) and one segment is picked.
 */
module TitleParse {
  import opened Options
  import opened Strings
  import opened Clean

  /** The spaced hyphen all three extractors recognise. */
  const Dash: string := " - "

  /** The spaced en dash the scene-name and performer extractors fall back to. */
  const EnDash: string := " \U{2013} "

  /** The separator the scene-name and performer extractors split on: the hyphen form wins. */
  function Separator(title: string): Option<string>
  {
    if Contains(title, Dash) then Some(Dash)
    else if Contains(title, EnDash) then Some(EnDash)
    else None
  }

  /** `[p.strip() for p in ps]` */
  function StripAll(ps: seq<string>): (r: seq<string>)
    ensures |r| == |ps|
  {
    seq(|ps|, i requires 0 <= i < |ps| => Strip(ps[i]))
  }

  /** `[clean_text(p) for p in ps if p.strip()]` */
  function CleanNonBlank(ps: seq<string>): (r: seq<string>)
    ensures |r| <= |ps|
  {
    if ps == [] then []
    else if Strip(ps[0]) != [] then [CleanText(ps[0])] + CleanNonBlank(ps[1..])
    else CleanNonBlank(ps[1..])
  }

  /** Pieces without `&` give non-empty cleaned names without `&`. */
  lemma {:induction false} CleanNonBlankNames(ps: seq<string>)
    requires forall j :: 0 <= j < |ps| ==> '&' !in ps[j]
    ensures forall i :: 0 <= i < |CleanNonBlank(ps)| ==> CleanNonBlank(ps)[i] != [] && '&' !in CleanNonBlank(ps)[i]
    decreases |ps|
  {
    if ps != [] {
      CleanNonBlankNames(ps[1..]);
      if Strip(ps[0]) != [] {
        var n := CleanText(ps[0]);
        var tail := CleanNonBlank(ps[1..]);
        assert n != [] && '&' !in n by {
          CleanTextNonBlank(ps[0]);
          NoAmpersandAfterCleaning(ps[0]);
        }
        assert CleanNonBlank(ps) == [n] + tail;
        ConsNames(n, tail);
      }
    }
  }

  lemma {:induction false} ConsNames(n: string, tail: seq<string>)
    requires n != [] && '&' !in n
    requires forall i :: 0 <= i < |tail| ==> tail[i] != [] && '&' !in tail[i]
    ensures forall i :: 0 <= i < |[n] + tail| ==> ([n] + tail)[i] != [] && '&' !in ([n] + tail)[i]
  {
    forall i | 0 < i < |[n] + tail|
      ensures ([n] + tail)[i] == tail[i - 1]
    {
    }
  }

  lemma {:induction false} NoAmpersandAfterCleaning(p: string)
    requires '&' !in p
    ensures '&' !in CleanText(p)
  {
    if '&' in CleanText(p) {
      CleanTextChars(p, '&');
    }
  }

  /** The performer names in one title segment: split on `&` if it has one, else on `,`, else none. */
  function PerformerPieces(segment: string): seq<string>
  {
    if '&' in segment then StripAll(Split(segment, ['&']))
    else if ',' in segment then StripAll(Split(segment, [',']))
    else []
  }

  /** Python's `extract_performers_from_title`: the names found in the FIRST segment. */
  function ExtractPerformers(title: string): (names: seq<string>)
    ensures Separator(title) == None ==> names == []
    ensures forall i :: 0 <= i < |names| ==> names[i] != [] && '&' !in names[i]
  {
    match Separator(title)
    case None => []
    case Some(sep) =>
      var segment := Split(title, sep)[0];
      PiecesHaveNoAmpersand(segment);
      CleanNonBlankNames(PerformerPieces(segment));
      CleanNonBlank(PerformerPieces(segment))
  }

  lemma {:induction false} PiecesHaveNoAmpersand(segment: string)
    ensures forall j :: 0 <= j < |PerformerPieces(segment)| ==> '&' !in PerformerPieces(segment)[j]
  {
    var pieces := PerformerPieces(segment);
    if pieces != [] {
      var sep := if '&' in segment then ['&'] else [','];
      var parts := Split(segment, sep);
      SplitPiecesFree(segment, sep);
      SplitPiecesChars(segment, sep);
      forall j | 0 <= j < |pieces|
        ensures '&' !in pieces[j]
      {
        StripKeeps(parts[j]);
        if '&' in pieces[j] {
          var i :| 0 <= i < |pieces[j]| && pieces[j][i] == '&';
          assert '&' in parts[j];
          ContainsChar(parts[j], '&');
        }
      }
    }
  }

  /** Python's `extract_scene_name_from_title`: the cleaned LAST segment. */
  function ExtractSceneName(title: string): (name: string)
    ensures Separator(title) == None ==> name == []
  {
    match Separator(title)
    case None => CleanText([])
    case Some(sep) =>
      var parts := Split(title, sep);
      CleanText(if |parts| > 1 then Last(parts) else [])
  }

  /** Python's `extract_studio_from_title`: the cleaned FIRST segment, hyphen form only. */
  function ExtractStudio(title: string): (studio: string)
    ensures !Contains(title, Dash) ==> studio == []
  {
    CleanText(if Contains(title, Dash) then Split(title, Dash)[0] else [])
  }

  /**
   The scene name is the cleaned last piece of the split: the title is a head,
   the separator and a raw tail without the separator, and the split of the
   title is the split of the head followed by that tail. The tail is therefore
   fixed by the title; for "A - - B" it is "- B".
   */
  lemma {:induction false} SceneNameIsLastSegment(title: string)
    requires Separator(title).Some?
    ensures exists head, raw ::
              && title == head + Separator(title).value + raw
              && Split(title, Separator(title).value) == Split(head, Separator(title).value) + [raw]
              && !Contains(raw, Separator(title).value)
              && ExtractSceneName(title) == CleanText(raw)
  {
    var sep := Separator(title).value;
    var raw := Last(Split(title, sep));
    var head := SplitLast(title, sep);
    LastPieceFree(title, sep);
    SceneNameOfLast(title);
    assert title == head + sep + raw && Split(title, sep) == Split(head, sep) + [raw];
  }

  lemma {:induction false} LastPieceFree(s: string, sep: string)
    requires |sep| > 0
    ensures !Contains(Last(Split(s, sep)), sep)
  {
    SplitPiecesFree(s, sep);
  }

  lemma {:induction false} SceneNameOfLast(title: string)
    requires Separator(title).Some?
    ensures ExtractSceneName(title) == CleanText(Last(Split(title, Separator(title).value)))
  {
    SplitSingleton(title, Separator(title).value);
  }

  /** The studio is the cleaned text before the first spaced hyphen. */
  lemma {:induction false} StudioIsFirstSegment(title: string)
    requires Contains(title, Dash)
    ensures exists raw, tail ::
              && title == raw + Dash + tail
              && (forall j :: 0 <= j < |raw| ==> !OccursAt(title, Dash, j))
              && ExtractStudio(title) == CleanText(raw)
  {
    var i := Find(title, Dash).value;
    var raw, tail := title[..i], title[i + |Dash|..];
    assert title[i..i + |Dash|] == Dash;
    assert title == raw + title[i..i + |Dash|] + tail;
  }

  /**
   "head - tail" with one spaced hyphen: the studio is the head, the scene name
   the tail and the performers come from the head, whatever en dashes either holds.
   */
  lemma {:induction false} HyphenPreferred(head: string, tail: string)
    requires FirstCutAfter(head, Dash) && !Contains(tail, Dash)
    ensures ExtractStudio(head + Dash + tail) == CleanText(head)
    ensures ExtractSceneName(head + Dash + tail) == CleanText(tail)
    ensures ExtractPerformers(head + Dash + tail) == CleanNonBlank(PerformerPieces(head))
  {
    FirstSegmentIs(head, Dash, tail);
    SplitSingleton(tail, Dash);
  }

  /**
   "head – tail" with one spaced en dash and no spaced hyphen anywhere: the scene
   name is the tail and the performers come from the head, but there is no studio,
   because the studio extractor looks for the hyphen form only.
   */
  lemma {:induction false} EnDashOnly(head: string, tail: string)
    requires FirstCutAfter(head, EnDash) && !Contains(tail, EnDash)
    requires !Contains(head + EnDash + tail, Dash)
    ensures ExtractStudio(head + EnDash + tail) == []
    ensures ExtractSceneName(head + EnDash + tail) == CleanText(tail)
    ensures ExtractPerformers(head + EnDash + tail) == CleanNonBlank(PerformerPieces(head))
  {
    FirstSegmentIs(head, EnDash, tail);
    SplitSingleton(tail, EnDash);
  }

  /** Names that `clean_text` leaves unchanged come through the non-blank filter unchanged. */
  lemma {:induction false} CleanNonBlankOfClean(ns: seq<string>)
    requires AllClean(ns)
    ensures CleanNonBlank(ns) == ns
    decreases |ns|
  {
    if ns != [] {
      var n := ns[0];
      assert CleanNonBlank(ns[1..]) == ns[1..] by {
        CleanNonBlankOfClean(ns[1..]);
      }
      assert Strip(n) != [] && CleanText(n) == n by {
        StripPadded(n, []);
        assert n + [] == n;
        CleanTextFixed(n);
      }
      assert ns == [n] + ns[1..];
    }
  }

  /**
   Two or more clean names joined by `" & "` in front of the first spaced hyphen
   come back out. The names may hold hyphens ("Jean-Luc") and commas: the `&`
   split wins over the `,` split.
   */
  lemma {:induction false} PerformersAmpersandRoundTrip(names: seq<string>, rest: string)
    requires |names| >= 2 && AllClean(names)
    requires FirstCutAfter(Join(names, " & "), Dash)
    ensures ExtractPerformers(Join(names, " & ") + Dash + rest) == names
  {
    AmpersandSegmentFirst(names, rest);
    AmpersandNames(names);
    CleanNonBlankOfClean(names);
  }

  /** "A, B & C - Scene": the segment holds both `,` and `&`, and the `&` split decides. */
  lemma {:induction false} AmpersandOverComma()
    ensures ExtractPerformers("A, B & C - Scene") == ["A, B", "C"]
  {
    AmpersandOverCommaText();
    AmpersandOverCommaInputs();
    PerformersAmpersandRoundTrip(["A, B", "C"], "Scene");
  }

  lemma {:induction false} AmpersandOverCommaText()
    ensures "A, B & C - Scene" == Join(["A, B", "C"], " & ") + Dash + "Scene"
  {
  }

  lemma {:induction false} AmpersandOverCommaInputs()
    ensures AllClean(["A, B", "C"])
    ensures FirstCutAfter(Join(["A, B", "C"], " & "), Dash)
  {
    assert Join(["A, B", "C"], " & ") == "A, B & C";
    FirstCutByChar("A, B & C", Dash, 1);
    CommaNameClean();
  }

  lemma {:induction false} CommaNameClean()
    ensures AllClean(["A, B", "C"])
  {
    var ns := ["A, B", "C"];
    assert IsClean(ns[0]) && IsClean(ns[1]);
    assert ns[1..][1..] == [];
  }

  lemma {:induction false} AmpersandSegmentFirst(names: seq<string>, rest: string)
    requires FirstCutAfter(Join(names, " & "), Dash)
    ensures ExtractPerformers(Join(names, " & ") + Dash + rest) == CleanNonBlank(PerformerPieces(Join(names, " & ")))
  {
    FirstSegmentIs(Join(names, " & "), Dash, rest);
  }

  lemma {:induction false} AmpersandNames(names: seq<string>)
    requires |names| >= 2 && AllClean(names)
    ensures PerformerPieces(Join(names, " & ")) == names
  {
    AllCleanTrimmed(names);
    AmpersandPieces(names);
  }

  /**
   Two or more clean names without commas, joined by `", "` in front of the first
   spaced en dash of a title without a spaced hyphen, come back out.
   */
  lemma {:induction false} PerformersCommaRoundTrip(names: seq<string>, rest: string)
    requires |names| >= 2 && AllClean(names)
    requires forall i :: 0 <= i < |names| ==> ',' !in names[i]
    requires FirstCutAfter(Join(names, ", "), EnDash)
    requires !Contains(Join(names, ", ") + EnDash + rest, Dash)
    ensures ExtractPerformers(Join(names, ", ") + EnDash + rest) == names
  {
    FirstSegmentIs(Join(names, ", "), EnDash, rest);
    assert PerformerPieces(Join(names, ", ")) == names by {
      AllCleanTrimmed(names);
      CommaPieces(names);
    }
    CleanNonBlankOfClean(names);
  }

  /**
   The performers are read from the text before the first occurrence of the
   separator in force, whatever that text holds.
   */
  lemma {:induction false} FirstSegmentIs(segment: string, sep: string, rest: string)
    requires sep == Dash || sep == EnDash
    requires sep == EnDash ==> !Contains(segment + sep + rest, Dash)
    requires FirstCutAfter(segment, sep)
    ensures Separator(segment + sep + rest) == Some(sep)
    ensures Split(segment + sep + rest, sep) == [segment] + Split(rest, sep)
    ensures ExtractPerformers(segment + sep + rest) == CleanNonBlank(PerformerPieces(segment))
  {
    SplitPrefix(segment, sep, rest);
    assert (segment + sep + rest)[|segment|..|segment| + |sep|] == sep;
    ContainsWitness(segment + sep + rest, sep, |segment|);
  }

  /** The `&` split of names joined by `" & "`, each piece stripped. */
  lemma {:induction false} AmpersandPieces(names: seq<string>)
    requires |names| >= 2
    requires forall i :: 0 <= i < |names| ==> Trimmed(names[i]) && '&' !in names[i]
    ensures PerformerPieces(Join(names, " & ")) == names
  {
    AmpersandSplitBack(names);
    CharInJoin(names, " & ", 1);
    PiecesOnAmpersand(Join(names, " & "));
    StripAllBack(Split(Join(names, " & "), ['&']), names);
  }

  /** The `,` split of `&`-free names joined by `", "`, each piece stripped. */
  lemma {:induction false} CommaPieces(names: seq<string>)
    requires |names| >= 2
    requires forall i :: 0 <= i < |names| ==> Trimmed(names[i]) && ',' !in names[i] && '&' !in names[i]
    ensures PerformerPieces(Join(names, ", ")) == names
  {
    CommaSplitBack(names);
    CharInJoin(names, ", ", 0);
    NoCharInJoin(names, ", ", '&');
    PiecesOnComma(Join(names, ", "));
    StripAllBack(Split(Join(names, ", "), [',']), names);
  }

  lemma {:induction false} AmpersandSplitBack(names: seq<string>)
    requires |names| >= 1
    requires forall i :: 0 <= i < |names| ==> Trimmed(names[i]) && '&' !in names[i]
    ensures StripsBack(Split(Join(names, " & "), ['&']), names)
  {
    AmpersandSpaced();
    StripSplitJoinAt(names, " & ", 1);
  }

  lemma {:induction false} CommaSpaced()
    ensures SpacedChar(", ", 0) && ", "[0] == ','
  {
  }

  lemma {:induction false} AmpersandSpaced()
    ensures SpacedChar(" & ", 1) && " & "[1] == '&'
  {
  }

  lemma {:induction false} CommaSplitBack(names: seq<string>)
    requires |names| >= 1
    requires forall i :: 0 <= i < |names| ==> Trimmed(names[i]) && ',' !in names[i]
    ensures StripsBack(Split(Join(names, ", "), [',']), names)
  {
    CommaSpaced();
    StripSplitJoinAt(names, ", ", 0);
  }

  lemma {:induction false} CharInJoin(names: seq<string>, sep: string, k: nat)
    requires |names| >= 2 && k < |sep|
    ensures sep[k] in Join(names, sep)
  {
    var joined := Join(names, sep);
    assert joined == names[0] + sep + Join(names[1..], sep);
    assert joined[|names[0]| + k] == sep[k];
  }

  lemma {:induction false} PiecesOnAmpersand(segment: string)
    requires '&' in segment
    ensures PerformerPieces(segment) == StripAll(Split(segment, ['&']))
  {
  }

  lemma {:induction false} PiecesOnComma(segment: string)
    requires '&' !in segment && ',' in segment
    ensures PerformerPieces(segment) == StripAll(Split(segment, [',']))
  {
  }

  lemma {:induction false} StripAllBack(parts: seq<string>, ns: seq<string>)
    requires StripsBack(parts, ns)
    ensures StripAll(parts) == ns
  {
  }

  lemma {:induction false} NoCharInJoin(names: seq<string>, sep: string, c: char)
    requires c !in sep && forall i :: 0 <= i < |names| ==> c !in names[i]
    ensures c !in Join(names, sep)
  {
    if c in Join(names, sep) {
      JoinChars(names, sep, c);
    }
  }

  /**
   The title shape the scraper's comments describe, "Studio - P1 & P2 - Scene":
   the studio and the scene name come back out, but the generic performer
   extractor looks at the studio segment and finds no performers there.
   */
  lemma {:induction false} TitleRoundTrip(studio: string, names: seq<string>, scene: string)
    requires IsClean(studio) && ',' !in studio && FirstCutAfter(studio, Dash)
    requires FirstCutAfter(Join(names, " & "), Dash)
    requires IsClean(scene) && !Contains(scene, Dash)
    ensures ExtractStudio(studio + Dash + Join(names, " & ") + Dash + scene) == studio
    ensures ExtractSceneName(studio + Dash + Join(names, " & ") + Dash + scene) == scene
    ensures ExtractPerformers(studio + Dash + Join(names, " & ") + Dash + scene) == []
  {
    ThreeSegments(studio, Join(names, " & "), scene);
  }

  /** What the three extractors read from "Studio - Middle - Scene", whatever the middle holds. */
  lemma {:induction false} ThreeSegments(studio: string, middle: string, scene: string)
    requires IsClean(studio) && ',' !in studio && FirstCutAfter(studio, Dash)
    requires FirstCutAfter(middle, Dash)
    requires IsClean(scene) && !Contains(scene, Dash)
    ensures ExtractStudio(studio + Dash + middle + Dash + scene) == studio
    ensures ExtractSceneName(studio + Dash + middle + Dash + scene) == scene
    ensures ExtractPerformers(studio + Dash + middle + Dash + scene) == []
  {
    var title := studio + Dash + middle + Dash + scene;
    TitleSegments(studio, middle, scene);
    assert Contains(title, Dash) by {
      SplitSingleton(title, Dash);
    }
    assert Separator(title) == Some(Dash);
    CleanTextFixed(studio);
    CleanTextFixed(scene);
    assert PerformerPieces(studio) == [];
  }

  /** The three hyphen segments of "Studio - Middle - Scene". */
  lemma {:induction false} TitleSegments(studio: string, middle: string, scene: string)
    requires FirstCutAfter(studio, Dash) && FirstCutAfter(middle, Dash) && !Contains(scene, Dash)
    ensures Split(studio + Dash + middle + Dash + scene, Dash) == [studio, middle, scene]
  {
    assert studio + Dash + middle + Dash + scene == studio + Dash + (middle + Dash + scene);
    SplitPrefix(studio, Dash, middle + Dash + scene);
    SplitPrefix(middle, Dash, scene);
    SplitSingleton(scene, Dash);
  }
}
