/**
 The three site scrapers after their page has been fetched and parsed, and the
 URL dispatcher in front of them. Fetching and HTML/JSON parsing are outside the
 model: a scraper receives the parsed `Page` (or `Failed`, standing for any
 exception raised on the way, which makes the scraper return `{}`).
 */
module Sites {
  import opened Options
  import opened Strings
  import opened Clean
  import opened TitleParse
  import opened Scene

  /**
   One entry of a JSON-LD `@graph` list. `sections` is `articleSection` when it is
   a list and `None` when it is absent or not a list; likewise `keywords`. A
   missing `headline` is the empty string.
   */
  datatype GraphNode = GraphNode(
    nodeType: Option<string>,
    headline: string,
    sections: Option<seq<string>>,
    keywords: Option<seq<string>>)

  /**
   What the scrapers read from a parsed page: the text of `<title>` ("" when
   there is none), the `@graph` of the first JSON-LD script that is an object with
   one (`None` when no script qualifies), the texts of the `.breadcrumb a` links,
   and the text of the first `<h1>` ("" when there is none).
   */
  datatype Page = Page(
    title: string,
    graph: Option<seq<GraphNode>>,
    breadcrumbs: seq<string>,
    h1: string)

  datatype Fetch = Failed | Fetched(page: Page)

  const FxggxtHost: string := "fxggxt.com"
  const LikegayHost: string := "likegay.net"
  const HutgayHost: string := "hutgay.com"

  // ---------------------------------------------------------------- fxggxt.com

  predicate IsArticle(n: GraphNode) {
    n.nodeType == Some("Article")
  }

  /** An Article whose `articleSection` is a non-empty list. */
  predicate NamesStudio(n: GraphNode) {
    IsArticle(n) && n.sections.Some? && n.sections.value != []
  }

  /** An Article whose `keywords` is a list. */
  predicate NamesTags(n: GraphNode) {
    IsArticle(n) && n.keywords.Some?
  }

  /** One pass of the loop over `@graph`: an Article overwrites the fields it carries. */
  function ApplyNode(scene: SceneRecord, n: GraphNode): SceneRecord {
    if !IsArticle(n) then scene
    else
      var s1 := scene.(title := Some(CleanText(n.headline)));
      var s2 := if NamesStudio(n) then s1.(studio := Some(n.sections.value[0])) else s1;
      if NamesTags(n) then s2.(tags := n.keywords) else s2
  }

  /** The loop over `@graph`, first node first. It has no `break`: later Articles win. */
  function ReadGraph(scene: SceneRecord, nodes: seq<GraphNode>): SceneRecord
    decreases |nodes|
  {
    if nodes == [] then scene
    else ApplyNode(ReadGraph(scene, nodes[..|nodes| - 1]), Last(nodes))
  }

  /** The index of the last node satisfying `p`, scanning from the end. */
  function LastWhere(nodes: seq<GraphNode>, p: GraphNode -> bool): (r: Option<nat>)
    ensures r.Some? ==> r.value < |nodes| && p(nodes[r.value])
    ensures r.Some? ==> forall k :: r.value < k < |nodes| ==> !p(nodes[k])
    ensures r.None? ==> forall k :: 0 <= k < |nodes| ==> !p(nodes[k])
    decreases |nodes|
  {
    if nodes == [] then None
    else if p(Last(nodes)) then Some(|nodes| - 1)
    else LastWhere(nodes[..|nodes| - 1], p)
  }

  /**
   What the JSON-LD loop leaves behind: the title comes from the last Article, the
   studio from the last Article with sections, the tags from the last Article
   with keywords; each field no Article sets keeps its value; performers and URL
   are never touched.
   */
  lemma {:induction false} ReadGraphFields(scene: SceneRecord, nodes: seq<GraphNode>)
    ensures ReadGraph(scene, nodes).title ==
              match LastWhere(nodes, IsArticle)
              case None => scene.title
              case Some(k) => Some(CleanText(nodes[k].headline))
    ensures ReadGraph(scene, nodes).studio ==
              match LastWhere(nodes, NamesStudio)
              case None => scene.studio
              case Some(k) => Some(nodes[k].sections.value[0])
    ensures ReadGraph(scene, nodes).tags ==
              match LastWhere(nodes, NamesTags)
              case None => scene.tags
              case Some(k) => nodes[k].keywords
    ensures ReadGraph(scene, nodes).performers == scene.performers
    ensures ReadGraph(scene, nodes).url == scene.url
    decreases |nodes|
  {
    if nodes != [] {
      var init := nodes[..|nodes| - 1];
      ReadGraphFields(scene, init);
      LastWhereInit(nodes, IsArticle);
      LastWhereInit(nodes, NamesStudio);
      LastWhereInit(nodes, NamesTags);
    }
  }

  lemma {:induction false} LastWhereInit(nodes: seq<GraphNode>, p: GraphNode -> bool)
    requires nodes != []
    ensures !p(Last(nodes)) ==> LastWhere(nodes, p) == LastWhere(nodes[..|nodes| - 1], p)
    ensures p(Last(nodes)) ==> LastWhere(nodes, p) == Some(|nodes| - 1)
  {
  }

  /**
   The fxggxt-specific performer rule: the SECOND " - " segment of the page title,
   split on `&` when it holds one, each piece stripped, blanks dropped. `None`
   leaves the field unset.
   */
  function FxggxtPerformers(title: string): (r: Option<seq<string>>)
    ensures r.Some? ==> forall i :: 0 <= i < |r.value| ==> r.value[i] != [] && Trimmed(r.value[i]) && '&' !in r.value[i]
  {
    var parts := Split(title, Dash);
    if |parts| >= 2 && '&' in parts[1] then
      var pieces := StripAll(Split(parts[1], ['&']));
      PiecesTrimmedNoAmpersand(parts[1]);
      Some(NonEmptyNames(pieces))
    else None
  }

  lemma {:induction false} PiecesTrimmedNoAmpersand(segment: string)
    ensures forall j :: 0 <= j < |Split(segment, ['&'])| ==>
              Trimmed(StripAll(Split(segment, ['&']))[j]) && '&' !in StripAll(Split(segment, ['&']))[j]
  {
    var parts := Split(segment, ['&']);
    SplitPiecesFree(segment, ['&']);
    forall j | 0 <= j < |parts|
      ensures Trimmed(Strip(parts[j])) && '&' !in Strip(parts[j])
    {
      StripKeeps(parts[j]);
      ContainsChar(parts[j], '&');
    }
  }

  /** Python's `scrape_fxggxt` once the page is in hand; `url` is what it was called with. */
  function ScrapeFxggxt(url: string, fetch: Fetch): (r: SceneRecord)
    ensures fetch.Failed? ==> r == Empty
    ensures fetch.Fetched? ==> r.title.Some? && r.url == Some(url)
  {
    match fetch
    case Failed => Empty
    case Fetched(page) =>
      var s1 := TitleFallback(FromGraph(page), page.title);
      var s2 := PerformersFromTitle(s1, url, page.title);
      var s3 := StudioFallback(s2, page.title);
      s3.(url := Some(url))
  }

  /** The record after the JSON-LD loop; `{}` when the page has no usable JSON-LD. */
  function FromGraph(page: Page): SceneRecord {
    if page.graph.Some? then ReadGraph(Empty, page.graph.value) else Empty
  }

  /** The fxggxt record is assembled in four steps, each setting one field. */
  lemma {:induction false} FxggxtSteps(url: string, page: Page)
    ensures ScrapeFxggxt(url, Fetched(page)) ==
              StudioFallback(PerformersFromTitle(TitleFallback(FromGraph(page), page.title), url, page.title), page.title)
              .(url := Some(url))
  {
  }

  /** `if not scene.get('title')`: a missing or empty title is replaced by the parsed scene name. */
  function TitleFallback(s: SceneRecord, title: string): (r: SceneRecord)
    ensures r == s.(title := r.title) && r.title.Some?
    ensures s.title.Some? && s.title.value != [] ==> r == s
    ensures r.title != s.title ==> r.title == Some(ExtractSceneName(title))
    ensures s.title.None? || s.title.value == [] ==> r.title == Some(ExtractSceneName(title))
  {
    if s.title.None? || s.title.value == [] then s.(title := Some(ExtractSceneName(title))) else s
  }

  /** The fxggxt rule when the URL names fxggxt.com, the generic extractor otherwise. */
  function PerformersFromTitle(s: SceneRecord, url: string, title: string): (r: SceneRecord)
    ensures r == s.(performers := r.performers)
  {
    if Contains(url, FxggxtHost) then
      var named := FxggxtPerformers(title);
      if named.Some? then s.(performers := named) else s
    else
      var names := ExtractPerformers(title);
      if names != [] then s.(performers := Some(names)) else s
  }

  /** `if not scene.get('studio')`: the studio parsed from the title, when there is one. */
  function StudioFallback(s: SceneRecord, title: string): (r: SceneRecord)
    ensures r == s.(studio := r.studio)
  {
    if s.studio.None? then
      var studio := ExtractStudio(title);
      if studio != [] then s.(studio := Some(studio)) else s
    else s
  }

  // ---------------------------------------------------------------- likegay.net

  /** Python's `scrape_likegay` once the page is in hand. */
  function ScrapeLikegay(url: string, fetch: Fetch): (r: SceneRecord)
    ensures fetch.Failed? ==> r == Empty
    ensures fetch.Fetched? ==> r.url == Some(url) && r.tags.None?
    ensures r.title.Some? ==> r.title.value != [] && Trimmed(r.title.value)
    ensures r.studio.Some? ==> r.studio.value != [] && Trimmed(r.studio.value)
    ensures r.performers.Some? ==> r.performers.value != []
    ensures r.performers.Some? ==> forall i :: 0 <= i < |r.performers.value| ==> r.performers.value[i] != []
  {
    match fetch
    case Failed => Empty
    case Fetched(page) =>
      var name := ExtractSceneName(page.title);
      var names := ExtractPerformers(page.title);
      var crumb := if |page.breadcrumbs| > 1 then CleanText(page.breadcrumbs[1]) else [];
      SceneRecord(
        title := if name != [] then Some(name) else None,
        studio := if crumb != [] then Some(crumb) else None,
        performers := if names != [] then Some(names) else None,
        tags := None,
        url := Some(url))
  }

  // ---------------------------------------------------------------- hutgay.com

  /** Python's `scrape_hutgay` once the page is in hand. */
  function ScrapeHutgay(url: string, fetch: Fetch): (r: SceneRecord)
    ensures fetch.Failed? ==> r == Empty
    ensures fetch.Fetched? ==> r.url == Some(url) && r.tags.None?
    ensures r.title.Some? ==> r.title.value != [] && Trimmed(r.title.value)
    ensures r.studio.Some? ==> r.studio.value != [] && Trimmed(r.studio.value)
    ensures r.studio.Some? && r.performers.Some? ==> r.studio.value !in r.performers.value
    ensures r.studio.Some? ==> fetch.Fetched? && Contains(fetch.page.h1, Dash)
  {
    match fetch
    case Failed => Empty
    case Fetched(page) =>
      var name := ExtractSceneName(page.title);
      var names := ExtractPerformers(page.title);
      var performers := if names != [] then Some(names) else None;
      var candidate := if Contains(page.h1, Dash) then Strip(Split(page.h1, Dash)[0]) else [];
      StripKeeps(if Contains(page.h1, Dash) then Split(page.h1, Dash)[0] else []);
      var known := if performers.Some? then performers.value else [];
      SceneRecord(
        title := if name != [] then Some(name) else None,
        studio := if candidate != [] && candidate !in known then Some(candidate) else None,
        performers := performers,
        tags := None,
        url := Some(url))
  }

  // ---------------------------------------------------------------- dispatch

  /**
   Python's `scrape_scene_by_url`. `normalize` stands for `normalize_url` and
   `fetch` for downloading and parsing a page; both are outside the model.
   */
  function ScrapeSceneByUrl(url: string, normalize: string -> string, fetch: string -> Fetch): (r: SceneRecord)
    ensures (!Contains(normalize(url), FxggxtHost) && !Contains(normalize(url), LikegayHost)
             && !Contains(normalize(url), HutgayHost)) ==> r == Empty
    ensures fetch(normalize(url)).Failed? ==> r == Empty
    ensures r != Empty ==> r.url == Some(normalize(url))
  {
    var n := normalize(url);
    if Contains(n, FxggxtHost) then ScrapeFxggxt(n, fetch(n))
    else if Contains(n, LikegayHost) then ScrapeLikegay(n, fetch(n))
    else if Contains(n, HutgayHost) then ScrapeHutgay(n, fetch(n))
    else Empty
  }

  // ---------------------------------------------------------------- properties

  /**
   For a URL the dispatcher sends to fxggxt, the performers are exactly what the
   second title segment yields: the JSON-LD never sets them and the generic
   extractor's branch is never taken.
   */
  lemma {:induction false} DispatchedFxggxtPerformers(url: string, normalize: string -> string, fetch: string -> Fetch)
    requires Contains(normalize(url), FxggxtHost) && fetch(normalize(url)).Fetched?
    ensures ScrapeSceneByUrl(url, normalize, fetch).performers ==
              FxggxtPerformers(fetch(normalize(url)).page.title)
  {
    var page := fetch(normalize(url)).page;
    if page.graph.Some? {
      ReadGraphFields(Empty, page.graph.value);
    }
  }

  /**
   What the host order means for a fetched page. A URL naming fxggxt.com always
   gets a title (possibly empty), whatever other host it also names. Any other URL
   never gets tags, since only the fxggxt JSON-LD sets them, and never gets an
   empty title, and its performers are the generic extractor's. A URL naming
   likegay.net but not fxggxt.com gets the breadcrumb studio, whether or not it
   also names hutgay.com.
   */
  lemma {:induction false} DispatchOrder(url: string, normalize: string -> string, fetch: string -> Fetch)
    requires fetch(normalize(url)).Fetched?
    ensures Contains(normalize(url), FxggxtHost) ==> ScrapeSceneByUrl(url, normalize, fetch).title.Some?
    ensures !Contains(normalize(url), FxggxtHost) ==> ScrapeSceneByUrl(url, normalize, fetch).tags.None?
    ensures !Contains(normalize(url), FxggxtHost) && ScrapeSceneByUrl(url, normalize, fetch).title.Some? ==>
              ScrapeSceneByUrl(url, normalize, fetch).title.value != []
    ensures !Contains(normalize(url), FxggxtHost) &&
            (Contains(normalize(url), LikegayHost) || Contains(normalize(url), HutgayHost)) ==>
              var names := ExtractPerformers(fetch(normalize(url)).page.title);
              ScrapeSceneByUrl(url, normalize, fetch).performers == if names != [] then Some(names) else None
    ensures !Contains(normalize(url), FxggxtHost) && Contains(normalize(url), LikegayHost) ==>
              var bc := fetch(normalize(url)).page.breadcrumbs;
              ScrapeSceneByUrl(url, normalize, fetch).studio ==
                if |bc| > 1 && CleanText(bc[1]) != [] then Some(CleanText(bc[1])) else None
  {
  }

  /** Without an Article in the JSON-LD, the fxggxt title is the scene name parsed from the page title. */
  lemma {:induction false} FxggxtTitleFallback(url: string, page: Page)
    requires page.graph.None? || LastWhere(page.graph.value, IsArticle).None?
    ensures ScrapeFxggxt(url, Fetched(page)).title == Some(ExtractSceneName(page.title))
  {
    if page.graph.Some? {
      ReadGraphFields(Empty, page.graph.value);
    }
  }

  /** The last Article's cleaned headline is the fxggxt title whenever it is not blank. */
  lemma {:induction false} FxggxtTitleFromArticle(url: string, page: Page, k: nat)
    requires page.graph.Some? && LastWhere(page.graph.value, IsArticle) == Some(k)
    requires CleanText(page.graph.value[k].headline) != []
    ensures ScrapeFxggxt(url, Fetched(page)).title == Some(CleanText(page.graph.value[k].headline))
  {
    ReadGraphFields(Empty, page.graph.value);
  }

  /** A last Article whose headline cleans to "" does not supply the title: the page title's scene name does. */
  lemma {:induction false} BlankHeadline(url: string, page: Page, k: nat)
    requires page.graph.Some? && LastWhere(page.graph.value, IsArticle) == Some(k)
    requires CleanText(page.graph.value[k].headline) == []
    ensures ScrapeFxggxt(url, Fetched(page)).title == Some(ExtractSceneName(page.title))
  {
    ReadGraphFields(Empty, page.graph.value);
  }

  /** A studio named in the JSON-LD is kept; the page title is consulted only when none is. */
  lemma {:induction false} FxggxtStudio(url: string, page: Page)
    ensures var r := ScrapeFxggxt(url, Fetched(page));
            var fromGraph := if page.graph.Some? then LastWhere(page.graph.value, NamesStudio) else None;
            r.studio ==
              if fromGraph.Some? then Some(page.graph.value[fromGraph.value].sections.value[0])
              else if ExtractStudio(page.title) != [] then Some(ExtractStudio(page.title))
              else None
  {
    if page.graph.Some? {
      ReadGraphFields(Empty, page.graph.value);
    }
  }

  /**
   The second hyphen segment of "Studio - Middle - Rest" is the middle, when the
   two hyphens shown are the first two; the rest may hold anything.
   */
  lemma {:induction false} SecondSegment(studio: string, middle: string, rest: string)
    requires FirstCutAfter(studio, Dash) && FirstCutAfter(middle, Dash)
    ensures var parts := Split(studio + Dash + middle + Dash + rest, Dash);
            |parts| >= 2 && parts[1] == middle
  {
    assert studio + Dash + middle + Dash + rest == studio + Dash + (middle + Dash + rest);
    SplitPrefix(studio, Dash, middle + Dash + rest);
    SplitPrefix(middle, Dash, rest);
  }

  /** Two or more names joined by `" & "` as the second hyphen segment are what fxggxt reports. */
  lemma {:induction false} FxggxtPerformersRoundTrip(studio: string, names: seq<string>, rest: string)
    requires FirstCutAfter(studio, Dash) && |names| >= 2
    requires forall i :: 0 <= i < |names| ==> names[i] != [] && Trimmed(names[i]) && '&' !in names[i]
    requires FirstCutAfter(Join(names, " & "), Dash)
    ensures FxggxtPerformers(studio + Dash + Join(names, " & ") + Dash + rest) == Some(names)
  {
    var joined := Join(names, " & ");
    SecondSegment(studio, joined, rest);
    CharInJoin(names, " & ", 1);
    AmpersandSplitBack(names);
    StripAllBack(Split(joined, ['&']), names);
    NonEmptyNamesKeeps(names);
  }

  /**
   A page titled "Studio - P1 & P2 - Scene" with no JSON-LD, on fxggxt: title,
   studio and performers all come back out of the title.
   */
  lemma {:induction false} FxggxtTitleShape(url: string, page: Page, studio: string, names: seq<string>, scene: string)
    requires Contains(url, FxggxtHost) && page.graph.None?
    requires page.title == studio + Dash + Join(names, " & ") + Dash + scene
    requires studio != [] && IsClean(studio) && ',' !in studio && FirstCutAfter(studio, Dash)
    requires |names| >= 2
    requires forall i :: 0 <= i < |names| ==> names[i] != [] && Trimmed(names[i]) && '&' !in names[i]
    requires FirstCutAfter(Join(names, " & "), Dash)
    requires IsClean(scene) && !Contains(scene, Dash)
    ensures ScrapeFxggxt(url, Fetched(page)).title == Some(scene)
    ensures ScrapeFxggxt(url, Fetched(page)).studio == Some(studio)
    ensures ScrapeFxggxt(url, Fetched(page)).performers == Some(names)
  {
    var title := page.title;
    assert ExtractSceneName(title) == scene && ExtractStudio(title) == studio by {
      TitleRoundTrip(studio, names, scene);
    }
    assert FxggxtPerformers(title) == Some(names) by {
      FxggxtPerformersRoundTrip(studio, names, scene);
    }
    assert FromGraph(page) == Empty;
    var s1 := TitleFallback(Empty, title);
    assert s1.title == Some(scene) && s1.studio.None?;
    var s2 := PerformersFromTitle(s1, url, title);
    assert s2.performers == Some(names) && s2.title == Some(scene) && s2.studio.None?;
    var s3 := StudioFallback(s2, title);
    assert s3.studio == Some(studio);
    FxggxtSteps(url, page);
  }

  /** The same page on likegay: the generic extractor reads the studio segment and finds no performers. */
  lemma {:induction false} LikegayTitleShape(url: string, page: Page, studio: string, names: seq<string>, scene: string)
    requires page.title == studio + Dash + Join(names, " & ") + Dash + scene
    requires IsClean(studio) && ',' !in studio && FirstCutAfter(studio, Dash)
    requires FirstCutAfter(Join(names, " & "), Dash)
    requires scene != [] && IsClean(scene) && !Contains(scene, Dash)
    ensures ScrapeLikegay(url, Fetched(page)).title == Some(scene)
    ensures ScrapeLikegay(url, Fetched(page)).performers == None
  {
    TitleRoundTrip(studio, names, scene);
  }

  /** The title the scraper's comments give as the usual fxggxt shape. */
  lemma {:induction false} FxggxtExample(url: string, page: Page)
    requires Contains(url, FxggxtHost) && page.graph.None? && page.title == "S - P1 & P2 - N"
    ensures ScrapeFxggxt(url, Fetched(page)).title == Some("N")
    ensures ScrapeFxggxt(url, Fetched(page)).studio == Some("S")
    ensures ScrapeFxggxt(url, Fetched(page)).performers == Some(["P1", "P2"])
    ensures ExtractPerformers(page.title) == []
  {
    assert Join(["P1", "P2"], " & ") == "P1 & P2";
    assert page.title == "S" + Dash + Join(["P1", "P2"], " & ") + Dash + "N";
    NotContainsByChar("N", Dash, 1);
    FirstCutByChar("S", Dash, 1);
    FirstCutByChar("P1 & P2", Dash, 1);
    FxggxtTitleShape(url, page, "S", ["P1", "P2"], "N");
    assert ExtractPerformers(page.title) == [] by {
      TitleRoundTrip("S", ["P1", "P2"], "N");
    }
  }

  /**
   hutgay takes the studio from the text before the first " - " of the `<h1>`,
   stripped, unless that is empty or one of the performer names.
   */
  lemma {:induction false} HutgayStudioFromHeading(url: string, page: Page, raw: string, rest: string)
    requires page.h1 == raw + Dash + rest && FirstCutAfter(raw, Dash)
    ensures ScrapeHutgay(url, Fetched(page)).studio ==
              if Strip(raw) != [] && Strip(raw) !in ExtractPerformers(page.title) then Some(Strip(raw)) else None
  {
    SplitPrefix(raw, Dash, rest);
    assert page.h1[|raw|..|raw| + |Dash|] == Dash;
    ContainsWitness(page.h1, Dash, |raw|);
  }

  /**
   likegay takes the studio from the second breadcrumb link, cleaned, and only when
   the cleaned text is not empty; with fewer than two links there is no studio.
   */
  lemma {:induction false} LikegayStudioFromBreadcrumb(url: string, page: Page)
    ensures |page.breadcrumbs| <= 1 ==> ScrapeLikegay(url, Fetched(page)).studio.None?
    ensures |page.breadcrumbs| > 1 ==>
              ScrapeLikegay(url, Fetched(page)).studio ==
                if CleanText(page.breadcrumbs[1]) != [] then Some(CleanText(page.breadcrumbs[1])) else None
    ensures |page.breadcrumbs| > 1 && page.breadcrumbs[1] != [] && IsClean(page.breadcrumbs[1]) ==>
              ScrapeLikegay(url, Fetched(page)).studio == Some(page.breadcrumbs[1])
  {
    if |page.breadcrumbs| > 1 && page.breadcrumbs[1] != [] && IsClean(page.breadcrumbs[1]) {
      CleanTextFixed(page.breadcrumbs[1]);
    }
  }
}
