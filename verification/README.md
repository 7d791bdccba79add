# Gay tube scraper: the text-extraction core in Dafny

`gay_tube_scraper.py` is a scene scraper. Given a scene URL, it fetches the page
from one of three tube sites and turns the page title, JSON-LD, breadcrumbs or
heading into a scene record (title, studio, performers, tags, url). Given a
file name ("fragment"), it guesses the same record from the name alone. Every
decision it makes is a string rule. This project models those rules:

- `Strings` (strings.dfy): the Python `str` operations the rules are built
  from (`in`, `split`, `strip`, `isdigit`) over `seq<char>`. `Replace` models
  the `re.sub` calls with literal patterns in `clean_text`. `Find` and `Join`
  are not called by the scraper: they are proof tools, for locating the first
  occurrence and stating the split/join round trips.
- `Clean` (clean.dfy): `clean_text`. It makes five literal entity
  substitutions in order, collapses each whitespace run to one space, then
  strips the ends.
- `TitleParse` (title.dfy): `extract_performers_from_title`,
  `extract_scene_name_from_title` and `extract_studio_from_title`. Each cuts a
  title on `" - "` (or, for two of them, on the en-dash form `" – "`) and picks
  a segment.
- `Scene` (scene.dfy): the scene record. Every field is an `Option`; a key the
  scraper never sets is `None`. It also holds the blank-name filter the
  scraper applies again and again.
- `Sites` (sites.dfy): the record assembly of `scrape_fxggxt`,
  `scrape_likegay` and `scrape_hutgay` once the page is parsed, and the
  `scrape_scene_by_url` dispatcher. The fetched page is an input: either
  `Failed` or the parsed `Page`.
- `Pattern` (pattern.dfy): the regular expression `^(.+?)\s*-\s*(.+?)\s+(.+?)$`
  as the backtracking search Python's engine performs. Lazy groups try the
  shortest text first. Greedy runs try the longest run first and give back one
  character at a time. The first match found is characterized as the preferred
  one among all matches.
- `Fragment` (fragment.dfy): `scrape_scene_by_fragment`. It tries the
  expression first, then the manual split on `"_-_"`, then the loose fallback.

The model follows the code. In several places the code differs from what its
comments suggest:

- On `"Studio - P1 & P2 - Scene"`, the generic performer extractor looks only
  at the first segment (the studio) and finds no performers. Only the
  fxggxt-specific rule reads the second segment (`TitleParse.TitleRoundTrip`,
  `Sites.FxggxtExample`).
- On the comment's own example `"Studio - Scene Name Actor1, Actor2"`, the
  lazy scene group stops at the first whitespace. The title is `"Scene"` and
  `"Name Actor1"` becomes a performer (`Fragment.SpacedDashExample`). The
  hyphen needs no spaces around it (`Fragment.TightDash`).
- `pattern2` is compiled but never used. When the expression fails, the
  manual `"_-_"` split is what reads `"STUDIO_-_SCENE_-_A_-_B_-_C"`
  (`Fragment.UnderscoreExample`).
- `clean_text` is not idempotent: `"&amp;amp;"` cleans to `"&amp;"` and then
  to `"&"` (`Clean.CleanTextNotIdempotent`). It is idempotent on text whose
  first cleaning leaves no `&` (`Clean.CleanTextIdempotentWithoutAmpersand`).
- The fxggxt JSON-LD loop has no `break`. A later `Article` node overwrites
  the fields an earlier one set (`Sites.ReadGraphFields`).
- A studio can be the empty string. For example, the expression's studio
  group can clean to `""`.

## Model

| member | source | states |
|---|---|---|
| Clean.CleanText | gay_tube_scraper.py:26-37 | A falsy (empty) text gives `""`. Otherwise the result is trimmed and never has two whitespace characters in a row, and the only whitespace it holds is the plain space. |
| Clean.CleanTextFrom | gay_tube_scraper.py:30-36 | Every character of the cleaned text is a plain space or occurs in the entity-decoded input: collapsing and stripping invent nothing. |
| Clean.CleanTextIsWords | gay_tube_scraper.py:31-36 | Cleaning equals taking the maximal whitespace-free words of the entity-decoded text and joining them with single spaces. This is an independent description of "collapse whitespace, then strip". |
| Clean.CleanTextFixed | gay_tube_scraper.py:26-37 | Text that is already single-spaced, trimmed and free of `&` is its own cleaning. |
| Clean.CleanTextIdempotentWithoutAmpersand | gay_tube_scraper.py:26-37 | Cleaning twice is the same as cleaning once whenever the first result holds no `&`. |
| Clean.CleanTextNotIdempotent | gay_tube_scraper.py:31-37 | `"&amp;amp;"` cleans to `"&amp;"`, and that cleans to `"&"`, so in general cleaning is not idempotent. |
| Clean.CleanTextChars | gay_tube_scraper.py:30-36 | Without `&`, cleaning introduces no character except the plain space. |
| Clean.CleanTextNonBlank | gay_tube_scraper.py:28-36 | An `&`-free text with something besides whitespace never cleans to `""`. |
| Clean.CleanLeadingSpace | gay_tube_scraper.py:36 | A clean name after one leading space cleans back to the name. |
| TitleParse.ExtractPerformers | gay_tube_scraper.py:39-62 | With neither separator in the title there are no performers. Every name returned is non-empty and free of `&`. |
| TitleParse.CleanNonBlankNames | gay_tube_scraper.py:61 | About `CleanNonBlank`, the comprehension at that line. Cleaning the non-blank pieces of an `&` split leaves no empty name and no `&`. |
| TitleParse.CleanNonBlankOfClean | gay_tube_scraper.py:61 | Clean, non-empty names pass the strip-and-clean filter unchanged. |
| TitleParse.AmpersandOverComma | gay_tube_scraper.py:53-58 | A segment holding both `&` and `,` is split on `&` only: "A, B & C - Scene" gives the performers `["A, B", "C"]`. |
| TitleParse.FirstSegmentIs | gay_tube_scraper.py:44-58 | When no spaced separator starts before the one that ends `segment`, `" - "` is in force if it occurs and `" – "` otherwise; the split on it is `segment` followed by the split of the rest, and the performers are the cleaned non-blank pieces of `segment` (`CleanNonBlank` of `PerformerPieces`, the `&`-else-`,` split of lines 53-58). The segment may hold unspaced hyphens ("Jean-Luc"), and spaced en dashes when the hyphen form is in force. |
| TitleParse.PerformersAmpersandRoundTrip | gay_tube_scraper.py:39-62 | Two or more clean names joined by `" & "`, in front of a `" - "` that is the first spaced hyphen of the title, are exactly the performers extracted. The names may hold hyphens and commas; the rest of the title may hold anything. |
| TitleParse.PerformersCommaRoundTrip | gay_tube_scraper.py:39-62 | Two or more clean names without `,`, joined by `", "` in front of the first spaced en dash of a title with no spaced hyphen, are exactly the performers extracted. The names may hold unspaced hyphens; they hold no `&`, since a `&` would make the extractor split on `&` instead. |
| TitleParse.ExtractSceneName | gay_tube_scraper.py:64-83 | With neither separator in the title the scene name is `""`. |
| TitleParse.SceneNameIsLastSegment | gay_tube_scraper.py:73-82 | When a separator occurs, the title is `head + sep + raw` where the split of the title is the split of `head` followed by `raw`, `raw` holds no separator, and the scene name is `raw` cleaned. `raw` is the last piece of the split, not the text after the last occurrence: for "A - - B" it is "- B". |
| TitleParse.HyphenPreferred | gay_tube_scraper.py:44-101 | On `head + " - " + tail`, where no spaced hyphen starts before that one and none is in `tail`, all three extractors agree: the studio is `head` cleaned, the scene name is `tail` cleaned, and the performers come from `head`. En dashes in either part are ignored. |
| TitleParse.EnDashOnly | gay_tube_scraper.py:44-101 | On `head + " – " + tail` with no spaced hyphen anywhere, no earlier spaced en dash and none in `tail`, the scene name is `tail` cleaned and the performers come from `head`, but the studio is `""`, because the studio extractor looks for `" - "` only. |
| TitleParse.ExtractStudio | gay_tube_scraper.py:85-102 | Without `" - "` in the title the studio is `""`. |
| TitleParse.StudioIsFirstSegment | gay_tube_scraper.py:94-101 | With `" - "` in the title, the studio is the cleaned text before its first occurrence. |
| TitleParse.ThreeSegments | gay_tube_scraper.py:39-102 | For "Studio - Middle - Scene" (clean studio without `,`, and the two hyphens shown being the first two; the studio and middle may hold unspaced hyphens), the studio and scene come back and the performers are `[]`. |
| TitleParse.TitleRoundTrip | gay_tube_scraper.py:39-102 | For "Studio - P1 & P2 - Scene", the studio and scene come back and the generic performer extractor returns `[]`. |
| Scene.NonEmptyNames | gay_tube_scraper.py:313 | The `if p` filter keeps exactly the non-empty names, and no others. |
| Scene.NonEmptyNamesConcat | gay_tube_scraper.py:313 | The filter works name by name: filtering `a + b` gives the filtered `a` followed by the filtered `b`, so order and repetitions are kept. |
| Scene.NonEmptyNamesKeeps | gay_tube_scraper.py:313 | A list without empty names passes the filter unchanged. |
| Sites.LastWhere | gay_tube_scraper.py:136-147 | Finds the last node satisfying a test. Every later node fails the test, and `None` means no node passes. |
| Sites.ReadGraphFields | gay_tube_scraper.py:136-147 | Characterizes `ReadGraph` (the loop) and `ApplyNode` (one pass of it). After the JSON-LD loop, the title comes from the last Article, the studio from the last Article with a non-empty section list, and the tags from the last Article with a keyword list. A field no node sets is unchanged, and performers and url are never touched. |
| Sites.FxggxtPerformers | gay_tube_scraper.py:158-164 | The fxggxt rule gives names that are non-empty, stripped and free of `&`, or leaves the field unset. |
| Sites.TitleFallback | gay_tube_scraper.py:150-152 | Only the title changes, and afterwards it is always present. A non-empty title is kept as it is; a missing or empty title becomes the scene name parsed from the page title. |
| Sites.PerformersFromTitle | gay_tube_scraper.py:154-169 | Only the performers change. |
| Sites.StudioFallback | gay_tube_scraper.py:171-175 | Only the studio changes. |
| Sites.ScrapeFxggxt | gay_tube_scraper.py:110-184 | A failed fetch gives `{}`. A fetched page always gives a title (possibly `""`) and the url the scraper was called with. |
| Sites.FxggxtTitleFallback | gay_tube_scraper.py:134-152 | Without an Article node, the title is the scene name parsed from the page title. |
| Sites.FxggxtTitleFromArticle | gay_tube_scraper.py:136-152 | A non-blank cleaned headline of the last Article is the title. |
| Sites.BlankHeadline | gay_tube_scraper.py:136-152 | A last Article whose headline cleans to `""` leaves the title blank, so the fallback replaces it with the scene name parsed from the page title. |
| Sites.FxggxtStudio | gay_tube_scraper.py:140-175 | The studio is the first section of the last Article that has sections. Otherwise it is the studio parsed from the title when that is non-empty, and otherwise it is absent. |
| Sites.SecondSegment | gay_tube_scraper.py:159-161 | The second `" - "` piece of "Studio - Middle - Rest" is the middle, when the two hyphens shown are the first two spaced hyphens; the studio and middle may hold unspaced hyphens, and the rest anything. |
| Sites.FxggxtPerformersRoundTrip | gay_tube_scraper.py:158-164 | Two or more non-empty, stripped, `&`-free names joined by `" & "` as the second `" - "` piece are exactly the fxggxt performers, when the hyphens around them are the first two spaced hyphens. The names may hold unspaced hyphens. |
| Sites.FxggxtTitleShape | gay_tube_scraper.py:110-180 | On fxggxt with no JSON-LD, "Studio - P1 & P2 - Scene" gives title Scene, studio Studio and performers `[P1, P2]`. |
| Sites.FxggxtExample | gay_tube_scraper.py:155-175 | On "S - P1 & P2 - N", fxggxt reports `["P1","P2"]`, while the generic performer extractor returns `[]` for the same title. |
| Sites.ScrapeLikegay | gay_tube_scraper.py:186-225 | A failed fetch gives `{}`. Otherwise the url is set and there are no tags. Title and studio, when present, are non-empty and trimmed, and performers, when present, are a non-empty list of non-empty names. |
| Sites.LikegayTitleShape | gay_tube_scraper.py:196-209 | On likegay, "Studio - P1 & P2 - Scene" gives title Scene and no performers. |
| Sites.LikegayStudioFromBreadcrumb | gay_tube_scraper.py:212-216 | With at most one breadcrumb there is no studio. Otherwise the studio is the second breadcrumb cleaned, or absent when that cleans to `""`; a clean, non-empty second breadcrumb is the studio as it is. |
| Sites.ScrapeHutgay | gay_tube_scraper.py:227-267 | A failed fetch gives `{}`. A studio is set only when the heading contains `" - "`, it is non-empty and trimmed, and it never equals one of the performers. |
| Sites.HutgayStudioFromHeading | gay_tube_scraper.py:254-258 | For any heading `raw + " - " + rest` where `raw` holds no earlier spaced hyphen, the studio is `raw` stripped, unless that is empty or equals one of the performers the title gives. |
| Sites.ScrapeSceneByUrl | gay_tube_scraper.py:269-281 | A normalized URL that contains none of the three hosts gives `{}`. A failed fetch gives `{}`. Any non-empty record carries the normalized URL. |
| Sites.DispatchOrder | gay_tube_scraper.py:269-281 | On a fetched page, a URL naming fxggxt always gets a title (the fxggxt scraper wins over the other two). A URL not naming fxggxt never gets tags and never an empty title, and if it names likegay or hutgay its performers are those of the generic title extractor. A URL naming likegay but not fxggxt gets the likegay breadcrumb studio even when it also names hutgay (likegay wins over hutgay). |
| Sites.DispatchedFxggxtPerformers | gay_tube_scraper.py:158-169 | Through the dispatcher, fxggxt performers always come from the fxggxt rule. The generic branch at line 165 is never taken. |
| Pattern.Pattern1 | gay_tube_scraper.py:294-301 | The result is a match of the expression, and it is the one the engine prefers among all matches (shortest studio, then longest whitespace, then shortest scene, then longest run before the performers). `None` means no match exists. |
| Pattern.LayoutMatches | gay_tube_scraper.py:294 | `studio sp1 "-" sp2 scene " " rest`, with whitespace-only `sp1`/`sp2` and a one-word scene, matches the expression. |
| Pattern.Pattern1Layout | gay_tube_scraper.py:294-302 | On such a text the engine's match is exactly: studio before the hyphen, scene up to the first whitespace, performers after it. |
| Pattern.MatchNeedsLateSpace | gay_tube_scraper.py:294 | Every match needs whitespace at least two characters after some hyphen. |
| Pattern.NoSpaceNoMatch | gay_tube_scraper.py:294 | A text without whitespace never matches. |
| Fragment.RestNamesRoundTrip | gay_tube_scraper.py:307-313 | Two or more clean names without `,`, written as "A, B, C", come back out of the performers group (`RestNames`, lines 308-311) in order, and none is dropped by the blank filter. |
| Fragment.FromMatch | gay_tube_scraper.py:301-313 | A match always sets studio, title and performers, and every performer is non-empty. |
| Fragment.FromUnderscores | gay_tube_scraper.py:316-325 | The `"_-_"` attempt succeeds exactly when the split on `"_-_"` has at least three pieces (so only when `"_-_"` occurs). It then sets studio, title and performers, and never tags or url. |
| Fragment.PlausibleNames | gay_tube_scraper.py:343 | Keeps exactly the pieces longer than two characters that are not all digits. |
| Fragment.PlausibleNamesConcat | gay_tube_scraper.py:343 | The filter works piece by piece: filtering `a + b` gives the filtered `a` followed by the filtered `b`, so order and repetitions are kept. |
| Fragment.PickNames | gay_tube_scraper.py:337-345 | Gives the plausible pieces for the first separator that occurs and yields any. It is empty exactly when no separator does. |
| Fragment.Fallback | gay_tube_scraper.py:328-348 | Studio and title, read by `DashFields` (lines 329-334), are set exactly when `" - "` occurs. Performers are set exactly when some separator yields plausible names. |
| Fragment.ScrapeSceneByFragment | gay_tube_scraper.py:283-350 | Never sets tags or url. A match of the expression sets studio, title and performers. The result is `{}` exactly when the expression fails, the `"_-_"` split fails, `" - "` is absent and no separator yields names. |
| Fragment.EmptyTitle | gay_tube_scraper.py:291-350 | An empty file name gives `{}`. |
| Fragment.FragmentLayout | gay_tube_scraper.py:294-313 | On `studio sp1 "-" sp2 scene " " rest`, the record is the cleaned studio, the cleaned one-word scene and the comma-split performers. |
| Fragment.SpacedDashPair | gay_tube_scraper.py:293-313 | "studio - scene a, b" (one-word scene) gives title scene, studio studio and performers `[a, b]`. |
| Fragment.SpacedDashExample | gay_tube_scraper.py:293-313 | "Studio - Scene Name Actor1, Actor2" gives title "Scene", studio "Studio" and performers `["Name Actor1","Actor2"]`. |
| Fragment.TightDash | gay_tube_scraper.py:294-313 | "studio-scene name" matches without spaces around the hyphen. |
| Fragment.UnderscoreRoundTrip | gay_tube_scraper.py:316-325 | Three or more clean, whitespace-free, hyphen-free parts joined by `"_-_"` come back as studio, title and one performer per later part. The parts may hold underscores ("Big_Studio"). |
| Fragment.UnderscoreExample | gay_tube_scraper.py:316-325 | "STUDIO_-_SCENE_-_A_-_B_-_C" gives studio "STUDIO", title "SCENE" and performers `["A","B","C"]`. |
| Fragment.NoSeparators | gay_tube_scraper.py:337-345 | Without `,`, `&` or `_` the fallback finds no performers. |
| Fragment.FallbackStudioScene | gay_tube_scraper.py:328-334 | "studio - scene" with a one-word scene and no separators gives just studio and title. |
| Fragment.FallbackNames | gay_tube_scraper.py:336-348 | Clean pieces without `,` or hyphen, joined by `", "`, give exactly the plausible pieces as performers, and no studio or title. The pieces may hold `_` but no `&`. |
| Fragment.FallbackAllNames | gay_tube_scraper.py:336-348 | When every piece is plausible, all of them are the performers. |
| Fragment.FilterExample | gay_tube_scraper.py:343 | "Jo, 2024, Maxi" keeps only "Maxi": "Jo" is too short and "2024" is a number. |

## Left out

- `requests.get` and `raise_for_status` are network calls. A scraper receives `Fetched(page)` or `Failed`, and `Failed` stands for any exception, which gives `{}`.
- BeautifulSoup and `json.loads` are foreign parsers. The page title, the `@graph` of the first JSON-LD object that has one, the breadcrumb texts and the first heading are `Page` fields.
- `normalize_url` depends on `urllib.parse`. It is the function parameter `normalize` of `Sites.ScrapeSceneByUrl`.
- Exceptions raised while assembling are not modelled, apart from a failed fetch giving `{}`. Examples are a `<title>` whose `.string` is `None`, a `@graph` that is not a list, a node that is not an object, or a non-string headline or section.
- JSON values other than strings and lists are not modelled. `articleSection[0]` is taken to be a string, and a missing `headline` is `""`.
- A fragment whose `title` is JSON `null` is not modelled. A missing title is `""`.
- `pattern2` is compiled but never used, so there is nothing to model.
- `debug_print`, `read_json_input` and the command-line entry point are process I/O.
- Whitespace for `\s` and `str.strip()` is space, `\t`, `\n`, `\r`, `\x0b` and `\x0c`. Python also counts `\x1c`-`\x1f`, `\x85`, `\xa0` and the other Unicode whitespace. Digits for `str.isdigit()` are ASCII `0`-`9`; Python also accepts other Unicode digits.
- Sites.ScrapeLikegay: its own contract states only the shape of the record. The values it reads are stated by `Sites.LikegayTitleShape` and `Sites.LikegayStudioFromBreadcrumb`.
- TitleParse.ExtractPerformers: its own contract states only the shape of the names. The segment it reads and the split it makes are stated by `TitleParse.FirstSegmentIs`, `TitleParse.PerformersAmpersandRoundTrip`, `TitleParse.PerformersCommaRoundTrip` and `TitleParse.AmpersandOverComma`.
