# sidekick-notepad-theme, modelled in Dafny

The site is a notebook page. Posts sit on a dotted grid or in a task list, connector lines
join grid posts, and a click opens a post's markdown in a modal. Two front ends share one
post index:

- a vanilla JavaScript page (`js/post-manager.js`);
- a React app (`src/`).

A Python tool (`scripts/post-creator.py`) writes the index.

This project models the logic of those programs. It does not model their DOM plumbing.

- **Converter.** `MarkdownConverter` models the regex markdown converter literally:
  - `^…$` with the `m` flag runs line by line, with JavaScript's four line terminators;
  - `(.*?)` matches lazily, up to the nearest closing delimiter on the same line;
  - the link rule backtracks over `](` candidates;
  - the greedy `<li>.*</li>` with the `s` flag reaches to the last `</li>`;
  - `split(/\n\s*\n/)` and `trim()` use JavaScript's whitespace set.

  The legacy copy, which has no empty-input guard, is `PostManager.ConvertMarkdownToHtml`.
- **Records.** `PostData` holds the index records and the value rules both front ends
  apply: `x || fallback` (where `""` is falsy), the `#post-<id>` link, the type filter and the
  click rule.
- **React views.** `GridPost` and `TaskItem` are the two React components, each a function
  from a post to what it renders.
- **Connector overlay.** `ConnectionsOverlay` models `updateLines`. It also models the
  lookup `.grid-post[data-post-id="…"]`, which both front ends use. The page is a sequence of
  elements in document order, each with its classes, its `data-post-id` and its bounding box.
  `Geometry` gives boxes exact `real` coordinates and computes the centre points.
- **Legacy page.** `PostManager.Manager` is the legacy page object. Its fields are the
  posts, the connections, and the elements it has appended to the grid, the task list and the
  overlay. Its methods are the render loops, proved against specification functions.
- **Content caches.** `PostContext.PostProvider` and `UseMarkdown.MarkdownLoader` are the two
  session caches of post content, each a class with a `map` field. The result of each fetch
  is a parameter (`Fetch`). A ghost log records every fetch, together with the state of the
  flags while it ran.
- **Authoring tool.** `PostCreator.PostIndex` holds the index as the authoring tool edits it.
  It covers fresh ids, new grid and task records, and validated connections.

## Model

| member | source | states |
|---|---|---|
| Text.ParseDecimal | scripts/post-creator.py:82-86 | `int(s)` succeeds exactly on a non-empty run of decimal digits; anything else is the `ValueError` case |
| Text.NatToString | scripts/post-creator.py:88 | the decimal text of a number is non-empty and all digits |
| Text.ParsePrinted | scripts/post-creator.py:83-88 | parsing the printed form of `n` gives back `n` |
| Text.Lower | scripts/post-creator.py:110 | `lower()` keeps the length and lowers each ASCII capital |
| Text.ReplaceChar | scripts/post-creator.py:110 | `replace(' ', '-')` swaps exactly the matching characters and keeps the rest |
| MarkdownConverter.LineEnd | src/utils/markdownConverter.js:12 | `(.*$)` under the `m` flag ends at the first line terminator |
| MarkdownConverter.LinesReassemble | src/utils/markdownConverter.js:12-14 | the text cut at its line terminators is single-line pieces that interleave back to the text |
| MarkdownConverter.RewriteLinesByLine | src/utils/markdownConverter.js:12-14 | a line-anchored rewrite changes each line on its own and keeps every line break |
| MarkdownConverter.RewriteLinesOneLine | src/utils/markdownConverter.js:12-14 | on a single line, the global multiline rewrite is the one-line rewrite |
| MarkdownConverter.Headers | src/utils/markdownConverter.js:12-14 | no contract of its own: the h1, h2 and h3 line rewrites in order, characterised by HeadersOneLine and HeaderLevelOne/Two/Three |
| MarkdownConverter.HeadersOneLine | src/utils/markdownConverter.js:12-14 | the three header rules apply to a line in order h1, h2, h3 |
| MarkdownConverter.HeaderLevelOne | src/utils/markdownConverter.js:12 | for one-line `T`, `# T` becomes `<h1>T</h1>` |
| MarkdownConverter.HeaderLevelTwo | src/utils/markdownConverter.js:13 | for one-line `T`, `## T` becomes `<h2>T</h2>`, so it never becomes h1 |
| MarkdownConverter.HeaderLevelThree | src/utils/markdownConverter.js:14 | for one-line `T`, `### T` becomes `<h3>T</h3>` |
| MarkdownConverter.FindOnLine | src/utils/markdownConverter.js:17-18 | lazy `(.*?)` closes at the nearest delimiter on the same line, or fails when none is on that line |
| MarkdownConverter.PairRule | src/utils/markdownConverter.js:17-18 | no contract of its own: a global lazy `D(.*?)D` replacement, characterised by FindOnLine, PairRuleAbsent and BoldBeforeItalic |
| MarkdownConverter.Strong | src/utils/markdownConverter.js:17 | no contract of its own: PairRule with `**` and `<strong>`, characterised by BoldBeforeItalic and BoldParagraph |
| MarkdownConverter.Emphasis | src/utils/markdownConverter.js:18 | no contract of its own: PairRule with `*` and `<em>`, characterised by PairRuleAbsent and BoldBeforeItalic |
| MarkdownConverter.PairRuleAbsent | src/utils/markdownConverter.js:17-18 | a text without the delimiter's character passes the bold or italic rule unchanged |
| MarkdownConverter.BoldBeforeItalic | src/utils/markdownConverter.js:17-18 | for a one-line `x` without `*`, `**x**` becomes `<strong>x</strong>` and the later italic rule leaves it without `<em>` |
| MarkdownConverter.LinkMatch | src/utils/markdownConverter.js:21 | the link match is `[`, a label and `](` on one line, then a target and the nearest `)` on the same line |
| MarkdownConverter.Links | src/utils/markdownConverter.js:21 | no contract of its own: the global link replacement, characterised by LinkMatch, LinksAbsent and LinkRule |
| MarkdownConverter.LinksAbsent | src/utils/markdownConverter.js:21 | a text without `[` passes the link rule unchanged |
| MarkdownConverter.LinkRule | src/utils/markdownConverter.js:21 | for a one-line label `l` without `]` and a one-line target `t` without `)`, `[l](t)` becomes `<a href="t">l</a>` (a `)` inside the target would close it early, as the lazy group does) |
| MarkdownConverter.ListItems | src/utils/markdownConverter.js:24 | no contract of its own: the `* ` line rewrite, characterised by ListItemLine and RewriteLinesByLine |
| MarkdownConverter.ListItemLine | src/utils/markdownConverter.js:24 | a line `* t` becomes `<li>t</li>` |
| MarkdownConverter.LastStartSpec | src/utils/markdownConverter.js:25 | finds the last occurrence of a pattern at or before a bound, or reports that there is none |
| MarkdownConverter.ListSpan | src/utils/markdownConverter.js:25 | a list match that starts at the beginning of the text ends after a full `<li>` and `</li>`, inside the text |
| MarkdownConverter.WrapList | src/utils/markdownConverter.js:25 | no contract of its own: the greedy `gms` list wrap, characterised by ListSpan, WrapListOnce, WrapListNoClose and WrapListNone |
| MarkdownConverter.WrapListOnce | src/utils/markdownConverter.js:25 | the span from the first `<li>` to the last `</li>` gets exactly one `<ul>…</ul>` and the rest is kept |
| MarkdownConverter.WrapListNoClose | src/utils/markdownConverter.js:25 | without `</li>` the list wrap changes nothing |
| MarkdownConverter.WrapListNone | src/utils/markdownConverter.js:25 | without an `<li>…</li>` span the list wrap changes nothing |
| MarkdownConverter.BlankSepAt | src/utils/markdownConverter.js:28 | `\n\s*\n` matched greedily at a position: the longest blank separator starting there, or none |
| MarkdownConverter.SplitFrom | src/utils/markdownConverter.js:28 | there is one more piece than separators; the split itself is characterised by SplitCuts, SplitGreedy, ParagraphsShape and ParagraphsOneChunk |
| MarkdownConverter.SplitCuts | src/utils/markdownConverter.js:28 | the split pieces interleaved with the separators rebuild the text, and every separator is blank |
| MarkdownConverter.SplitGreedy | src/utils/markdownConverter.js:28 | the split is the leftmost-longest one: each separator is the longest `\n\s*\n` match at its position, no match starts earlier in the piece before it, and pieces and separators follow each other without gaps |
| MarkdownConverter.ParagraphsShape | src/utils/markdownConverter.js:28-37 | output = the chunks between blank separators, cut leftmost-longest as in SplitGreedy, each chunk without a blank line, each wrapped or not, joined by one `\n` |
| MarkdownConverter.Trim | src/utils/markdownConverter.js:30-32 | the result is empty iff the text is all whitespace, does not start or end with whitespace, holds only characters of the text, and is the text itself when that has no whitespace at either end |
| MarkdownConverter.TrimEmpty | src/utils/markdownConverter.js:30-32 | `trim()` is empty exactly when every character is whitespace |
| MarkdownConverter.TrimInside | src/utils/markdownConverter.js:30-32 | `trim()` keeps only characters of the input |
| MarkdownConverter.TrimKeeps | src/utils/markdownConverter.js:30-32 | a text that neither starts nor ends with whitespace is its own trim |
| MarkdownConverter.WrapChunk | src/utils/markdownConverter.js:29-36 | no contract of its own: `<p>`-wrap unless the trimmed chunk is empty or starts with `<h` or `<ul`, characterised by WrapAll, PlainText and BoldParagraph |
| MarkdownConverter.Paragraphs | src/utils/markdownConverter.js:28-37 | no contract of its own: split, map and join, characterised by ParagraphsShape and ParagraphsOneChunk |
| MarkdownConverter.WrapAll | src/utils/markdownConverter.js:28-36 | the chunk rule applies to each chunk in place: `<p>…</p>` unless blank or starting with `<h` or `<ul` |
| MarkdownConverter.ParagraphsOneChunk | src/utils/markdownConverter.js:28-37 | a text with no blank line is a single chunk |
| MarkdownConverter.Pipeline | src/utils/markdownConverter.js:9-37 | no contract of its own: the rule chain in source order, characterised by PipelineEmpty, InlineUntouched, BlockUntouched and the whole-conversion lemmas |
| MarkdownConverter.ConvertMarkdownToHtml | src/utils/markdownConverter.js:6-40 | no contract of its own: the empty-input guard, then Pipeline; characterised by PipelineEmpty, PlainText, HeadingOne/Two/Three and BoldParagraph |
| MarkdownConverter.PipelineEmpty | src/utils/markdownConverter.js:7 | empty input gives the empty string, and the rule chain alone would give it too |
| MarkdownConverter.InlineUntouched | src/utils/markdownConverter.js:17-21 | a text with no `*` or `[` passes the bold, italic and link rules unchanged |
| MarkdownConverter.BlockUntouched | src/utils/markdownConverter.js:24-37 | a text without `*`, `<li>` or blank lines is one chunk for the paragraph rule |
| MarkdownConverter.PlainText | src/utils/markdownConverter.js:12-37 | a non-blank text without `#`, `*`, `[`, `<` or blank lines becomes `<p>` + text + `</p>` |
| MarkdownConverter.HeadingOne | src/utils/markdownConverter.js:6-40 | for one-line `T` without `#`, `*`, `[` or `<` (other text goes through the inline rules too: `# a*b*` gives `<h1>a<em>b</em></h1>`), the whole conversion turns `# T` into `<h1>T</h1>` with no `<p>` |
| MarkdownConverter.HeadingTwo | src/utils/markdownConverter.js:6-40 | for one-line `T` without `#`, `*`, `[` or `<`, the whole conversion turns `## T` into `<h2>T</h2>` |
| MarkdownConverter.HeadingThree | src/utils/markdownConverter.js:6-40 | for one-line `T` without `#`, `*`, `[` or `<`, the whole conversion turns `### T` into `<h3>T</h3>` |
| MarkdownConverter.BoldParagraph | src/utils/markdownConverter.js:6-40 | for one-line `x` without `#`, `*`, `[` or `<`, the whole conversion turns `**x**` into `<p><strong>x</strong></p>` |
| PostData.OrElse | src/components/Grid/GridPost.jsx:19-24 | `v \|\| fallback` is the value when present and non-empty, else the fallback |
| PostData.ListOr | js/post-manager.js:32-33 | a missing list is the empty list |
| PostData.TextStyleOf | src/components/Tasks/TaskItem.jsx:18-23 | each of font, colour, size and weight is the style block's value when that is present and non-empty, and `inherit` otherwise (so never empty, and all `inherit` without styles) |
| PostData.Href | js/post-manager.js:56 | the link is a truthy `url`, else `#post-` followed by the id |
| PostData.HrefNamesPost | src/components/Grid/GridPost.jsx:30 | without a url the link's anchor names the post's own id |
| PostData.HandleClick | src/components/Grid/GridPost.jsx:7-12 | navigation is cancelled and the post opened exactly when `showContent !== false` |
| PostData.OfKind | js/post-manager.js:51 | the type filter keeps only posts of that type, each from the input |
| PostData.OfKindAppend | js/post-manager.js:51 | the filter keeps index order (it distributes over concatenation) |
| PostData.OfKindComplete | js/post-manager.js:101 | every post of the type survives the filter |
| Geometry.CentreIn | js/post-manager.js:190-193 | the end point is the box's centre minus the grid's origin |
| Geometry.CentreShiftInvariant | src/components/Shared/ConnectionsOverlay.jsx:21-24 | moving grid and post together leaves the end point where it was |
| Geometry.CentreInsideBox | src/components/Shared/ConnectionsOverlay.jsx:21-24 | the end point lies inside the post's box in grid coordinates |
| ConnectionsOverlay.Query | js/post-manager.js:180-181 | the lookup gives the box of the first `grid-post` element with that id, or nothing when there is none |
| ConnectionsOverlay.WidthOr | src/components/Shared/ConnectionsOverlay.jsx:33 | `width \|\| 2`: a missing width and a width of 0 both become 2 |
| ConnectionsOverlay.MakeLine | src/components/Shared/ConnectionsOverlay.jsx:13-35 | a line exists exactly when both ends resolve; its id is `from-to`, its ends are the centres, colour defaults to `#888`, width to 2, `dashed` passes through |
| ConnectionsOverlay.MapLines | src/components/Shared/ConnectionsOverlay.jsx:12 | one optional line per connection, in order |
| ConnectionsOverlay.Resolved | src/components/Shared/ConnectionsOverlay.jsx:16 | the connections kept are ones whose both ends resolve |
| ConnectionsOverlay.ComputeLines | src/components/Shared/ConnectionsOverlay.jsx:12-36 | no contract of its own: the map then `filter(Boolean)`, characterised by LinesFollowResolved, AllResolvedAllDrawn and NoGridPostNoLines |
| ConnectionsOverlay.LinesFollowResolved | src/components/Shared/ConnectionsOverlay.jsx:12-36 | one line per resolving connection, in connection order, the unresolved ones dropped |
| ConnectionsOverlay.AllResolvedAllDrawn | src/components/Shared/ConnectionsOverlay.jsx:12-36 | when every connection resolves, none is dropped |
| ConnectionsOverlay.OneResolvedOneLine | src/components/Shared/ConnectionsOverlay.jsx:12-36 | a resolving connection on its own gives exactly its line |
| ConnectionsOverlay.NoGridPostNoLines | src/components/Shared/ConnectionsOverlay.jsx:13-16 | a page without a `grid-post` element gives no lines |
| ConnectionsOverlay.UpdateLines | src/components/Shared/ConnectionsOverlay.jsx:8-39 | with no grid, no overlay or no connections the previous lines stay; otherwise the line set is replaced |
| ConnectionsOverlay.UpdateIdempotent | src/components/Shared/ConnectionsOverlay.jsx:38 | recomputing with the same inputs and layout gives the same lines |
| GridPost.Style | src/components/Grid/GridPost.jsx:14-26 | the span is `[x, x+width)` by `[y, y+height)`; the text style is `TextStyleOf`'s; background and padding are the style block's non-empty values, else `transparent` and `0`; zIndex is 1 |
| GridPost.AnchorClassesLackGridPost | src/components/Grid/GridPost.jsx:31 | the anchor's class list does not contain `grid-post` |
| GridPost.RenderAsWritten | src/components/Grid/GridPost.jsx:28-37 | the anchor links to `Href`, carries the post id and title, has `Style(post)` as its style and exactly the written class list, which lacks `grid-post` |
| GridPost.Render | src/components/Grid/GridPost.jsx:28-37 | the as-written anchor with `grid-post` appended to its class list and nothing else changed |
| GridPost.Page | src/components/Grid/GridPost.jsx:31-32 | the page's grid anchors, each with the post's id and its box; `grid-post` only in the corrected form |
| GridPost.OverlayEmptyAsWritten | src/components/Shared/ConnectionsOverlay.jsx:13-16 | with the anchors as written, the overlay draws no line for any connections |
| GridPost.PageQuery | src/components/Shared/ConnectionsOverlay.jsx:13-14 | with the corrected anchors, an id resolves exactly when it is a grid post's id |
| GridPost.OverlayDrawsWhenFixed | src/components/Shared/ConnectionsOverlay.jsx:12-38 | with the corrected anchors, every list of connections between grid posts gets one line per connection, in order, each the line `MakeLine` draws for it |
| TaskItem.Render | src/components/Tasks/TaskItem.jsx:14-35 | the circle is the non-empty `circleColor` or `#ccc`; the text style is `TextStyleOf`'s, each of font, colour, size and weight being the non-empty style value or `inherit`; the link is `Href`; the row carries the id and title |
| PostManager.GridLinkOf | js/post-manager.js:55-76 | the anchor's span is `[x, x+width)` by `[y, y+height)`; inline styles are set exactly when the post has a style block, and then the text style is `TextStyleOf`'s, background and padding are the non-empty style values else `transparent` and `0`, and zIndex is `1` |
| PostManager.GridLinkAgreesWithReact | js/post-manager.js:56-73 | the legacy anchor has the React anchor's placement and link, and a styled post gets the React styles |
| PostManager.TaskRowOf | js/post-manager.js:104-128 | circle colour and text style are set exactly when the post has a style block, and then the circle is the non-empty `circleColor` else `#ccc` and the text style is `TextStyleOf`'s |
| PostManager.TaskRowAgreesWithReact | js/post-manager.js:115-125 | a styled task row looks like the React row; the link is the same |
| PostManager.FirstUnplaced | js/post-manager.js:59-62 | locates the first grid post without position or size, where the render loop throws |
| PostManager.FirstUnplacedAt | js/post-manager.js:53-62 | the leading run of placed posts ends exactly at the first unplaced one |
| PostManager.GridLinks | js/post-manager.js:53-88 | one anchor per grid post, in order |
| PostManager.TaskRows | js/post-manager.js:103-144 | one row per task post, in order |
| PostManager.Document | js/post-manager.js:57-58 | every appended anchor is a `grid-post` element with its post id |
| PostManager.DocumentResolves | js/post-manager.js:180-183 | a connection between two rendered grid posts always resolves |
| PostManager.SvgLineOf | js/post-manager.js:186-207 | the ends are the centres, stroke defaults to `#888`, width to 2 (0 too), and dasharray is set only for a truthy `dashed` |
| PostManager.SvgLines | js/post-manager.js:178-211 | one line per connection whose both ends resolve, in connection order |
| PostManager.ResolvedSnoc | js/post-manager.js:178-183 | one more connection adds its line exactly when it resolves |
| PostManager.SvgLinesAgreeWithReact | js/post-manager.js:190-207 | both overlays draw the same lines; the legacy one drops a falsy dash pattern |
| PostManager.ConvertMarkdownToHtml | js/post-manager.js:320-353 | no contract of its own: the rule chain without the empty-input guard, characterised by ConvertersAgree |
| PostManager.ConvertersAgree | js/post-manager.js:320-353 | the unguarded copy agrees with the guarded converter on every string, `""` included |
| PostManager.ContentUrl | js/post-manager.js:221 | the content URL is `posts/` and the file, or `posts/undefined` without one |
| PostManager.Manager.constructor | js/post-manager.js:20-21 | the manager starts with no posts, connections or elements |
| PostManager.Manager.RenderGridPosts | js/post-manager.js:47-89 | appends without clearing one anchor per grid post in order, stopping (and failing) at the first unplaced one |
| PostManager.Manager.RenderTaskPosts | js/post-manager.js:94-145 | clears, then holds exactly one row per task post in index order |
| PostManager.Manager.DrawConnections | js/post-manager.js:150-212 | clears, then holds exactly the lines for the resolving connections; the result does not depend on the previous overlay |
| PostManager.Manager.Init | js/post-manager.js:26-42 | a loaded index sets both lists (empty when missing); tasks and lines render only if the grid render did not throw; a failed load changes nothing |
| PostManager.Manager.ShowPostContent | js/post-manager.js:218-313 | fetches the post's file; on success the modal shows title and converted text, and on failure it stays |
| PostManager.Manager.ClickGridLink | js/post-manager.js:79-84 | a click fetches the post unless `showContent` is false; then a loaded text opens the modal with the title and the converted markdown, and a failed fetch leaves the modal alone; with `showContent` false nothing is fetched and the modal is unchanged |
| PostManager.Manager.ClickTaskRow | js/post-manager.js:131-136 | a click on a task link fetches the post unless `showContent` is false; then a loaded text opens the modal with the title and the converted markdown, and a failed fetch leaves the modal alone; with `showContent` false nothing is fetched and the modal is unchanged |
| PostContext.PostProvider.constructor | src/context/PostContext.jsx:7-13 | empty lists, loading, no current post, empty content, empty cache |
| PostContext.PostProvider.LoadPosts | src/context/PostContext.jsx:16-31 | a loaded index sets both lists (empty when missing), a failed one keeps them, and loading ends false |
| PostContext.PostProvider.LoadPostContent | src/context/PostContext.jsx:34-57 | no post or file: nothing. Hit: cached text shown, no fetch, flag untouched. Miss: one fetch with the flag up; success caches and shows, failure keeps both; the flag ends down; cached entries never change |
| PostContext.PostProvider.OpenPost | src/context/PostContext.jsx:60-63 | the post becomes current, then its content loads exactly as `LoadPostContent` states: nothing for a missing post or file, a cache hit without a fetch, otherwise one fetch of `/data/posts/<file>` with the flag up and down at the end, caching and showing a loaded text and keeping content and cache on failure; cached entries never change |
| PostContext.PostProvider.ClosePost | src/context/PostContext.jsx:66-68 | only the current post is cleared; cache and content are untouched |
| PostContext.OpenTwice | src/context/PostContext.jsx:38-50 | two opens of the same post, the first succeeding, fetch at most once, and the second shows the cached text |
| UseMarkdown.MarkdownLoader.constructor | src/hooks/useMarkdown.js:6-9 | empty content, not loading, no error, empty cache |
| UseMarkdown.MarkdownLoader.LoadMarkdown | src/hooks/useMarkdown.js:11-39 | falsy path: `""` and no change. Hit: cached text shown and returned, error kept, no fetch. Miss: loading up and error cleared at the fetch; success caches, shows and returns the text; failure sets the error and returns `""`, keeping cache and content; loading ends false |
| PostCreator.SuffixNumber | scripts/post-creator.py:81-86 | an id with the prefix followed by a decimal number counts as that number; an id without the prefix, or with a non-number after it, counts as 0 |
| PostCreator.HighestSuffix | scripts/post-creator.py:78-86 | no id in the index carries a number above the result |
| PostCreator.HighestSuffixAttained | scripts/post-creator.py:78-86 | the result is 0 or the number some id in the index carries, so it is the highest in use |
| PostCreator.NextId | scripts/post-creator.py:88 | no contract of its own: the prefix and one more than HighestSuffix, characterised by NextIdNumber, NextIdIsFresh and NextIdFirst |
| PostCreator.NextIdNumber | scripts/post-creator.py:88 | the generated id's number is one above the highest in use |
| PostCreator.NextIdIsFresh | scripts/post-creator.py:73-88 | the generated id is not the id of any existing post |
| PostCreator.NextIdFirst | scripts/post-creator.py:75-76 | with no numbered id of the prefix (an empty index included) the id is the prefix and `1` |
| PostCreator.PostIndex.GenerateId | scripts/post-creator.py:72-105 | `generate_post_id` and `generate_task_id`, one method over the prefix: prefix + (highest + 1), never an existing id, prefix + `1` on an empty index |
| PostCreator.PostFilename | scripts/post-creator.py:110 | a truthy filename wins; otherwise the lower-cased title with spaces as `-`, plus `.md` |
| PostCreator.DefaultFilenameShape | scripts/post-creator.py:151 | a derived file name holds no space and no capital |
| PostCreator.GridPostRecord | scripts/post-creator.py:119-142 | type `grid`, the id, position and size from the arguments, styles font/colour/`<size>rem`/`5px`, url only when truthy |
| PostCreator.TaskPostRecord | scripts/post-creator.py:160-174 | type `task`, no position or size, text colour `#333`, circle in the chosen colour, url only when truthy |
| PostCreator.ConnectionRecord | scripts/post-creator.py:196-205 | from, to, colour and width from the arguments, `dashed` only when truthy |
| PostCreator.Ids | scripts/post-creator.py:186 | the ids of the posts, in order |
| PostCreator.ConnectCheck | scripts/post-creator.py:186-211 | refuses an unknown `from`, then an unknown `to`, then an existing same-direction pair, and accepts otherwise |
| PostCreator.SecondConnectRefused | scripts/post-creator.py:208-211 | adding the same connection again is refused as a duplicate |
| PostCreator.ReverseNotDuplicate | scripts/post-creator.py:209 | a connection does not block the reverse direction |
| PostCreator.PostIndex.AddGridPost | scripts/post-creator.py:107-146 | appends exactly the grid record with a fresh `post` id and returns it |
| PostCreator.PostIndex.AddTaskPost | scripts/post-creator.py:148-178 | appends exactly the task record with a fresh `task` id and returns it |
| PostCreator.PostIndex.AddConnection | scripts/post-creator.py:180-214 | refused: index unchanged; accepted: exactly one connection appended; posts never change |

## Left out

- DOM and SVG construction, modal markup and CSS, event-listener wiring and the `setTimeout`
  animations are not modelled. Only the values, counts and orders they carry are
  (`js/post-manager.js:156-168`, `:224-308`). The overlay's own creation is not modelled
  either: the model starts with it in place.
- `PostModal.jsx` is not part of this model. That covers ReactMarkdown rendering and its
  image-path prefix (a foreign library).
- `fetch`, `response.json()` and `response.text()` are I/O. Each becomes a parameter: an
  optional loaded index, or a `Fetch` outcome.
- Async interleavings are not modelled. Calls are sequential. A late response overwriting
  newer content is not excluded, and no guard is claimed.
- Bounding boxes are exact `real` values supplied from outside: the grid's box and a
  per-element layout. Nothing is claimed about floating-point rounding. The unused
  `cellWidth`/`cellHeight` values are dropped.
- The lookup matches an id by string equality. Selector escaping, such as an id containing
  `"`, is not modelled.
- JavaScript strings are modelled as sequences of characters, not UTF-16 code units.
- `Text.ParseDecimal`: accepts only ASCII digits. Python's `int()` also takes signs,
  surrounding whitespace, underscores and non-ASCII digits, so an id such as `post 7` counts
  there but not here.
- `Text.Lower`: lowers only ASCII capitals, where Python's `str.lower()` covers all of Unicode.
- `PostCreator.GridPostRecord`: the font size is taken as the already-printed form of the
  float (`f"{font_size}rem"`), because float formatting is not modelled.
- The rest of `post-creator.py` is out: file I/O (`load_post_index` with its empty default,
  `save_post_index`, `create_post_file`), argument parsing, the `main` dispatch and the list
  printers.
- The 30×30 grid bounds are never checked by the code, and the model adds no such check.
- A grid post whose `position` or `size` is missing makes both grid renderers throw. The legacy
  loop is modelled stopping there. For the React component this is a precondition of
  `GridPost.Style`.
- Decorative builders are not modelled: `js/grid.js`, `js/tasks.js`, the dot loop of
  `DotGrid.jsx` and `TaskList.jsx` (a type filter, `PostData.OfKind`). Neither are the theme
  and date code, `App.jsx`, `Notebook.jsx` or the build configuration.

## Findings

| source | as written | input that shows it | evidently intended | confidence | as-written member | corrected member |
|---|---|---|---|---|---|---|
| src/components/Grid/GridPost.jsx:31 | the React grid anchor's `className` lacks `grid-post`, but the overlay looks posts up with `.grid-post[data-post-id=…]` (src/components/Shared/ConnectionsOverlay.jsx:13-14), so it never finds an endpoint and never draws a line | any index with two grid posts `a` and `b` and a connection from `a` to `b` | the anchor carries `grid-post`, as the legacy renderer's anchors do (js/post-manager.js:57), so every connection between grid posts is drawn | high (not executed) | GridPost.OverlayEmptyAsWritten | GridPost.OverlayDrawsWhenFixed |
