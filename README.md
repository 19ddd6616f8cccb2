# Issue exporter: a Dafny model

The exporter is a small batch job, `IssueParser`. It reads every issue of a
GitHub repository through the REST API and turns each one into a Jekyll
post.

- **Fetching.** The issue list is fetched page by page: page 1, 2, 3, …,
  stopping right after the first empty page.
- **Enrichment.** Every issue whose `comments` count is positive is copied
  with its comments attached. The comments come from one extra request per
  such issue.
- **Writing.** Each issue becomes a front-matter document. It is written
  to `_posts/<yyyy-MM-dd>-<number>.html`.

## Modules

| file | module | models |
|---|---|---|
| `issues.dfy` | `Issues` | The records the logic reads, reduced to their consumed fields. Also the two endpoints as oracles (`PageOracle`, `CommentOracle`), the request log, and the fail-fast shape of a trace. |
| `decimal.dfy` | `Decimal` | `Int.toString()` and the zero-padded numeric fields of `SimpleDateFormat`. Each formatter comes with the value its text reads back as. |
| `enrichment.dfy` | `Enrichment` | `fetchComments` and the `map`/`copy` over one page. |
| `pagination.dfy` | `Pagination` | The `do … while` loop of `fetchAllIssues`, as a method with a loop. It is proved equal to the recursive walk `FetchFrom`, and the walk's properties are lemmas. |
| `rendering.dfy` | `Rendering` | The `buildString` block, as a method that appends line by line and is proved equal to the list of lines `DocumentLines`. Also the path builder and the writer's `forEach`, which yields (path, content) pairs. |
| `exporter.dfy` | `Exporter` | `main`: fetch everything, then write. |

### How the network is modelled

- The network is two total functions.
  - The list endpoint maps a page number to `Ok(issues)` or `Err(message)`.
  - The comments endpoint maps an issue number to `Ok(comments)` or `Err(message)`.
- Every function that talks to the network returns a `Trace`: its result plus the requests it made, in order. The methods `Pagination.FetchAllIssues` and `Exporter.Export` return the same two parts as a pair of out-parameters, `(r, log)`.
- A failed response ends the computation with `Err(message)`. This is how the model stands for the `RuntimeException(response.message)` that the source throws.

### Termination

The source loops until a pass of the loop body throws or yields an empty
page. The model takes a ghost `bound`: a page number whose pass of the loop
body stops the walk (`Stops`). That happens when the page request fails,
when one of that page's comments requests fails, or when the page is empty.
Every walk in the model is total up to that page. The walk is the same
whichever stopping page serves as `bound` (`Pagination.BoundIrrelevant`).

## Model

| member | source | states |
|---|---|---|
| `Pagination.FetchAllIssues` | parser/IssueParser.kt:74-100 | The loop computes exactly the walk `FetchFrom` from page 1. It makes the same requests in the same order. On success it returns the received pages concatenated. On failure it returns the failing response's message. |
| `Pagination.FetchFrom` | parser/IssueParser.kt:76-97 | The reference walk of the `do … while`. It requests page p and enriches it. A failure ends the walk with its message, an empty page ends it successfully, and otherwise the walk goes on from page p+1. The page list is every received page in order, the empty last one included. |
| `Pagination.Stops` | parser/IssueParser.kt:84-97 | Whether page b's pass of the loop body ends the loop: it throws, or it yields an empty page. |
| `Pagination.BoundIrrelevant` | parser/IssueParser.kt:76-97 | Any two stopping pages serve equally as the termination witness: the walk from p is the same for both. |
| `Pagination.PageStops` | parser/IssueParser.kt:94-97 | A failed page request or an empty page stops the walk. |
| `Pagination.CommentsFailureStops` | parser/IssueParser.kt:86-88 | A page holding an issue that reports comments and whose comments request fails stops the walk. |
| `Pagination.Flatten` | parser/IssueParser.kt:99 | `flatten`: the pages one after the other, in order. |
| `Pagination.FetchPage` | parser/IssueParser.kt:77-96 | One pass of the loop body. Its first request is for page `p` and every later one is a comments request. On success, the list has one issue per issue of the received page. |
| `Pagination.PageOrder` | parser/IssueParser.kt:76-97 | Pages are requested as p, p+1, p+2, … with no gap or repeat, never beyond the stopping page. On success there is exactly one page request per entry of `sumResponses`. |
| `Pagination.FetchFromSucceeds` | parser/IssueParser.kt:83-97 | The walk from p succeeds iff page p and its enrichment succeed and, when that page is not empty, the walk from p+1 succeeds. |
| `Pagination.FetchFromOk` | parser/IssueParser.kt:84-97 | On success, page p was answered and its enriched issues are the first entry. The walk goes on exactly when that entry is non-empty. |
| `Pagination.SuccessShape` | parser/IssueParser.kt:92-97 | A successful walk received at least one page. The last page is empty and every earlier one is non-empty, so a short non-empty page does not stop the loop. |
| `Pagination.SuccessPages` | parser/IssueParser.kt:84-93 | Entry q-p of a successful walk is the enriched response to page q. Every such page was answered, and it keeps its size. |
| `Pagination.SuccessPageAt` | parser/IssueParser.kt:84-93 | Entry q-p of a successful walk is the response to page q, enriched. |
| `Pagination.ResultLength` | parser/IssueParser.kt:92-99 | The flattened result holds exactly as many issues as the received pages hold in total. |
| `Pagination.PrefixLength` | parser/IssueParser.kt:99 | Flattening a sequence of pages gives as many issues as the pages hold. |
| `Pagination.FetchFailFast` | parser/IssueParser.kt:94-95 | A walk that fails ends with the failed request, carrying that response's message, and every earlier request was answered. A successful walk got only successful responses. |
| `Pagination.FetchPageFailFast` | parser/IssueParser.kt:82-95 | The same fail-fast shape for one pass of the loop body. |
| `Pagination.ScriptedServer` | parser/IssueParser.kt:74-100 | The server returns n non-empty pages and then an empty one, and answers every comments request. The walk then succeeds with exactly the page requests 1 … n+1, and returns as many issues as the n pages hold. |
| `Pagination.ScriptedPageCount` | parser/IssueParser.kt:92-97 | That scripted walk receives exactly n+1 pages. |
| `Pagination.ScriptedFrom` | parser/IssueParser.kt:76-97 | That scripted walk succeeds from every page up to n+1. |
| `Pagination.PageNumbersAppend` | parser/IssueParser.kt:77-82 | The page numbers of two request logs joined are those of the first, then those of the second. |
| `Pagination.CommentsOnlyHaveNoPageNumbers` | parser/IssueParser.kt:102-107 | A log of comments requests requests no page. |
| `Enrichment.NeedsComments` | parser/IssueParser.kt:87 | `(issue.comments ?: 0) > 0`: a null count reads as 0, and only a positive count asks for comments. |
| `Enrichment.NeededRequests` | parser/IssueParser.kt:86-91 | The reference list of comments requests for a page: one per issue with a positive count, for its number, in page order. |
| `Enrichment.FetchComments` | parser/IssueParser.kt:102-114 | It makes exactly one request, for the given issue number. It succeeds iff that response does, with the response's comments. A failure carries the response's message. |
| `Enrichment.EnrichIssue` | parser/IssueParser.kt:86-91 | Without a positive count, the issue passes through unchanged and no request is made. With one, exactly one comments request is made for its number. It fails iff that request fails, with the response's message. On success the fetched comments become `commentsList` and the other shown fields are unchanged. |
| `Enrichment.EnrichPage` | parser/IssueParser.kt:86-91 | On success the page keeps its length and order: entry i is issue i enriched. It makes only comments requests. |
| `Enrichment.EnrichPageRule` | parser/IssueParser.kt:86-91 | A page is enriched iff every issue with a positive count gets its comments. Then each issue keeps its shown fields. It gets the fetched comments when it reports some, and keeps its `commentsList` otherwise. |
| `Enrichment.EnrichPageRequests` | parser/IssueParser.kt:86-91 | A successful enrichment makes exactly one comments request per issue with a positive count, in page order, and none for the others. A failed one makes a prefix of those requests. |
| `Enrichment.EnrichPageFailFast` | parser/IssueParser.kt:86-91 | A failed comments request is the last request of the page, and its message is the page's error. |
| `Enrichment.CommentsAttachedIffReported` | parser/IssueParser.kt:86-91 | A parsed page has no comment lists. After enrichment, an issue has one iff its count is positive. |
| `Rendering.Unlines` | parser/IssueParser.kt:29-47 | The text a `StringBuilder` holds after `appendLine` of each line in order: each line followed by `"\n"`. |
| `Rendering.HeaderLines` | parser/IssueParser.kt:29-43 | The front-matter lines: `---`, `layout: post`, `title: <title>`, the tags line only when labels are non-empty, `---`, then two empty lines. |
| `Rendering.DocumentLines` | parser/IssueParser.kt:29-48 | Every line the `buildString` block appends, in order: the front matter, the body, then the comment lines. |
| `Rendering.JoinNames` | parser/IssueParser.kt:34-38 | `joinToString` with separator `", "` over the label names, in label order, without prefix and postfix. |
| `Rendering.TagsLine` | parser/IssueParser.kt:33-39 | `tags: ` followed by the names joined with the `[` prefix and `]` postfix. |
| `Rendering.Marker` | parser/IssueParser.kt:46 | `<!-- comment #<id> -->`, with the id in decimal. |
| `Rendering.CommentsOf` | parser/IssueParser.kt:45 | The comments to emit: none for an absent list, or else the list itself. |
| `Rendering.CommentLines` | parser/IssueParser.kt:45-48 | For each comment in list order, its marker line and then its body line, so two lines per comment. |
| `Rendering.FormatDate` | parser/IssueParser.kt:51 | `yyyy-MM-dd` on a resolved day: the year padded to at least four digits, month and day to at least two, joined by `-`. |
| `Rendering.PostName` | parser/IssueParser.kt:52 | `<date>-<number>`, with the number in decimal. |
| `Rendering.PostOf` | parser/IssueParser.kt:51-53 | The (path, content) pair written for one issue: its post path and its rendered document. |
| `Rendering.RenderDocument` | parser/IssueParser.kt:28-49 | Appending the lines one `appendLine` at a time yields the document lines `DocumentLines`, each followed by `"\n"`. |
| `Rendering.RenderFrontMatter` | parser/IssueParser.kt:29-43 | The first appends yield exactly the front-matter lines, each followed by `"\n"`. |
| `Rendering.AppendLine` | parser/IssueParser.kt:29-47 | `appendLine` adds one line to the builder, followed by `"\n"`. |
| `Rendering.CommentText` | parser/IssueParser.kt:45-48 | The text each comment leaves, in list order: its marker line, then its body line, each followed by `"\n"`. |
| `Rendering.CommentLinesText` | parser/IssueParser.kt:45-48 | Appending the comment lines leaves exactly the comment text. |
| `Rendering.UnlinesAppend` | parser/IssueParser.kt:29-47 | Appending two runs of lines leaves the text of the first, then the text of the second. |
| `Rendering.DocumentText` | parser/IssueParser.kt:28-49 | The whole document as text: the front matter, then the body and `"\n"`, then each comment's marker line and body line in list order. |
| `Rendering.FrontMatterText` | parser/IssueParser.kt:29-43 | The front matter as text: `---`, `layout: post`, `title: <title>`, the tags line only when there are labels, `---`, then two empty lines. Every line ends in `"\n"`. |
| `Rendering.DocumentShape` | parser/IssueParser.kt:28-48 | Where each part sits: the fixed lines at 0–2, the tags line at 3 exactly when there are labels, the closing `---` and two empty lines, and the body right after them. The length is the front matter plus one plus two per comment. |
| `Rendering.TagsLineIffLabels` | parser/IssueParser.kt:32-40 | The front matter has a line starting with `tags: ` iff the issue has labels. Any such line is the one built from the labels. |
| `Rendering.TagsLineExample` | parser/IssueParser.kt:33-38 | Labels `[bug]` give `tags: [bug]`, and `[bug, ui]` give `tags: [bug, ui]`. |
| `Rendering.JoinNamesAppend` | parser/IssueParser.kt:34-38 | Joining two non-empty label lists gives the two joined halves with one `", "` between them. |
| `Rendering.JoinNamesLength` | parser/IssueParser.kt:34-38 | The joined names are as long as the names plus two characters per separator. |
| `Rendering.CommentSection` | parser/IssueParser.kt:44-48 | After the body come the comments in list order. Each is its `<!-- comment #id -->` marker, then its body, and there is one marker per comment. An absent or empty list emits nothing after the body. |
| `Rendering.CommentLinesAt` | parser/IssueParser.kt:45-48 | Comment k's marker and body sit at lines 2k and 2k+1 of the comment section. |
| `Rendering.PostPath` | parser/IssueParser.kt:52 | Every path starts with `_posts/` and ends with `.html`. |
| `Rendering.PostPathExample` | parser/IssueParser.kt:51-52 | Issue #42 created on 2023-03-05 goes to `_posts/2023-03-05-42.html`. |
| `Rendering.DateExample` | parser/IssueParser.kt:51 | The day 2023-03-05 formats as `2023-03-05`, with month and day zero-padded. |
| `Rendering.PostPathInjective` | parser/IssueParser.kt:51-52 | A path determines the day and the issue number it was built from. This holds for every day: year, month and day hold no dash, so the first three dashes of the file name delimit them. |
| `Rendering.WriteFormattedIssues` | parser/IssueParser.kt:26-55 | The writer yields one file per issue, in list order. File i is issue i's path with issue i's rendered document. |
| `Rendering.DistinctPaths` | parser/IssueParser.kt:51-53 | Issues with distinct numbers go to distinct paths, whatever their days, so no file of a run overwrites another. |
| `Decimal.NatToDecimal` | parser/IssueParser.kt:46 | Shortest decimal digits: at least one digit, with no leading zero except for zero itself. |
| `Decimal.NatToDecimalValue` | parser/IssueParser.kt:46 | The digits read back as the number. |
| `Decimal.IntToDecimal` | parser/IssueParser.kt:46 | A leading minus sign iff the number is negative, followed by digits. |
| `Decimal.IntToDecimalValue` | parser/IssueParser.kt:52 | The signed text reads back as the integer, so `Int.toString()` loses nothing. |
| `Decimal.IntToDecimalInjective` | parser/IssueParser.kt:52 | Distinct integers get distinct text. |
| `Decimal.ZeroPad` | parser/IssueParser.kt:51 | The padded field is all digits, of at least the field width and no wider than needed, and it reads back as the number. |
| `Decimal.LeadingZerosValue` | parser/IssueParser.kt:51 | Leading zeros do not change the value a field reads as. |
| `Decimal.TwoDigits` | parser/IssueParser.kt:51 | A value below 100 is written as exactly two digits by `MM` and `dd`. |
| `Exporter.Posts` | parser/IssueParser.kt:13-16 | One post per fetched issue, in fetch order, at that issue's path. |
| `Exporter.Export` | parser/IssueParser.kt:13-16 | The run makes the walk's requests. A failure ends it with the message of the last request and no posts. Otherwise every request was answered and every fetched issue becomes its post, in order. |

## Left out

- The OkHttp client and its two interceptors (parser/IssueParser.kt:57-72) are left out. The empty `Authorization` header and the `println` logging have no effect on the result. A request is modelled as a log entry holding only the page number or the issue number.
- The hard-coded repository URLs (parser/IssueParser.kt:80, 105) are left out. The `per_page=100` parameter is one of them: the model puts no limit on page sizes.
- Gson deserialisation (`parseJson`, parser/IssueParser.kt:18-24) is left out. So are malformed bodies and its date pattern. The oracles return already-parsed records.
- `SimpleDateFormat("yyyy-MM-dd")` (parser/IssueParser.kt:51) depends on the JVM's defaults, which are outside the model.
  - The default time zone decides which calendar day the creation instant falls on.
  - The default format locale decides the calendar. Under `th_TH`, for example, it is the Buddhist calendar, whose years run 543 ahead.
  - The locale also decides the digits the fields are written and padded with. Under `th_TH_TH` these are Thai digits.
  - The model takes `createdAt` as an already-resolved year, month and day in the calendar in use. It writes the fields in ASCII digits, as any Gregorian, ASCII-digit locale does. `Rendering.DateExample` and `Rendering.PostPathExample` hold under such a locale.
- `File.writeText` and file-system errors (parser/IssueParser.kt:52-53) are I/O. The writer yields (path, content) pairs instead.
- Kotlin nulls are left out.
  - `!!` on `labels`, a label's `name`, `number` and `response.body` would throw a `NullPointerException`.
  - The string templates print `null` for a null title or comment id (parser/IssueParser.kt:31, 46).
  - `appendLine(String?)` writes `null` for a null issue body or comment body (parser/IssueParser.kt:44, 47).
  - `SimpleDateFormat.format` throws on a null `createdAt` (parser/IssueParser.kt:51).
  - The path template has no `!!` on `number`, so a null number prints `null` into the path (parser/IssueParser.kt:52). The model's `number` is never null, so it has no such path.
  - The model types these fields as non-null, which is the only case the rest of the logic handles.
  - The `comments` count and `commentsList` keep their null cases, which the logic does handle.
- Every field of `Issue` other than `title`, `body`, `createdAt`, `number`, `comments`, `labels` and `commentsList` is left out. So are the fields of `Label` other than `name`, and the `User` and `PullRequest` classes. The logic never reads them.
- The comments request is not paginated in the source (parser/IssueParser.kt:102-110). The model does not paginate it either.
- `fetchComments` returns the comments parsed as `List<Issue>` (parser/IssueParser.kt:102, 149). The model gives a comment only the `id` and `body` the renderer reads.
- `number`, `id` and `comments` are 32-bit `Int?` in the source. The model uses unbounded integers. No arithmetic is done on them: they are only compared, formatted and passed along, so wrap-around plays no part.
- The source loops for as long as each pass of the loop body yields a non-empty page. The model covers servers that have some stopping page, given as the ghost `bound`. A stopping page is one whose page request fails, one of whose comments requests fails, or which is empty. A server whose every pass yields a non-empty page never stops, and it is not modelled.
- A negative `comments` count is treated like zero: no request is made. This follows the source's comparison `(comments ?: 0) > 0`.
- Exceptions are modelled as results. A failed fetch returns `Err(message)` instead of throwing, and `main`'s write phase then does not start, as in the source.
