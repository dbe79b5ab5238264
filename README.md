# Nature collection crawler, modelled in Dafny

`Crawl_for_Nature.py` walks one Nature collection page, visits each article
card's page, picks out up to three download links per article (the main PDF,
the supplementary information and the peer review file) and saves each file
as `Nature Collection <id>/<sanitized title>/<prefix><sanitized title>.<ext>`,
skipping files that already exist.

This project models the decision logic of that script:

- `strings.dfy` (`Strings`): the Python string operations the script relies on
  (`str.isspace`, `split(c)[-1]`, `split(c)[0]`, `lstrip`/`rstrip`/`strip`).
- `sequences.dfy` (`Sequences`): an element-wise map over sequences and the
  concatenation facts the proofs use.
- `sanitize.dfy` (`Sanitize`): `sanitize_filename`, with what it keeps (the
  visible text), what it guarantees (no reserved character, single spaces,
  no leading space, at most 180 characters) and when it is idempotent.
- `download.dfy` (`Download`): how `download_file` derives the local file name
  and extension from a URL, `os.path.join`, the skip-if-exists rule, and the
  effect of a sequence of downloads on the set of files and on the fetches
  made. `Downloader` is the mutable filesystem-and-session state that
  `download_file` updates.
- `links.dfy` (`Links`): `get_all_download_links`, both as a specification
  function over the parsed page and as the imperative loops the script runs,
  with the first-match-wins rules stated against the page's anchors.
- `crawl.dfy` (`Crawl`): `main`'s collection folder name, card selection, the
  per-article skip rules and the article loop, proved to issue exactly the
  downloads of a specification function and to leave the disk in the state
  that executing those downloads in order produces.

The network, the HTML parser and `urljoin` are parameters: `pages` maps an
article URL to its parsed page (or a request error), `net` says how fetching
a file URL turns out, and `urljoin` is any function of two strings.

## Model

| member | source | states |
|---|---|---|
| Strings.IsSpace | Crawl_for_Nature.py:68 | (predicate) the characters Python's `str.isspace` accepts, which both `\s` and `strip()` remove: U+0009–U+000D, U+001C–U+0020, U+0085, U+00A0, U+1680, U+2000–U+200A, U+2028, U+2029, U+202F, U+205F, U+3000 |
| Strings.AfterLastIsSuffix | Crawl_for_Nature.py:109 | `s.split(c)[-1]` is a suffix of `s` that holds no `c`, preceded by `c` whenever it is not all of `s` |
| Strings.AfterLastOfJoin | Crawl_for_Nature.py:109 | splitting `a + c + b` at its last `c` gives back `b` when `b` holds no `c` |
| Strings.BeforeFirst | Crawl_for_Nature.py:109 | `s.split(c)[0]` is a prefix of `s` without `c`, followed by `c` when shorter than `s` |
| Strings.BeforeFirstOfJoin | Crawl_for_Nature.py:109 | `(a + c + b).split(c)[0]` is `a` when `a` holds no `c` |
| Strings.TrimLeft | Crawl_for_Nature.py:68 | `lstrip` returns a suffix whose first character is kept and drops only characters to be stripped |
| Strings.TrimRight | Crawl_for_Nature.py:68 | `rstrip` returns a prefix whose last character is kept and drops only characters to be stripped |
| Strings.TrimLeftPast | Crawl_for_Nature.py:68 | `lstrip` removes a whole run of strippable characters and stops at the first kept one |
| Strings.Trim | Crawl_for_Nature.py:138 | `strip` leaves a result that is empty or starts and ends with a kept character |
| Strings.TrimUnchanged | Crawl_for_Nature.py:138 | a string with nothing to strip at either end is returned unchanged |
| Sanitize.ReplaceReserved | Crawl_for_Nature.py:67 | same length; each of `<>:"/\|?*` becomes `_`, every other character is kept in place |
| Sanitize.CollapseSpaces | Crawl_for_Nature.py:68 | no longer than the input, empty exactly when the input is, whitespace only as `' '`, never two whitespace characters in a row, and the first and last characters are whitespace exactly when the input's are; what each run becomes is stated by `Sanitize.CollapseRun` |
| Sanitize.CollapseRun | Crawl_for_Nature.py:68 | a whitespace run between two non-whitespace characters becomes exactly one space, and the text on either side collapses on its own |
| Sanitize.CollapseAppend | Crawl_for_Nature.py:68 | collapsing splits after any non-whitespace character: no run crosses it |
| Sanitize.CollapseKeepsVisible | Crawl_for_Nature.py:68 | collapsing whitespace keeps every non-whitespace character, in order |
| Sanitize.StripKeepsVisible | Crawl_for_Nature.py:68 | `strip()` keeps every non-whitespace character, in order |
| Sanitize.VisibleTrimLeft | Crawl_for_Nature.py:68 | the whitespace `lstrip` removes holds no visible character |
| Sanitize.VisibleTrimRight | Crawl_for_Nature.py:68 | the whitespace `rstrip` removes holds no visible character |
| Sanitize.ReplacedCollapsedTidy | Crawl_for_Nature.py:67-68 | after replacement and collapsing, no reserved character, whitespace only as single `' '` |
| Sanitize.StripTidy | Crawl_for_Nature.py:68 | stripping keeps a name free of reserved characters and doubled whitespace |
| Sanitize.SanitizeFilename | Crawl_for_Nature.py:65-69 | at most 180 characters; the stripped name, or its first 180 characters when longer; no reserved character; whitespace only as single spaces; no leading whitespace; trailing whitespace only when the cut fell after a space |
| Sanitize.SanitizeKeepsText | Crawl_for_Nature.py:65-69 | the visible text of the result is an initial part of the input's (reserved characters replaced), and all of it when no cut was needed |
| Sanitize.SanitizeFixesClean | Crawl_for_Nature.py:65-69 | a clean name of at most 180 characters is returned unchanged |
| Sanitize.SanitizeIdempotent | Crawl_for_Nature.py:65-69 | sanitizing a sanitized name changes nothing, unless it ends in a space |
| Sanitize.SanitizeTwiceDropsTrailingSpace | Crawl_for_Nature.py:68-69 | when the cut leaves a trailing space, sanitizing again drops exactly that space |
| Sanitize.TrailingSpaceReachable | Crawl_for_Nature.py:68-69 | some title does end in a space after sanitizing (179 letters, a space and a letter) |
| Download.OriginalFilename | Crawl_for_Nature.py:109 | the file name holds no `/` or `?` and is a prefix of the text after the URL's last `/` |
| Download.Extension | Crawl_for_Nature.py:110 | holds no `.`, `/` or `?`; `download` when the file name has no dot; otherwise the file name ends with `.` and the extension |
| Download.ExtensionOfFileUrl | Crawl_for_Nature.py:109-110 | a URL `<dir>/<stem>.<ext>` yields `<ext>` |
| Download.ExtensionOfQueryUrl | Crawl_for_Nature.py:109-110 | a URL `<dir>/<stem>.<ext>?<query>` yields `<ext>` |
| Download.ExtensionOfPlainUrl | Crawl_for_Nature.py:109-110 | a URL whose last segment has no dot yields `download` |
| Download.NameOfFile | Crawl_for_Nature.py:109-110 | `<stem>.<ext>`, alone or before a query, is cut to a name whose last dot is followed by `<ext>` |
| Download.FileBeforeQuery | Crawl_for_Nature.py:109 | cutting `<file>?<query>` at the first `?` gives back `<file>` |
| Download.LocalFilename | Crawl_for_Nature.py:111 | starts with prefix and title, and its text after the last dot is the URL's extension |
| Download.LocalPath | Crawl_for_Nature.py:111-112 | (no contract of its own) `os.path.join(dest_folder, f"{file_prefix}{base_filename}.{extension}")`; its shape under a collection folder is stated by `Crawl.RequestFileLayout` |
| Download.PathJoin | Crawl_for_Nature.py:112 | ends with the second part; an absolute second part replaces the first; otherwise starts with the first part, adding at most one `/` |
| Download.Step | Crawl_for_Nature.py:114-123 | an existing path leaves disk and fetches unchanged; otherwise the URL is fetched and the path exists afterwards exactly when the fetch got as far as opening the file; no file is removed |
| Download.Succeeds | Crawl_for_Nature.py:114-130 | `download_file` returns true exactly when the file existed or the whole body was written; a true result leaves the file on disk, a false one means the file was missing and its URL was requested |
| Download.StepIdempotent | Crawl_for_Nature.py:114-116 | repeating a download whose file was opened reports success and changes nothing |
| Download.ExecAllAppend | Crawl_for_Nature.py:163-188 | two batches of downloads in a row act as one batch |
| Download.ExecAllGrows | Crawl_for_Nature.py:114-123 | downloads never remove a file |
| Download.ExecAllStores | Crawl_for_Nature.py:119-123 | after a run, every file whose fetch got as far as opening it exists |
| Download.ExecAllSkips | Crawl_for_Nature.py:114-116 | a run whose files all exist changes nothing and fetches nothing |
| Download.RerunChangesNothing | Crawl_for_Nature.py:114-116 | re-running the same downloads requests no file URL again and creates no file, when no fetch failed before opening its file |
| Download.RerunKeepsFiles | Crawl_for_Nature.py:114-123 | re-running the same downloads never creates a file the first run did not, even when some fetches failed |
| Download.Downloader.DownloadFile | Crawl_for_Nature.py:105-130 | the new disk state is one `Step` of the old, and the result is true exactly when the file existed or its fetch succeeded |
| Links.Matches | Crawl_for_Nature.py:83-95 | (predicate) the four searches: the `c-pdf-download__link` class marker (line 83); `Download PDF` in the text or an `href` ending in `.pdf` (line 87); `Supplementary Information` (line 91) or `Peer Review File` (line 95) in the stripped text |
| Links.WithHref | Crawl_for_Nature.py:80 | only anchors with an `href`, no more of them than the page has; that it keeps every such anchor, in page order, is stated by `Links.WithHrefKeeps` and `Links.WithHrefAppend` |
| Links.WithHrefKeeps | Crawl_for_Nature.py:80 | an anchor is among the tags exactly when it is on the page and has an `href` |
| Links.WithHrefAppend | Crawl_for_Nature.py:80 | the tags of two stretches of the page are the tags of the first followed by those of the second: page order is kept |
| Links.FirstMatch | Crawl_for_Nature.py:86-88 | the position found satisfies the rule and no earlier one does; none found means none satisfies it |
| Links.SelectLinks | Crawl_for_Nature.py:71-103 | only the keys `pdf`, `supp`, `peer`; a page whose request failed yields the empty map |
| Links.AddFirstMatch | Crawl_for_Nature.py:90-92 | the loop adds the link of the first tag satisfying the rule, and nothing when none does |
| Links.GetAllDownloadLinks | Crawl_for_Nature.py:71-103 | the imperative function returns exactly `SelectLinks` of the page |
| Links.NoTagNoAnchor | Crawl_for_Nature.py:80-96 | when no tag matches, no anchor of the page has an `href` and satisfies the rule |
| Links.FirstTagIsEarliestAnchor | Crawl_for_Nature.py:80-96 | the tag a search picks is the page's earliest anchor with an `href` that satisfies the rule |
| Links.MarkedAnchorWins | Crawl_for_Nature.py:83-84 | the first class-marked anchor decides the `pdf` link, whatever other anchors say, and raises when it has no `href` |
| Links.RaisesOnlyOnMarkedWithoutHref | Crawl_for_Nature.py:83-84 | the function returns a map whenever every class-marked anchor has an `href` |
| Links.LinkOfRule | Crawl_for_Nature.py:85-96 | outside the class-marked case, the entry each search fills reaches the returned map unchanged |
| Links.KindFromEarliestAnchor | Crawl_for_Nature.py:85-96 | a kind of link is present exactly when some anchor is usable for it, and then it is the earliest usable anchor's link |
| Crawl.CollectionName | Crawl_for_Nature.py:138 | starts with `Nature Collection ` and holds no `/` |
| Crawl.CollectionNameOfPath | Crawl_for_Nature.py:137-138 | for `<head>/<last>` the folder is `Nature Collection <last>` |
| Crawl.ScriptFolder | Crawl_for_Nature.py:137-138 | the script's own URL gives the folder `Nature Collection gxfyskqtkm` |
| Crawl.WithClass | Crawl_for_Nature.py:154 | a card is kept exactly when it is on the page and has the class; empty exactly when no card has it |
| Crawl.WithClassAppend | Crawl_for_Nature.py:154 | the cards of two stretches of the page are those of the first followed by those of the second: page order is kept |
| Crawl.SelectArticles | Crawl_for_Nature.py:154-155 | a card is walked exactly when it is on the page and is `u-full-height`, or, when no card is, exactly when it is `c-card` |
| Crawl.Issue | Crawl_for_Nature.py:183-188 | at most three downloads, PDF before supplementary before peer review, each for a key the map holds with its URL, and one for every key it holds |
| Crawl.IssueEmpty | Crawl_for_Nature.py:176-188 | with only the three known keys, no download is issued exactly when the link map is empty |
| Crawl.ArticleRequests | Crawl_for_Nature.py:163-188 | an article is skipped exactly when it has no title link, the link has no `href`, its page raised or offered no link; otherwise at most three downloads into `<collection>/<sanitized title>` |
| Crawl.Downloads | Crawl_for_Nature.py:176-188 | a page that raised gives no download; a link map gives none exactly when it is empty |
| Crawl.PlanArticles | Crawl_for_Nature.py:163-188 | at most three downloads per article, each into `<collection>/<title>` with a title free of `/` and one of the three prefixes |
| Crawl.Plan | Crawl_for_Nature.py:134-188 | a collection page whose request failed gives no download; otherwise at most three per card, each into `<collection folder>/<title>` with a title free of `/` and one of the three prefixes |
| Crawl.DownloadKind | Crawl_for_Nature.py:183-188 | one `if key in links: download_file(...)` issues that kind's download and steps the disk by it |
| Crawl.DownloadArticle | Crawl_for_Nature.py:183-188 | the three conditional calls issue exactly `Issue` of the map and leave the disk as executing them in order would |
| Crawl.CrawlArticle | Crawl_for_Nature.py:163-188 | one pass of the loop issues exactly `ArticleRequests` of the card and executes them in order |
| Crawl.Run | Crawl_for_Nature.py:134-198 | `main` issues exactly `Plan` of the collection page and leaves the disk as executing those downloads in order would |
| Crawl.RequestFileLayout | Crawl_for_Nature.py:173 | with the article folder of line 173 and the file join of lines 111-112, a download lands at `<collection>/<title>/<prefix><title>.<ext>`, without the `<title>/` level when the title is empty |
| Crawl.PlanFileLayout | Crawl_for_Nature.py:137-138 | every download of a crawl of `<head>/<last>` lands at `Nature Collection <last>/<title>/<prefix><title>.<ext>` |
| Crawl.CrawlTwice | Crawl_for_Nature.py:114-123 | crawling again against unchanged pages creates no file the first crawl did not; when every first fetch got as far as opening its file, it also requests no file URL again and leaves the disk as it was |

## Left out

- Logging, `create_session_with_retries` (retry policy and headers) and the
  random sleeps: they do not change which files are requested or written. The
  retries are folded into the outcome `pages` and `net` report per URL.
- The network is deterministic per URL: `pages` and `net` are fixed functions,
  so a page or file that changes between requests is not modelled.
- HTML parsing: a card is its two classes and its title link (`None` when the
  `h3`/`h2` title tag or its `a` is missing); an anchor is its class marker,
  its text, its stripped text and its `href`. `get_text` is not modelled.
- `urljoin` is a parameter; its RFC 3986 resolution is not modelled.
- `os.makedirs` and directories: the disk is the set of file paths that exist,
  so a directory at a file's path is not modelled.
- File contents: a fetch that fails part-way leaves a partial file, which the
  model records only as existing.
- Exceptions inside `main`'s article loop other than the two `KeyError`s the
  code can raise (a title link without `href`, a class-marked PDF anchor
  without `href`) are not modelled.
- Crawl.Run: takes the collection URL as a parameter; the script hard-codes
  `CollectionUrl`, whose folder name `Crawl.ScriptFolder` states.
- Links.SelectLinks: its own contract states only the key set and the request
  failure case; the first-match rules for each key are stated by
  `Links.MarkedAnchorWins`, `Links.RaisesOnlyOnMarkedWithoutHref` and
  `Links.KindFromEarliestAnchor`.
- Paths follow POSIX `os.path.join` and the disk compares them as exact
  strings; Windows path joining and case-insensitive lookup are not modelled.
