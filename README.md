# A verified model of the `WebCrawler` core of crawler.py

This project models the core of the site crawler in `crawler.py`, the
`WebCrawler` class, in Dafny. It covers four parts:

- **Scope and classification.** The `/xx-yy/` language pattern taken from
  the start URL. The exclusion and same-language tests. The
  downloadable-file test on the lower-cased URL path. The choice of a
  category (PDF, Image, Doc) and an extension, from the URL path first and
  then from the Content-Type. These use the extension and MIME tables of
  `__init__`.
- **String normalisers.** `sanitize_filename`, which builds
  `name[_page_NNN]_hash8ext`, and `clean_text`.
- **The breadth-first walk `extract_urls`.** This is imperative code over
  the crawler's state: `visited_pages`, `downloaded_files`, the per-category
  download counters of `stats`, and the files under the output directory.
  It includes what `download_file` does to that state.
- **The tracking file.** `load_downloaded_files` and
  `save_downloaded_files`.

The network is an oracle, the `Crawler.Web` value. It gives:

- the already-absolute links of every page whose GET answers 200;
- the Content-Type of every HEAD request that does not raise, and of the
  plain GET that is tried when HEAD raises;
- the URLs whose streamed download answers 200;
- the 8-character MD5 prefix, as an uninterpreted function whose results
  are eight lower-case hexadecimal digits (`Filename.Digest`).

A URL is a record of its full text, its `netloc` and its `path`, already
split.

The modules are:

- `Wrappers`: `Option`.
- `Text`: substring, `endswith`, ASCII lower-casing, `str.strip` with
  Python's whitespace set, and code-point order.
- `Classify`: the tables, the scope predicates and the file type.
- `Filename`: `sanitize_filename`.
- `Cleaning`: `clean_text`.
- `Tracking`: the text of the tracking file.
- `Crawler`: the class `WebCrawler` and its operations.

The walk is proved against a ghost log of every entry the queue ever held.
The queue is always the part of the log not yet dequeued. Each entry after
the start records the entry whose page linked to it. From this log the model
proves the following:

- The log is exactly the breadth-first one: a reference function,
  `QueuedAfter`, computes from the oracle alone the entries queued after
  each dequeue (each expanded page appends, in order, the admissible new
  links found before its first failing link), and the log of the run
  equals it.
- The queue is first in, first out: the parents of the logged entries
  never decrease along the log.
- No URL is queued twice.
- `visited_pages` is the old set plus the logged URLs.
- Every later entry passes the link filter, is not a file, and sits one
  level below an entry that was expanded.
- Depths never decrease along the queue and stay within `max_depth + 1`.
- Every expanded page had all its admissible links visited, up to the
  first link whose probes both raised.
- Every file handed to the download step is handled: the start URL when
  it is a file within the depth and not excluded, and every file link of
  an expanded page up to the first link whose probes both raised. A file
  is handled when its URL is in `downloaded_files`, or both its probes
  raised, or no category was found for it, or the path the pre-check
  builds for it is on disk.
- `downloaded_files` and the files on disk only grow, and
  `downloaded_files` gains only URLs that were handed to the download
  step: the start URL when it is a file, and file links found before the
  first failing link of an expanded page.
- The download counters always equal the number of files of each category
  written in the run.
- Every file written in the run was written for a URL that is in
  `downloaded_files` (a ghost map records which URL each file came from).
  So a handled file whose URL is not recorded had its pre-check path on
  disk before the run, or written for a different recorded URL.

Where the code differs from its stated intent, the model follows the code:

- The domain test is a substring test on `netloc`.
- The start URL is marked visited without any filter.
- A link to a file whose HEAD and GET both raise aborts the rest of that
  page's links, because the exception reaches the outer `try`.
- A URL is added to `downloaded_files` after `download_file` whatever that
  returned.
- The existence pre-check in `extract_urls` builds the file name with the
  category's mapping of the Content-Type, or `.txt` when the table lacks
  it. `download_file` uses the URL's own extension instead. When the
  Content-Type is missing or belongs to another category, the two names
  differ (`Crawler.PrecheckMissesUnmappedType`). The pre-check then never
  finds the file, and only the check inside `download_file` prevents a
  second download.
- The output directory is named after the time of construction
  (crawler.py:42), so every run gets a new one. `load_downloaded_files`
  (crawler.py:432-441) reads the tracking file from that fresh directory,
  where no earlier run could have written it. In practice it always finds
  nothing, and no dedup across runs happens.
  `Crawler.WebCrawler.LoadDownloadedFiles` still models the case where the
  file is there, as the code reads it. `Tracking.LoadAfterSave` states what
  reading it would give.

## Model

| member | source | states |
|---|---|---|
| Text.StripCut | crawler.py:249 | `strip()` returns a slice of its argument with only whitespace cut from both ends |
| Text.LexLessTotal | crawler.py:448 | any two different strings are ordered one way or the other by the code-point order `sorted` uses |
| Text.LexLessTransitive | crawler.py:448 | that order is transitive |
| Classify.ContentTypesDisjoint | crawler.py:62-80 | no Content-Type appears in two categories' MIME tables |
| Classify.FindLocale | crawler.py:28-36 | the result is the leftmost occurrence in the start URL of `/xx-yy/` with xx in {fr, en} and yy in {ca, us}; none only if no such occurrence exists |
| Classify.LanguagePattern | crawler.py:28-34 | the pattern is the text of the leftmost `/xx-yy/` match that `FindLocale` returns, a 7-character substring of the start URL; it is present exactly when there is a match, so absent exactly when no locale pattern occurs in it |
| Classify.ShouldExclude | crawler.py:130-135 | true exactly when some excluded segment is a substring of the URL |
| Classify.IsSameLanguage | crawler.py:137-141 | true exactly when there is no language pattern or the pattern is a substring of the URL |
| Classify.DomainMatches | crawler.py:388 | true exactly when the start domain is a substring of the link's `netloc` |
| Classify.HasExtension | crawler.py:147-148 | true exactly when the path ends with the extension, optionally followed by a dot and a non-empty run of `[a-z0-9]` |
| Classify.IsDownloadable | crawler.py:143-148 | true exactly when the lower-cased path ends with one of the twelve listed extensions, in that suffix form |
| Classify.DownloadableReadsPathOnly | crawler.py:145-146 | the test depends on the path alone, not on the host, query or fragment |
| Classify.DownloadableIgnoresCase | crawler.py:146-147 | upper-casing the path does not change the test |
| Classify.FirstExtension | crawler.py:156-158 | the index of the first extension of a list that matches the path, or none when none matches |
| Classify.CategoryByPath | crawler.py:155-159 | the first category in the order PDF, Image, Doc with a matching extension, with its first matching extension |
| Classify.CategoryByType | crawler.py:161-164 | the first category whose MIME table holds the Content-Type, or none |
| Classify.FileTypeAndExtensionChoice | crawler.py:150-166 | a path match wins with its first category; its extension is the table's mapping of the lower-cased Content-Type when present, else the URL's matching extension; without a path match the result exists exactly when some MIME table holds the type, and is that table's mapping |
| Classify.FileTypeExtensionIsListed | crawler.py:150-166 | the extension returned is always one of its category's extensions |
| Classify.MappedIsExtension | crawler.py:52-80 | every MIME mapping gives an extension listed for the same category |
| Classify.DownloadableIffSomeCategory | crawler.py:143-158 | a URL is downloadable exactly when some category's extension matches its path |
| Classify.DownloadableHasCategory | crawler.py:143-166 | a downloadable URL gets a category whatever its headers say |
| Filename.LastSegment | crawler.py:171 | the result is a suffix of the URL without `/`, preceded by `/` when shorter than the URL |
| Filename.SafeChars | crawler.py:175 | same length; characters outside `[A-Za-z0-9_.-]` become `_`, the others stay in place |
| Filename.SplitExt | crawler.py:176 | `splitext`: the two parts rebuild the name; a non-empty extension is a dot followed by no dot, with a non-dot before it; an empty one means every dot is preceded only by dots |
| Filename.Stem | crawler.py:171-176 | the name part is never empty and holds only safe characters |
| Filename.Decimal | crawler.py:182 | the decimal digits of a number, without a leading zero, whose value is the number |
| Filename.ZeroPad | crawler.py:182 | padding with zeros keeps the value and reaches the width |
| Filename.PageNumber | crawler.py:182 | `{:03d}`: the digits give the page number, after a `-` when it is negative, and the length is exactly the larger of 3 and the sign plus the digits of `str(abs(n))`, so zeros pad only up to three characters |
| Filename.DefaultExtension | crawler.py:178-179 | the extension used is never empty (`.txt` replaces an empty one) |
| Filename.Sanitize | crawler.py:168-187 | the name starts with the stem, has `_page_` and the number right after it when a page is given, and ends with `_`, the hash and the extension; its length is the sum of those parts |
| Filename.SanitizeEndsWithExtension | crawler.py:178-184 | the name ends with the extension used |
| Filename.SanitizeIsSafe | crawler.py:168-187 | with a safe hash and extension, the name holds only safe characters and no `/` |
| Filename.SanitizeSeparatesHashes | crawler.py:170-184 | two equal names with hashes of the same length have equal hashes |
| Cleaning.RemoveControl | crawler.py:245 | no control character of the class is left and no character is added; a text without one is left as it is; every visible character stays in order |
| Cleaning.RemoveControlConcat | crawler.py:245 | the substitution distributes over concatenation, so with the contract above a character is dropped exactly when it is a control character and every other one stays in place |
| Cleaning.CollapseBlanks | crawler.py:246 | no tab and no two spaces in a row are left; every character is a space or comes from the input |
| Cleaning.BlankRunIsOneSpace | crawler.py:246 | a whole run of spaces and tabs becomes exactly one space |
| Cleaning.CollapseBlanksConcat | crawler.py:246 | split anywhere except inside a run of spaces and tabs, the parts are collapsed independently; with `BlankRunIsOneSpace` and `CollapseBlanksKeeps`, each maximal run becomes one space and every other character stays in place |
| Cleaning.CollapseBlanksKeeps | crawler.py:246 | a text without tabs and without two spaces in a row is left as it is |
| Cleaning.CollapseBlanksVisible | crawler.py:246 | collapsing spaces and tabs keeps the visible characters in order |
| Cleaning.LineStep | crawler.py:247 | one match of `\n\s*\n` or one kept character at the head of the text. A character other than a line break is kept alone. At a line break it yields two line breaks exactly when the whitespace run after it holds another line break, and then it consumes up to the last line break of that run; otherwise it keeps the single line break and consumes nothing else |
| Cleaning.LineStepVisible | crawler.py:247 | one step keeps the visible characters of what it consumes |
| Cleaning.LineStepLeading | crawler.py:247 | after a step at a line break, the whitespace that starts the rest holds no line break |
| Cleaning.CollapseBlankLines | crawler.py:247 | no character is added and the first character stays |
| Cleaning.CollapseBlankLinesKeeps | crawler.py:247 | a text without blank runs is left as it is |
| Cleaning.LineStepKeeps | crawler.py:247 | without blank runs, each step yields exactly the characters it consumes |
| Cleaning.CollapseBlankLinesVisible | crawler.py:247 | collapsing blank lines keeps the visible characters in order |
| Cleaning.CollapseBlankLinesNoDoubleSpace | crawler.py:247 | it never puts two spaces next to each other |
| Cleaning.CollapseBlankLinesNoBlankRun | crawler.py:247 | afterwards no two line breaks that are not adjacent have only whitespace between them |
| Cleaning.CleanText | crawler.py:240-249 | empty input gives empty output; the result has no whitespace at either end; a text that is already clean (no control character, no tab, no double space, no blank run, no whitespace at the ends) comes back unchanged |
| Cleaning.CleanTextIsClean | crawler.py:240-249 | the result has no control character, no tab, no double space and no blank line holding whitespace or following another |
| Cleaning.CleanTextKeepsVisible | crawler.py:240-249 | the result keeps all visible characters of the text, in order |
| Cleaning.CleanTextIdempotent | crawler.py:240-249 | cleaning a cleaned text changes nothing |
| Tracking.JoinLinesAppend | crawler.py:447-448 | writing one more URL appends it and a line break to the text |
| Tracking.LeastExists | crawler.py:448 | every non-empty set of URLs has a least element |
| Tracking.Sorted | crawler.py:448 | `sorted(s)` is strictly increasing and holds exactly the elements of `s` |
| Tracking.SortedStartsWithLeast | crawler.py:448 | `sorted(s)` starts with the least element, followed by the sorted rest |
| Tracking.SortedUnique | crawler.py:448 | any strictly increasing listing of exactly the elements of `s` is `sorted(s)` |
| Tracking.UniversalNewlines | crawler.py:436-437 | reading in text mode leaves no carriage return, and changes nothing in a text without one |
| Tracking.Lines | crawler.py:437-438 | the lines of a text concatenate back to it; each is non-empty, has a line break only at its end, and all but the last end with one |
| Tracking.StrippedUpToNext | crawler.py:437-438 | one more line read adds its stripped form to the set |
| Tracking.StrippedUpToAll | crawler.py:437-438 | reading every line gives the set of all stripped lines |
| Tracking.LinesOfJoin | crawler.py:437-448 | reading back the written text gives one line per URL, the URL and its line break |
| Tracking.LoadJoinLines | crawler.py:432-452 | loading the text written for a list of storable URLs gives exactly those URLs |
| Tracking.LoadAfterSave | crawler.py:432-452 | loading what `save_downloaded_files` wrote gives back the saved set, when no URL holds a line break or surrounding whitespace |
| Crawler.Probe | crawler.py:338-344 | the response is absent exactly when both the HEAD and the GET fallback raise |
| Crawler.MappedExtension | crawler.py:347 | the table entry of the lower-cased Content-Type when the category's table has one, and empty otherwise; never an extension outside the table |
| Crawler.PrecheckPath | crawler.py:346-348 | the pre-check has a path exactly when a category is found, in that category's folder |
| Crawler.DownloadPath | crawler.py:194-201 | `download_file` has a path exactly when a category is found, in that category's folder |
| Crawler.PrecheckMatchesDownload | crawler.py:346-350 | when the category's table holds the Content-Type, the pre-check tests the very path `download_file` writes |
| Crawler.PrecheckMissesUnmappedType | crawler.py:346-350 | otherwise the pre-check looks for a `.txt` name that differs from the one `download_file` writes |
| Crawler.DownloadOutcomeShape | crawler.py:194-216 | a file that gets written is new, had a HEAD answer and a 200 stream, lies in its category's folder, and its name ends with one of that category's extensions |
| Crawler.SavedNamesAreSafe | crawler.py:170-200 | with the eight hexadecimal digits of the MD5 prefix, every name the pre-check tests and `download_file` writes holds only the characters `sanitize_filename` keeps and no `/`, so it names a file directly inside its category folder |
| Crawler.DownloadPathsSeparate | crawler.py:170-200 | two URLs with different MD5 prefixes that get the same extension never write to the same path |
| Crawler.Reach | crawler.py:368-375 | the link loop reaches the first link whose probes both raise, or the end, and no earlier link failed |
| Crawler.ReachFrom | crawler.py:368-375 | from a given link on, the loop reaches the first link whose probes both raise, or the end, and none before it failed |
| Crawler.ReachIs | crawler.py:368-375 | a position with no failure before it, and a failure or the end at it, is where the loop stops |
| Crawler.CountsAfterWrite | crawler.py:215 | bumping one category's counter for a new file keeps every counter equal to the number of written files of its category |
| Crawler.Bump | crawler.py:215 | the counter of the given category goes up by one, counting a missing key as 0, and every other counter is unchanged |
| Crawler.WebCrawler.constructor | crawler.py:20-39 | records the start URL, the depth, the domain and the excluded segments; sets the language pattern and codes from the first locale occurrence; starts with empty sets and counters |
| Crawler.WebCrawler.DownloadFile | crawler.py:189-226 | on a HEAD answer with a category, a new path and a 200 stream, it writes that file, adds it, bumps its category's counter and adds the URL to `downloaded_files`; otherwise it returns False and changes nothing |
| Crawler.WebCrawler.RecordDownload | crawler.py:209-218 | the file is added, only its category's counter goes up by one, the URL joins `downloaded_files` and is recorded as the file's writer, and the counters stay exact |
| Crawler.WebCrawler.HandleDownloadable | crawler.py:336-356 | reports whether both probes raised; visits nothing; leaves exactly the state `AfterFile` gives: when the pre-check lets it through, the URL joins `downloaded_files` and, if `download_file` writes a file, that file is added, its category's counter goes up by one and the URL is its writer; otherwise nothing changes |
| Crawler.WebCrawler.AfterFile | crawler.py:336-356 | the state `HandleDownloadable` leaves only adds files and recorded URLs, records at most this URL, and leaves the URL handled |
| Crawler.WebCrawler.DownloadAndRecord | crawler.py:354-355 | past the pre-check, `download_file` runs with its outcome (file, counter and writer) and the URL joins `downloaded_files` whatever it returned |
| Crawler.WebCrawler.PickedShape | crawler.py:363-395 | the pages the link loop picks from the first `k` links come from those links, pass the filter, are not files and were not visited before; none is picked twice; every admissible non-file link among them was visited before or is picked |
| Crawler.WebCrawler.PickedFrom | crawler.py:388-395 | every page picked from the first `k` links is one of them, passes the filter, is not a file and was not visited before |
| Crawler.WebCrawler.PickedDistinct | crawler.py:388-395 | no page is picked twice, because a picked URL is marked visited at once |
| Crawler.WebCrawler.PickedCovers | crawler.py:388-395 | every admissible non-file link among the first `k` was visited before or is picked |
| Crawler.WebCrawler.PickedFacts | crawler.py:362-395 | for the links before the first failing link: each page picked is a link of the page, admissible, not a file and new; none twice; every admissible link before the failure ends up visited |
| Crawler.WebCrawler.VisitLink | crawler.py:363-395 | one link keeps the loop invariant: a file is handled (its URL joins `downloaded_files`, or both probes raised, or it has no category, or its pre-check path is on disk) and a page link that passes the filter and was not visited is appended to the found pages, which otherwise stay as they are; a file link leaves exactly the state `AfterFile` gives and any other link changes no file, counter, writer or recorded URL; it stops exactly on a link whose probes both raise |
| Crawler.WebCrawler.VisitFile | crawler.py:368-386 | a file link leaves exactly the state `AfterFile` gives and visits nothing; it ends up handled, which keeps the loop invariant one link further on; the loop stops exactly when both its probes raised |
| Crawler.WebCrawler.FileStep | crawler.py:368-386 | a handled file link, which adds at most its own URL to `downloaded_files` and nothing when both probes raised, keeps the loop invariant one link further on unless both probes raised; files handled earlier stay handled as the sets grow, and `downloaded_files` still gains only file links before the current one |
| Crawler.WebCrawler.VisitPage | crawler.py:388-395 | a link that is not a file keeps the loop invariant one link further on; the found pages become the old ones plus this link when it passes the filter and was not visited, and stay as they are otherwise; files, counters, writers and `downloaded_files` are unchanged |
| Crawler.WebCrawler.FollowLinks | crawler.py:362-395 | the pages returned are exactly `Picked` of the links before the first link whose probes both raise, in link order, and they are the pages newly marked visited; the files, counters, writers and `downloaded_files` are exactly `LinkStore` of those links: `HandleDownloadable` on each file link in turn, nothing for the others; so every file link before that failure is handled, `downloaded_files` grows only by those links and files on disk are only added |
| Crawler.WebCrawler.LinkStoreFacts | crawler.py:362-395 | the link loop's state only adds files and recorded URLs, records only file links among those it reached, and leaves each of them handled |
| Crawler.WebCrawler.QueuedAfter | crawler.py:321-394 | the breadth-first log computed from the oracle always starts with the start entry at depth 0 |
| Crawler.WebCrawler.Started | crawler.py:321-323 | the walk starts with the start entry at depth 0, the start URL visited and the files, counters, writers and recorded URLs as they were |
| Crawler.WebCrawler.Finished | crawler.py:326-398 | once every entry is dequeued, the log is the breadth-first `QueuedAfter` log, its parents are first in first out, it is linked, filtered, layered and fresh, every expanded page is covered, and the state is `WalkStore` of the whole log; hence files are only added, `downloaded_files` lies between the old set and the old set plus the URLs handed over, and every file handed over is handled |
| Crawler.WebCrawler.SkipStep | crawler.py:328-359 | an entry too deep, excluded, a file or not answering 200 adds nothing to the queue and, with the state `ItemStore` gives for it, keeps the walk invariant, the breadth-first log included |
| Crawler.WebCrawler.ExpandStep | crawler.py:358-395 | an expanded page appends exactly the pages its link loop picked, in order, one level deeper, with itself as their parent, and with the state `ItemStore` gives for it keeps the walk invariant (the breadth-first log and first-in-first-out parents included) |
| Crawler.WebCrawler.LayeredMonotone | crawler.py:321-394 | entries leave the queue in order of depth |
| Crawler.WebCrawler.DepthBounds | crawler.py:326-394 | every entry after the start lies between depth 1 and `max_depth + 1` |
| Crawler.WebCrawler.ProcessItem | crawler.py:328-398 | dequeuing one entry keeps the walk invariant, including the breadth-first log and that the state is `WalkStore` of the dequeued entries; it leaves exactly the state `ItemStore` gives: an expanded entry's link loop (`LinkStore`), `HandleDownloadable` for a file within the depth and not excluded, nothing for any other entry; an entry that is not expanded queues nothing; an expanded entry queues exactly `Picked` of its page's links before the first failure, in order; the new entries are exactly the pages it newly visited; files on disk are only added |
| Crawler.WebCrawler.ItemStoreFacts | crawler.py:328-398 | one dequeued entry's state only adds files and recorded URLs, records only URLs it handed to the download step, and leaves each of them handled |
| Crawler.WebCrawler.ProcessFile | crawler.py:336-356 | a file, dequeued or linked, visits nothing and leaves exactly the state `AfterFile` gives; files are only added to disk; so the file ends up handled; it reports whether both probes raised |
| Crawler.WebCrawler.Turn | crawler.py:327-398 | one turn of the loop keeps the invariant, the state being `WalkStore` of the dequeued entries; the turn's own state change is exactly `ItemStore` of the head entry; the log only grows at its end, and the new queue is the old one without its head followed by the new log entries; either new pages are visited or the queue gets shorter |
| Crawler.WebCrawler.WalkStorePrefix | crawler.py:326-398 | appending entries to the queue does not change the state reached by dequeuing the earlier ones |
| Crawler.WebCrawler.WalkStoreFacts | crawler.py:326-398 | the walk's state only adds files and recorded URLs, records only URLs handed to the download step, and leaves every one of them handled |
| Crawler.WebCrawler.ExtractUrls | crawler.py:319-398 | the log is exactly the breadth-first log `QueuedAfter` computes from the oracle, starting with `(start, 0)`; parents never decrease along it (first in, first out); `visited_pages` becomes the old set plus the logged URLs; no URL is logged twice and none after the start was visited before; each later entry passes the filter, is not a file and is a link of an expanded earlier entry one level up; depths never decrease; every expanded page had its admissible links up to the first failure visited; the files, counters, writers and `downloaded_files` are exactly `WalkStore` of the log, each dequeued entry's `ItemStore` in queue order; so every file handed to the download step is handled, the start URL included when it is a file within the depth and not excluded, `downloaded_files` only grows, and only by those URLs, and files on disk are only added; the counters stay exact |
| Crawler.WebCrawler.LoadDownloadedFiles | crawler.py:432-441 | a missing file changes nothing; otherwise the stripped lines of the file are added to `downloaded_files`; nothing else changes and the crawler invariant is kept |
| Crawler.WebCrawler.AddStripped | crawler.py:437-438 | after the loop `downloaded_files` holds the old set plus every stripped line; nothing else changes and the crawler invariant is kept |
| Crawler.WebCrawler.SaveDownloadedFiles | crawler.py:443-452 | the text written is the URLs of `downloaded_files` in sorted order, one per line |

## Left out

- The HTTP session, its retry and backoff policy, the TLS setting and the User-Agent (crawler.py:92-108) are library configuration. The `Web` oracle replaces them.
- Actual fetching is left out. The oracle is fixed for one run, so a URL answers the same way every time it is asked.
- The streamed write of `download_file` is left out. A download either writes its file or writes nothing; a partial file after a failed stream is not modelled.
- BeautifulSoup parsing, `convert_links_to_absolute`, `html2text` and `extract_content` (crawler.py:228-317) are foreign HTML libraries. Each page's links arrive as a list from the oracle, already absolute.
- `urljoin` and `urlparse` (URL resolution per section 5.2 of RFC 3986) are left out. URLs arrive already split into full text, `netloc` and `path`.
- The MD5 hash (crawler.py:170) is an uninterpreted function of the URL that returns eight hexadecimal digits. Nothing is assumed about collisions.
- The filesystem, logging, directory creation and timestamps (crawler.py:42, 110-128) are left out. The tracking file is passed in as its content, `None` when missing, and returned as the text written. A write error on save is not modelled. The output directory is a set of `(category, name)` paths.
- `crawl()` (crawler.py:400-430) is left out. Its second phase, content extraction over `visited_pages`, is I/O on top of the foreign libraries. Report generation (crawler.py:454-532) is left out as formatting.
- main.py and pipeline.py are not part of this model. They are command-line and orchestration glue.
- `stats` keys other than the per-category download counters (`pages_processed`) belong to the content phase, which is left out.
- Case handling is modelled on ASCII letters only, both the lower-casing and the `re.IGNORECASE` matching (crawler.py:145-148, 152-157). Python's `str.lower` also maps other Unicode letters (the Kelvin sign, for instance). Its case-insensitive `re` also matches 'ſ' (U+017F) with `s` and 'ı' (U+0131) with `i` and with `[a-z]`. So a path such as `/a.ſvg` or `/a.pdf.ı` is a file to the source, while `Classify.IsDownloadable` says it is not.
- `Classify.IsDownloadable` and `Classify.HasExtension` read the regular expressions' `$` (crawler.py:147, 157) as the end of the path. Python's `$` also matches just before a final line break. `urlsplit` removes line breaks from URLs, so a path never ends with one.
- `\w` in `sanitize_filename` is modelled as `[A-Za-z0-9_]`. Python's Unicode word characters beyond ASCII are not modelled.
- `Crawler.WebCrawler.ExtractUrls`: `Downloads` (every file handed over is handled) is stated against the files on disk at the end of the run, not at the moment each file was handled. Since files are only added, a file skipped because its pre-check path was on disk is still skipped then; the exact state at each step is `WalkStore`.
- `Crawler.WebCrawler.SaveDownloadedFiles`: the order Python's `sorted` gives strings is modelled as the code-point order of the characters.
- `Crawler.WebCrawler.DownloadFile`: the early returns (no category, file exists, status not 200, exception) are folded into one case analysis, `DownloadOutcome`; each return path is a case of it.
- `Crawler.WebCrawler.constructor`: the default `max_depth=2` of `__init__` (crawler.py:20, relied on by the call at crawler.py:536) is not modelled, since Dafny has no default arguments; the depth is always passed explicitly.
- `sanitize_filename`'s unused `file_type` argument is dropped from `Filename.Sanitize`.
