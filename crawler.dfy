/** The state of `WebCrawler` (crawler.py) and the operations that change
    it: the breadth-first link extraction `extract_urls`, the effect of
    `download_file` on the counters, the tracking set and the files on disk,
    and the tracking-file load and save. The network is an oracle. */
module Crawler {
  import opened Wrappers
  import opened Text
  import opened Classify
  import opened Filename
  import opened Tracking

  // ---------------------------------------------------------------------
  // The network

  /** What the web answers, fixed for one run.
      `pages`: the links of each page whose GET answers 200, already
      absolute and split (absent: the GET raised or the status was not 200).
      `head`: the Content-Type of a HEAD request, "" when the header is
      missing (absent: the request raised).
      `get`: the same for a plain GET, which `extract_urls` tries when HEAD
      raises.
      `stream`: the URLs whose streamed GET in `download_file` answers 200
      and is written out completely.
      `digest`: `hashlib.md5(url.encode()).hexdigest()[:8]`. */
  datatype Web = Web(
    pages: map<string, seq<Url>>,
    head: map<string, string>,
    get: map<string, string>,
    stream: set<string>,
    digest: string -> Digest)

  /** Every URL that some page links to. */
  ghost function AllLinks(web: Web): set<string> {
    set p, u | p in web.pages && u in web.pages[p] :: u.full
  }

  /** `os.path.join(base_dir, file_type, filename)`: the name holds no
      slash, so the pair determines the path. */
  datatype SavePath = SavePath(category: Category, name: string)

  /** A queue entry `(url, depth)`. */
  datatype Item = Item(url: Url, depth: int)

  /** The response `extract_urls` classifies a downloadable URL by: the
      HEAD response, or, when HEAD raises, a plain GET; `None` when both
      raise (crawler.py:338-343, 370-375). */
  function Probe(url: string, web: Web): (r: Option<string>)
    ensures r.None? <==> url !in web.head && url !in web.get
  {
    if url in web.head then Some(web.head[url])
    else if url in web.get then Some(web.get[url])
    else None
  }

  /** `content_type_mapping[c].get(ct.lower(), '')`. */
  function MappedExtension(c: Category, contentType: string): (r: string)
    ensures r == [] || r in ContentTypes(c).Values
    ensures Lower(contentType) in ContentTypes(c) ==> r == ContentTypes(c)[Lower(contentType)]
    ensures Lower(contentType) !in ContentTypes(c) ==> r == ""
  {
    if Lower(contentType) in ContentTypes(c) then ContentTypes(c)[Lower(contentType)] else ""
  }

  /** The path `extract_urls` tests before it calls `download_file`
      (crawler.py:345-350, 377-382): the category of
      `get_file_type_and_extension`, and a name built with the category's
      mapping of the Content-Type, or no extension. */
  function PrecheckPath(u: Url, contentType: string, digest: string -> Digest): (r: Option<SavePath>)
    ensures r.Some? <==> FileTypeAndExtension(u, contentType).Some?
    ensures r.Some? ==> r.value.category == FileTypeAndExtension(u, contentType).value.0
  {
    match FileTypeAndExtension(u, contentType)
    case None => None
    case Some((c, _)) =>
      Some(SavePath(c, Sanitize(u.full, digest(u.full), MappedExtension(c, contentType), None)))
  }

  /** The path `download_file` writes (crawler.py:194-200): the category and
      the extension of `get_file_type_and_extension`. */
  function DownloadPath(u: Url, contentType: string, digest: string -> Digest): (r: Option<SavePath>)
    ensures r.Some? <==> FileTypeAndExtension(u, contentType).Some?
    ensures r.Some? ==> r.value.category == FileTypeAndExtension(u, contentType).value.0
  {
    match FileTypeAndExtension(u, contentType)
    case None => None
    case Some((c, ext)) => Some(SavePath(c, Sanitize(u.full, digest(u.full), ext, None)))
  }

  /** When the category's table holds the Content-Type, both steps compute
      the same path. */
  lemma PrecheckMatchesDownload(u: Url, contentType: string, digest: string -> Digest)
    requires FileTypeAndExtension(u, contentType).Some?
    requires Lower(contentType) in ContentTypes(FileTypeAndExtension(u, contentType).value.0)
    ensures PrecheckPath(u, contentType, digest) == DownloadPath(u, contentType, digest)
  {
  }

  /** No extension of the tables ends with ".txt". */
  lemma NoExtensionIsTxt(c: Category, e: string)
    requires e in Extensions(c)
    ensures !EndsWith(e, ".txt") && 4 <= |e|
  {
  }

  /** Two strings with different endings of the same length differ. */
  lemma EndingsDiffer(s: string, t: string, a: string, b: string)
    requires EndsWith(s, a) && EndsWith(t, b) && |a| <= |b| && !EndsWith(b, a)
    ensures s != t
  {
    if |s| == |t| {
      assert t[|t| - |a|..] == b[|b| - |a|..];
      assert s[|s| - |a|..] != t[|t| - |a|..];
    }
  }

  /** When it does not (the path decided the category and the Content-Type
      is missing or belongs elsewhere), the pre-check looks for a ".txt"
      file while `download_file` writes one with the URL's own extension:
      the two names differ, so the pre-check never finds that file. */
  lemma PrecheckMissesUnmappedType(u: Url, contentType: string, digest: string -> Digest)
    requires FileTypeAndExtension(u, contentType).Some?
    requires Lower(contentType) !in ContentTypes(FileTypeAndExtension(u, contentType).value.0)
    ensures EndsWith(PrecheckPath(u, contentType, digest).value.name, ".txt")
    ensures PrecheckPath(u, contentType, digest) != DownloadPath(u, contentType, digest)
  {
    var c := FileTypeAndExtension(u, contentType).value.0;
    var e := FileTypeAndExtension(u, contentType).value.1;
    var h := digest(u.full);
    FileTypeExtensionIsListed(u, contentType);
    NoExtensionIsTxt(c, e);
    SanitizeEndsWithExtension(u.full, h, "", None);
    SanitizeEndsWithExtension(u.full, h, e, None);
    EndingsDiffer(Sanitize(u.full, h, "", None), Sanitize(u.full, h, e, None), ".txt", e);
  }

  /** The extensions of the tables are made of kept characters. */
  lemma ExtensionsAreSafe(c: Category)
    ensures forall e :: e in Extensions(c) ==> AllSafe(e)
  {
  }

  /** Every name the crawler tests or writes is a plain file name: only the
      characters `sanitize_filename` keeps and no slash, so a `SavePath`
      stands for a file directly inside its category folder. */
  lemma SavedNamesAreSafe(u: Url, contentType: string, digest: string -> Digest)
    ensures PrecheckPath(u, contentType, digest).Some? ==>
              var name := PrecheckPath(u, contentType, digest).value.name;
              AllSafe(name) && forall i :: 0 <= i < |name| ==> name[i] != '/'
    ensures DownloadPath(u, contentType, digest).Some? ==>
              var name := DownloadPath(u, contentType, digest).value.name;
              AllSafe(name) && forall i :: 0 <= i < |name| ==> name[i] != '/'
  {
    var r := FileTypeAndExtension(u, contentType);
    if r.Some? {
      var c := r.value.0;
      ExtensionsAreSafe(c);
      if Lower(contentType) in ContentTypes(c) {
        MappedIsExtension(c, Lower(contentType));
      }
      DigestIsSafe(digest(u.full));
      FileTypeExtensionIsListed(u, contentType);
      SanitizeIsSafe(u.full, digest(u.full), MappedExtension(c, contentType), None);
      SanitizeIsSafe(u.full, digest(u.full), r.value.1, None);
    }
  }

  /** Two URLs with different digests never share the path `download_file`
      writes when they get the same extension, whatever their last
      segments. */
  lemma DownloadPathsSeparate(u1: Url, ct1: string, u2: Url, ct2: string, digest: string -> Digest)
    requires FileTypeAndExtension(u1, ct1).Some? && FileTypeAndExtension(u2, ct2).Some?
    requires FileTypeAndExtension(u1, ct1).value.1 == FileTypeAndExtension(u2, ct2).value.1
    requires digest(u1.full) != digest(u2.full)
    ensures DownloadPath(u1, ct1, digest) != DownloadPath(u2, ct2, digest)
  {
    var e := FileTypeAndExtension(u1, ct1).value.1;
    if DownloadPath(u1, ct1, digest) == DownloadPath(u2, ct2, digest) {
      SanitizeSeparatesHashes(u1.full, u2.full, digest(u1.full), digest(u2.full), e, None, None);
    }
  }

  /** What `download_file(url)` writes, if anything: the HEAD response
      decides the category and the path (no GET fallback here: an
      exception returns False), an existing file is skipped, and the
      streamed GET must answer 200. */
  function DownloadOutcome(u: Url, web: Web, saved: set<SavePath>): Option<SavePath>
  {
    if u.full !in web.head then None
    else
      match DownloadPath(u, web.head[u.full], web.digest)
      case None => None
      case Some(p) => if p !in saved && u.full in web.stream then Some(p) else None
  }

  /** A file `download_file` writes is new, and it goes to the folder of
      the category of its URL and HEAD response, under a name ending with
      the extension chosen for it, one of that category's extensions. */
  lemma DownloadOutcomeShape(u: Url, web: Web, saved: set<SavePath>)
    requires DownloadOutcome(u, web, saved).Some?
    ensures u.full in web.head && u.full in web.stream
    ensures var p := DownloadOutcome(u, web, saved).value;
            var r := FileTypeAndExtension(u, web.head[u.full]);
            p !in saved && r.Some? && p.category == r.value.0
            && r.value.1 in Extensions(p.category) && EndsWith(p.name, r.value.1)
  {
    var ct := web.head[u.full];
    var r := FileTypeAndExtension(u, ct);
    FileTypeExtensionIsListed(u, ct);
    NoExtensionIsTxt(r.value.0, r.value.1);
    SanitizeEndsWithExtension(u.full, web.digest(u.full), r.value.1, None);
  }

  /** A downloadable URL for which the HEAD and the GET probes both raise:
      the exception leaves the link loop (crawler.py:374-375, caught at 397). */
  predicate Fails(u: Url, web: Web) {
    IsDownloadable(u) && Probe(u.full, web).None?
  }

  /** How far the link loop gets from index `i` on: up to the first
      failing link, or to the end. */
  function ReachFrom(links: seq<Url>, web: Web, i: nat): (n: nat)
    requires i <= |links|
    ensures i <= n <= |links|
    ensures forall k :: i <= k < n ==> !Fails(links[k], web)
    ensures n < |links| ==> Fails(links[n], web)
    decreases |links| - i
  {
    if i == |links| then i
    else if Fails(links[i], web) then i
    else
      var n := ReachFrom(links, web, i + 1);
      assert forall k :: i < k < n ==> !Fails(links[k], web);
      n
  }

  /** How far the link loop of a page gets: up to the first failing link,
      or to the end. */
  function Reach(links: seq<Url>, web: Web): (n: nat)
    ensures n <= |links|
    ensures forall k :: 0 <= k < n ==> !Fails(links[k], web)
    ensures n < |links| ==> Fails(links[n], web)
  {
    ReachFrom(links, web, 0)
  }

  lemma ReachPast(links: seq<Url>, web: Web, k: nat)
    requires k <= Reach(links, web) && k < |links|
    requires !Fails(links[k], web)
    ensures k < Reach(links, web)
  {
  }

  /** `Reach` is the first failing position. */
  lemma ReachIs(links: seq<Url>, web: Web, k: nat)
    requires k <= |links|
    requires forall m :: 0 <= m < k ==> !Fails(links[m], web)
    requires k == |links| || Fails(links[k], web)
    ensures Reach(links, web) == k
  {
  }

  /** The files of category `c` among `ps`. */
  function CountIn(ps: set<SavePath>, c: Category): nat {
    |set p | p in ps && p.category == c|
  }

  /** The value of the `defaultdict(int)` entry `c`. */
  function CountOf(counts: map<Category, nat>, c: Category): nat {
    if c in counts then counts[c] else 0
  }

  /** `stats[f'{c}_downloaded'] += 1`: that counter goes up by one and
      no other changes. */
  ghost predicate Bumped(before: map<Category, nat>, after: map<Category, nat>, c: Category) {
    forall d: Category :: CountOf(after, d) == CountOf(before, d) + (if d == c then 1 else 0)
  }

  /** `stats[f'{c}_downloaded'] += 1` on a `defaultdict(int)`. */
  function Bump(counts: map<Category, nat>, c: Category): (r: map<Category, nat>)
    ensures Bumped(counts, r, c)
  {
    counts[c := CountOf(counts, c) + 1]
  }

  /** The part of the crawler's state a download changes: the files under
      the output directory, the download counters, `downloaded_files`, and
      the URL each file written in the run was fetched from. */
  datatype Store = Store(saved: set<SavePath>, counts: map<Category, nat>,
                         downloaded: set<string>, writer: map<SavePath, string>)

  /** Each counter counts the files of its category among `written`. */
  ghost predicate CountsMatch(counts: map<Category, nat>, written: set<SavePath>) {
    forall c: Category :: CountOf(counts, c) == CountIn(written, c)
  }

  lemma CountInAdd(ps: set<SavePath>, p: SavePath, c: Category)
    requires p !in ps
    ensures CountIn(ps + {p}, c) == CountIn(ps, c) + (if p.category == c then 1 else 0)
  {
    var before := set q | q in ps && q.category == c;
    var after := set q | q in ps + {p} && q.category == c;
    if p.category == c {
      assert after == before + {p};
    } else {
      assert after == before;
    }
  }

  /** Writing one more file and incrementing its category's counter keeps
      the counters exact. */
  lemma CountsAfterWrite(before: map<Category, nat>, after: map<Category, nat>,
                         written: set<SavePath>, p: SavePath)
    requires CountsMatch(before, written) && p !in written
    requires Bumped(before, after, p.category)
    ensures CountsMatch(after, written + {p})
  {
    forall c: Category
      ensures CountOf(after, c) == CountIn(written + {p}, c)
    {
      CountInAdd(written, p, c);
    }
  }

  function Urls(items: seq<Item>): set<string> {
    set i | 0 <= i < |items| :: items[i].url.full
  }

  function Fulls(us: seq<Url>): set<string> {
    set i | 0 <= i < |us| :: us[i].full
  }

  /** The downloadable URLs among the first `k` of `us`. */
  function FileLinks(us: seq<Url>, k: nat): set<string>
    requires k <= |us|
  {
    set i | 0 <= i < k && IsDownloadable(us[i]) :: us[i].full
  }

  lemma FileLinkIn(us: seq<Url>, k: nat)
    requires k < |us| && IsDownloadable(us[k])
    ensures us[k].full in FileLinks(us, k + 1)
  {
  }

  lemma FileLinksGrow(us: seq<Url>, k: nat, k': nat)
    requires k <= k' <= |us|
    ensures FileLinks(us, k) <= FileLinks(us, k')
  {
  }

  lemma PrefixStep(us: seq<Url>, k: nat)
    requires k < |us|
    ensures us[..k + 1] == us[..k] + [us[k]]
  {
  }

  lemma FullsAppend(us: seq<Url>, u: Url)
    ensures Fulls(us + [u]) == Fulls(us) + {u.full}
  {
    var vs := us + [u];
    assert vs[|us|] == u;
    assert forall i :: 0 <= i < |us| ==> vs[i] == us[i];
  }

  /** The queue entries for the links found on a page at depth `depth`. */
  function Children(found: seq<Url>, depth: int): (r: seq<Item>)
    ensures |r| == |found|
    ensures forall i :: 0 <= i < |r| ==> r[i] == Item(found[i], depth + 1)
  {
    seq(|found|, i requires 0 <= i < |found| => Item(found[i], depth + 1))
  }

  /** `n` copies of `x`. */
  function Same(n: nat, x: nat): (r: seq<nat>)
    ensures |r| == n && forall i :: 0 <= i < n ==> r[i] == x
  {
    seq(n, _ => x)
  }

  lemma UrlsChildren(log: seq<Item>, found: seq<Url>, depth: int)
    ensures Urls(log + Children(found, depth)) == Urls(log) + Fulls(found)
  {
    var log' := log + Children(found, depth);
    forall x | x in Urls(log')
      ensures x in Urls(log) + Fulls(found)
    {
      var i :| 0 <= i < |log'| && log'[i].url.full == x;
      if i >= |log| {
        assert found[i - |log|].full == x;
      }
    }
    forall x | x in Urls(log) + Fulls(found)
      ensures x in Urls(log')
    {
      if x in Urls(log) {
        var i :| 0 <= i < |log| && log[i].url.full == x;
        assert log'[i].url.full == x;
      } else {
        var i :| 0 <= i < |found| && found[i].full == x;
        assert log'[|log| + i].url.full == x;
      }
    }
  }

  /** The links of a fetched page are among all links. */
  lemma PageLinks(web: Web, p: string)
    requires p in web.pages
    ensures Fulls(web.pages[p]) <= AllLinks(web)
  {
    var links := web.pages[p];
    forall i | 0 <= i < |links|
      ensures links[i].full in AllLinks(web)
    {
      assert links[i] in web.pages[p];
    }
  }

  /** Dequeuing the head and appending `more` keeps the queue the unread
      part of the log. */
  lemma QueueStep(queue: seq<Item>, log: seq<Item>, pos: nat, more: seq<Item>)
    requires pos < |log| && queue == log[pos..]
    ensures queue[1..] + more == (log + more)[pos + 1..]
  {
  }

  /** Visiting the pages of `found`, none visited before, leaves fewer
      URLs of a finite universe to visit, unless `found` is empty. */
  lemma Shrinks(all: set<string>, visited: set<string>, visited': set<string>, found: seq<Url>)
    requires visited <= all && visited' <= all && visited' == visited + Fulls(found)
    requires forall i :: 0 <= i < |found| ==> found[i].full !in visited
    ensures found == [] ==> visited' == visited
    ensures found != [] ==> |all - visited'| < |all - visited|
  {
    if found != [] {
      var x := found[0].full;
      var rest := all - visited;
      assert x in visited';
      assert all - visited' <= rest - {x};
      SubsetSize(all - visited', rest - {x});
    } else {
      assert Fulls(found) == {};
    }
  }

  lemma {:induction false} SubsetSize(a: set<string>, b: set<string>)
    requires a <= b
    ensures |a| <= |b|
    decreases a
  {
    if a != {} {
      var y :| y in a;
      SubsetSize(a - {y}, b - {y});
    }
  }

  // ---------------------------------------------------------------------
  // The crawler

  class WebCrawler {
    const startUrl: Url
    const maxDepth: int
    /** `urlparse(start_url).netloc`. */
    const domain: string
    /** `/xx-yy/` found in the start URL, and its two groups. */
    const languagePattern: Option<string>
    const languageCode: Option<string>
    const countryCode: Option<string>
    const excludedPaths: seq<string>

    var visitedPages: set<string>
    var downloadedFiles: set<string>
    /** `stats['<type>_downloaded']`, a `defaultdict(int)`. */
    var downloadedCount: map<Category, nat>
    /** The files under the output directory. */
    var savedFiles: set<SavePath>
    /** The files that were there before the run. */
    ghost const existing: set<SavePath>
    /** For each file written in the run, the URL `download_file` fetched
        it from. */
    ghost var writer: map<SavePath, string>

    /** `stats[f'{c}_downloaded']`: 0 until first incremented. */
    function Count(c: Category): nat
      reads this
    {
      CountOf(downloadedCount, c)
    }

    /** Every file on disk was there before the run or was written by
        `download_file` for a URL now in `downloaded_files`, and each
        counter counts exactly the files of its category written in the
        run. */
    ghost predicate Valid()
      reads this
    {
      existing <= savedFiles && CountsMatch(downloadedCount, savedFiles - existing)
      && forall p :: p in savedFiles && p !in existing ==> p in writer && writer[p] in downloadedFiles
    }

    /** `__init__(start_url, max_depth)`; `onDisk` holds the files found in
        the output directory. */
    constructor (start: Url, depth: int, onDisk: set<SavePath>)
      ensures startUrl == start && maxDepth == depth && domain == start.netloc
      ensures languagePattern == LanguagePattern(start.full)
      ensures FindLocale(start.full).None? ==> languageCode.None? && countryCode.None?
      ensures FindLocale(start.full).Some? ==>
                languageCode == Some(FindLocale(start.full).value.locale.language)
                && countryCode == Some(FindLocale(start.full).value.locale.country)
      ensures excludedPaths == ExcludedPaths
      ensures visitedPages == {} && downloadedFiles == {} && downloadedCount == map[]
      ensures savedFiles == onDisk && existing == onDisk
      ensures Valid()
    {
      startUrl := start;
      maxDepth := depth;
      domain := start.netloc;
      languagePattern := LanguagePattern(start.full);
      match FindLocale(start.full) {
        case None =>
          languageCode := None;
          countryCode := None;
        case Some(m) =>
          languageCode := Some(m.locale.language);
          countryCode := Some(m.locale.country);
      }
      excludedPaths := ExcludedPaths;
      visitedPages := {};
      downloadedFiles := {};
      downloadedCount := map[];
      savedFiles := onDisk;
      existing := onDisk;
      writer := map[];
      new;
      assert savedFiles - existing == {};
    }

    /** The link filter of crawler.py:388-392 apart from the visited test. */
    predicate Admissible(u: Url) {
      DomainMatches(domain, u) && IsSameLanguage(languagePattern, u.full)
      && !IsVoidLink(u.full) && !ShouldExclude(excludedPaths, u.full)
    }

    /** A dequeued entry whose page `extract_urls` fetches and whose links
        it follows. */
    predicate Expanded(item: Item, web: Web) {
      item.depth <= maxDepth && !ShouldExclude(excludedPaths, item.url.full)
      && !IsDownloadable(item.url) && item.url.full in web.pages
    }

    /** Every link before the first failing one that passes the filter and
        is not a file is in `visited`. */
    ghost predicate Covered(links: seq<Url>, web: Web, visited: set<string>) {
      forall k :: 0 <= k < Reach(links, web) && Admissible(links[k]) && !IsDownloadable(links[k]) ==>
        links[k].full in visited
    }

    /** `download_file(url, file_type)` (crawler.py:189-226). */
    method DownloadFile(u: Url, web: Web) returns (ok: bool)
      requires Valid()
      modifies this
      ensures Valid()
      ensures match DownloadOutcome(u, web, old(savedFiles))
              case None => !ok && unchanged(this)
              case Some(p) =>
                ok && savedFiles == old(savedFiles) + {p}
                && downloadedCount == Bump(old(downloadedCount), p.category)
                && downloadedFiles == old(downloadedFiles) + {u.full}
                && visitedPages == old(visitedPages) && writer == old(writer)[p := u.full]
    {
      var outcome := DownloadOutcome(u, web, savedFiles);
      ok := outcome.Some?;
      if ok {
        // the streamed GET answered 200 and the file was written
        RecordDownload(outcome.value, u.full);
      }
    }

    /** The end of a successful `download_file`: the file exists, its
        category's counter goes up and the URL joins `downloaded_files`. */
    method RecordDownload(p: SavePath, url: string)
      requires Valid() && p !in savedFiles
      modifies this
      ensures Valid()
      ensures savedFiles == old(savedFiles) + {p}
      ensures downloadedCount == Bump(old(downloadedCount), p.category)
      ensures downloadedFiles == old(downloadedFiles) + {url}
      ensures visitedPages == old(visitedPages) && writer == old(writer)[p := url]
    {
      ghost var before := downloadedCount;
      assert savedFiles + {p} - existing == savedFiles - existing + {p};
      savedFiles := savedFiles + {p};
      downloadedCount := Bump(downloadedCount, p.category);
      downloadedFiles := downloadedFiles + {url};
      writer := writer[p := url];
      CountsAfterWrite(before, downloadedCount, old(savedFiles) - existing, p);
    }

    /** The pre-check in `extract_urls` lets the download go ahead. */
    predicate Attempted(u: Url, web: Web, saved: set<SavePath>) {
      Probe(u.full, web).Some?
      && PrecheckPath(u, Probe(u.full, web).value, web.digest).Some?
      && PrecheckPath(u, Probe(u.full, web).value, web.digest).value !in saved
    }

    /** `u` went through `HandleDownloadable` while the files on disk grew
        to `saved` and the tracking set to `downloaded`: its URL was
        recorded, or its probes both raised, or no category was found, or
        the pre-check finds its file on disk. */
    ghost predicate Handled(u: Url, web: Web, saved: set<SavePath>, downloaded: set<string>) {
      u.full in downloaded || !Attempted(u, web, saved)
    }

    /** Every file among the first `n` links was handled. */
    ghost predicate FilesHandled(links: seq<Url>, n: nat, web: Web, saved: set<SavePath>, downloaded: set<string>)
      requires n <= |links|
    {
      forall m :: 0 <= m < n && IsDownloadable(links[m]) ==> Handled(links[m], web, saved, downloaded)
    }

    lemma FilesHandledNext(links: seq<Url>, k: nat, web: Web, saved: set<SavePath>, downloaded: set<string>)
      requires k < |links| && FilesHandled(links, k, web, saved, downloaded)
      requires IsDownloadable(links[k]) ==> Handled(links[k], web, saved, downloaded)
      ensures FilesHandled(links, k + 1, web, saved, downloaded)
    {
    }

    /** Files on disk and recorded URLs only grow, so a handled file stays
        handled. */
    lemma HandledGrows(u: Url, web: Web, saved: set<SavePath>, downloaded: set<string>,
                       saved': set<SavePath>, downloaded': set<string>)
      requires Handled(u, web, saved, downloaded) && saved <= saved' && downloaded <= downloaded'
      ensures Handled(u, web, saved', downloaded')
    {
    }

    lemma FilesHandledGrow(links: seq<Url>, n: nat, web: Web, saved: set<SavePath>, downloaded: set<string>,
                           saved': set<SavePath>, downloaded': set<string>)
      requires n <= |links| && FilesHandled(links, n, web, saved, downloaded)
      requires saved <= saved' && downloaded <= downloaded'
      ensures FilesHandled(links, n, web, saved', downloaded')
    {
      forall m | 0 <= m < n && IsDownloadable(links[m])
        ensures Handled(links[m], web, saved', downloaded')
      {
        HandledGrows(links[m], web, saved, downloaded, saved', downloaded');
      }
    }

    /** The files on disk, the counters, the tracking set and the writers. */
    ghost function Stored(): Store
      reads this
    {
      Store(savedFiles, downloadedCount, downloadedFiles, writer)
    }

    /** The state `HandleDownloadable` leaves behind, from `s`: nothing
        changes unless the pre-check lets the download go ahead; then the
        URL joins `downloaded_files` and, when `download_file` writes a
        file, that file is added, its category's counter goes up and the
        URL is its writer. */
    function AfterFile(u: Url, web: Web, s: Store): (r: Store)
      ensures s.saved <= r.saved && s.downloaded <= r.downloaded <= s.downloaded + {u.full}
      ensures Handled(u, web, r.saved, r.downloaded)
    {
      if !Attempted(u, web, s.saved) then s
      else
        match DownloadOutcome(u, web, s.saved)
        case None => s.(downloaded := s.downloaded + {u.full})
        case Some(p) => Store(s.saved + {p}, Bump(s.counts, p.category), s.downloaded + {u.full},
                              s.writer[p := u.full])
    }

    /** What `extract_urls` does with a downloadable URL, as the dequeued
        entry (crawler.py:336-356) or as a link (crawler.py:369-386):
        classify it from HEAD or GET, skip it when the pre-check finds the
        file, otherwise call `download_file` and add the URL to
        `downloaded_files` whatever that returned. `raised` tells that both
        probes raised. */
    method HandleDownloadable(u: Url, web: Web) returns (raised: bool)
      requires Valid()
      modifies this
      ensures Valid()
      ensures raised <==> Probe(u.full, web).None?
      ensures visitedPages == old(visitedPages)
      ensures Stored() == AfterFile(u, web, old(Stored()))
    {
      var probe := Probe(u.full, web);
      if probe.None? {
        return true;
      }
      raised := false;
      var pre := PrecheckPath(u, probe.value, web.digest);
      if pre.None? || pre.value in savedFiles {
        return;
      }
      DownloadAndRecord(u, web);
    }

    /** Past the pre-check: `download_file`, then the URL joins
        `downloaded_files` whether or not a file was written. */
    method DownloadAndRecord(u: Url, web: Web)
      requires Valid()
      modifies this
      ensures Valid()
      ensures downloadedFiles == old(downloadedFiles) + {u.full}
      ensures visitedPages == old(visitedPages)
      ensures match DownloadOutcome(u, web, old(savedFiles))
              case None => savedFiles == old(savedFiles) && downloadedCount == old(downloadedCount)
                           && writer == old(writer)
              case Some(p) => savedFiles == old(savedFiles) + {p}
                              && downloadedCount == Bump(old(downloadedCount), p.category)
                              && writer == old(writer)[p := u.full]
    {
      var _ := DownloadFile(u, web);
      downloadedFiles := downloadedFiles + {u.full};
    }

    /** The page links the loop over `links` queues among its first `k`
        turns, in order: each passes the filter, is not a file, and is in
        neither `visited` (the pages visited before the loop) nor the
        links queued before it. */
    function Picked(links: seq<Url>, k: nat, visited: set<string>): seq<Url>
      requires k <= |links|
    {
      if k == 0 then []
      else
        var found := Picked(links, k - 1, visited);
        var link := links[k - 1];
        if Admissible(link) && !IsDownloadable(link) && link.full !in visited + Fulls(found) then
          found + [link]
        else found
    }

    /** The links `Picked` returns come from the first `k` links, pass the
        filter, are not files, were not visited and are distinct; and every
        link among the first `k` that passes the filter and is not a file
        is visited afterwards. */
    lemma PickedShape(links: seq<Url>, k: nat, visited: set<string>)
      requires k <= |links|
      ensures var found := Picked(links, k, visited);
        && (forall i :: 0 <= i < |found| ==>
              found[i] in links[..k] && Admissible(found[i]) && !IsDownloadable(found[i])
              && found[i].full !in visited)
        && (forall i, j :: 0 <= i < j < |found| ==> found[i].full != found[j].full)
        && (forall m :: 0 <= m < k && Admissible(links[m]) && !IsDownloadable(links[m]) ==>
              links[m].full in visited + Fulls(found))
    {
      PickedFrom(links, k, visited);
      PickedDistinct(links, k, visited);
      PickedCovers(links, k, visited);
    }

    /** Every page picked is an admissible, not yet visited page link
        among the first `k`. */
    lemma {:induction false} PickedFrom(links: seq<Url>, k: nat, visited: set<string>)
      requires k <= |links|
      ensures var found := Picked(links, k, visited);
        forall i :: 0 <= i < |found| ==>
          found[i] in links[..k] && Admissible(found[i]) && !IsDownloadable(found[i])
          && found[i].full !in visited
    {
      if k > 0 {
        var j := k - 1;
        PickedFrom(links, j, visited);
        PrefixStep(links, j);
        assert links[j] in links[..k];
        assert forall i :: 0 <= i < |Picked(links, j, visited)| ==> Picked(links, j, visited)[i] in links[..k];
      }
    }

    /** No page is picked twice. */
    lemma {:induction false} PickedDistinct(links: seq<Url>, k: nat, visited: set<string>)
      requires k <= |links|
      ensures var found := Picked(links, k, visited);
        forall i, j :: 0 <= i < j < |found| ==> found[i].full != found[j].full
    {
      if k > 0 {
        var j := k - 1;
        PickedDistinct(links, j, visited);
        assert forall i :: 0 <= i < |Picked(links, j, visited)| ==>
          Picked(links, j, visited)[i].full in Fulls(Picked(links, j, visited));
      }
    }

    /** Every admissible page link among the first `k` was visited before
        or is picked. */
    lemma {:induction false} PickedCovers(links: seq<Url>, k: nat, visited: set<string>)
      requires k <= |links|
      ensures var found := Picked(links, k, visited);
        forall m :: 0 <= m < k && Admissible(links[m]) && !IsDownloadable(links[m]) ==>
          links[m].full in visited + Fulls(found)
    {
      if k > 0 {
        PickedCovers(links, k - 1, visited);
        var found := Picked(links, k - 1, visited);
        var link := links[k - 1];
        if Admissible(link) && !IsDownloadable(link) && link.full !in visited + Fulls(found) {
          FullsAppend(found, link);
        }
      }
    }

    /** What the loop over a page's links has done after its first `k`
        turns, when it started from `visited0` and `downloaded0`: the pages
        it marked visited are exactly those of `Picked`, in order; every
        earlier file was handled against the files `saved` now on disk;
        only earlier file links were recorded as downloaded; and no link
        before `k` failed. */
    ghost predicate Progress(links: seq<Url>, web: Web, k: nat, found: seq<Url>,
                             visited0: set<string>, downloaded0: set<string>,
                             visited: set<string>, downloaded: set<string>, saved: set<SavePath>)
    {
      && k <= Reach(links, web)
      && found == Picked(links, k, visited0)
      && visited == visited0 + Fulls(found)
      && FilesHandled(links, k, web, saved, downloaded)
      && downloaded <= downloaded0 + FileLinks(links, k)
    }

    /** A handled file link keeps the loop state; the loop moves past it
        unless both of its probes raised, and then nothing was recorded. */
    lemma FileStep(links: seq<Url>, web: Web, k: nat, found: seq<Url>,
                   visited0: set<string>, downloaded0: set<string>,
                   visited: set<string>, downloaded: set<string>, saved: set<SavePath>,
                   downloaded': set<string>, saved': set<SavePath>, stop: bool)
      requires k < |links| && IsDownloadable(links[k])
      requires Progress(links, web, k, found, visited0, downloaded0, visited, downloaded, saved)
      requires downloaded <= downloaded' <= downloaded + {links[k].full} && saved <= saved'
      requires Handled(links[k], web, saved', downloaded')
      requires stop <==> Fails(links[k], web)
      requires stop ==> downloaded' == downloaded
      ensures Progress(links, web, if stop then k else k + 1, found, visited0, downloaded0, visited, downloaded', saved')
    {
      FilesHandledGrow(links, k, web, saved, downloaded, saved', downloaded');
      if !stop {
        ReachPast(links, web, k);
        FilesHandledNext(links, k, web, saved', downloaded');
        FileLinkIn(links, k);
        FileLinksGrow(links, k, k + 1);
      }
    }

    /** One turn of the loop over a page's links (crawler.py:363-395): a
        file goes to `HandleDownloadable` and `stop` tells that both of its
        probes raised; another link that passes the filter and was not
        visited is marked visited and appended to `found`. */
    method VisitLink(links: seq<Url>, k: nat, web: Web, found: seq<Url>,
                     ghost visited0: set<string>, ghost downloaded0: set<string>)
      returns (found': seq<Url>, stop: bool)
      requires Valid() && k < |links|
      requires Progress(links, web, k, found, visited0, downloaded0, visitedPages, downloadedFiles, savedFiles)
      modifies this
      ensures Valid()
      ensures stop <==> Fails(links[k], web)
      ensures found' == if !IsDownloadable(links[k]) && Admissible(links[k]) && links[k].full !in old(visitedPages)
                        then found + [links[k]] else found
      ensures Progress(links, web, if stop then k else k + 1, found', visited0, downloaded0,
                       visitedPages, downloadedFiles, savedFiles)
      ensures Stored() == if IsDownloadable(links[k]) then AfterFile(links[k], web, old(Stored())) else old(Stored())
      ensures old(downloadedFiles) <= downloadedFiles && old(savedFiles) <= savedFiles
    {
      if IsDownloadable(links[k]) {
        found' := found;
        stop := VisitFile(links, k, web, found, visited0, downloaded0);
      } else {
        found' := VisitPage(links, k, web, found, visited0, downloaded0);
        stop := false;
      }
    }

    /** A file link goes to `HandleDownloadable`; the loop goes on unless
        both of its probes raised. */
    method VisitFile(links: seq<Url>, k: nat, web: Web, found: seq<Url>,
                     ghost visited0: set<string>, ghost downloaded0: set<string>)
      returns (stop: bool)
      requires Valid() && k < |links| && IsDownloadable(links[k])
      requires Progress(links, web, k, found, visited0, downloaded0, visitedPages, downloadedFiles, savedFiles)
      modifies this
      ensures Valid()
      ensures stop <==> Fails(links[k], web)
      ensures visitedPages == old(visitedPages)
      ensures Stored() == AfterFile(links[k], web, old(Stored()))
      ensures Progress(links, web, if stop then k else k + 1, found, visited0, downloaded0,
                       visitedPages, downloadedFiles, savedFiles)
      ensures old(downloadedFiles) <= downloadedFiles && old(savedFiles) <= savedFiles
    {
      ghost var downloaded, saved := downloadedFiles, savedFiles;
      stop := ProcessFile(links[k], web);
      FileStep(links, web, k, found, visited0, downloaded0, visitedPages, downloaded, saved,
               downloadedFiles, savedFiles, stop);
    }

    /** Another link is marked visited and appended to `found` when it
        passes the filter and was not visited. */
    method VisitPage(links: seq<Url>, k: nat, web: Web, found: seq<Url>,
                     ghost visited0: set<string>, ghost downloaded0: set<string>)
      returns (found': seq<Url>)
      requires Valid() && k < |links| && !IsDownloadable(links[k])
      requires Progress(links, web, k, found, visited0, downloaded0, visitedPages, downloadedFiles, savedFiles)
      modifies this
      ensures Valid()
      ensures found' == if Admissible(links[k]) && links[k].full !in old(visitedPages) then found + [links[k]] else found
      ensures Progress(links, web, k + 1, found', visited0, downloaded0, visitedPages, downloadedFiles, savedFiles)
      ensures Stored() == old(Stored())
    {
      var link := links[k];
      found' := found;
      ReachPast(links, web, k);
      FilesHandledNext(links, k, web, savedFiles, downloadedFiles);
      FileLinksGrow(links, k, k + 1);
      if Admissible(link) && link.full !in visitedPages {
        FullsAppend(found, link);
        found' := found + [link];
        visitedPages := visitedPages + {link.full};
      }
    }

    /** The state after the loop over `links` handled the file links among
        its first `k` turns, from `s`. */
    function LinkStore(links: seq<Url>, k: nat, web: Web, s: Store): Store
      requires k <= |links|
    {
      if k == 0 then s
      else
        var s' := LinkStore(links, k - 1, web, s);
        if IsDownloadable(links[k - 1]) then AfterFile(links[k - 1], web, s') else s'
    }

    /** The link loop only adds files and recorded URLs, records only file
        links, and leaves every file link it reached handled. */
    lemma {:induction false} LinkStoreFacts(links: seq<Url>, k: nat, web: Web, s: Store)
      requires k <= |links|
      ensures s.saved <= LinkStore(links, k, web, s).saved
      ensures s.downloaded <= LinkStore(links, k, web, s).downloaded <= s.downloaded + FileLinks(links, k)
      ensures FilesHandled(links, k, web, LinkStore(links, k, web, s).saved, LinkStore(links, k, web, s).downloaded)
    {
      if k > 0 {
        var j := k - 1;
        var t := LinkStore(links, j, web, s);
        var r := LinkStore(links, k, web, s);
        LinkStoreFacts(links, j, web, s);
        FileLinksGrow(links, j, k);
        if IsDownloadable(links[j]) {
          FileLinkIn(links, j);
        }
        FilesHandledGrow(links, j, web, t.saved, t.downloaded, r.saved, r.downloaded);
        FilesHandledNext(links, j, web, r.saved, r.downloaded);
      }
    }

  /** The loop over the links of one fetched page (crawler.py:362-395):
        files go to `HandleDownloadable`, other links that pass the filter
        and were not visited are marked visited and returned in order for
        the queue. A link whose probes both raise ends the loop: only the
        links before it count. */
    method FollowLinks(links: seq<Url>, web: Web) returns (found: seq<Url>)
      requires Valid()
      modifies this
      ensures Valid()
      ensures found == Picked(links, Reach(links, web), old(visitedPages))
      ensures visitedPages == old(visitedPages) + Fulls(found)
      ensures FilesHandled(links, Reach(links, web), web, savedFiles, downloadedFiles)
      ensures old(downloadedFiles) <= downloadedFiles <= old(downloadedFiles) + FileLinks(links, Reach(links, web))
      ensures old(savedFiles) <= savedFiles
      ensures Stored() == LinkStore(links, Reach(links, web), web, old(Stored()))
    {
      found := [];
      var k := 0;
      while k < |links|
        invariant k <= |links|
        invariant Valid()
        invariant Progress(links, web, k, found, old(visitedPages), old(downloadedFiles),
                           visitedPages, downloadedFiles, savedFiles)
        invariant old(downloadedFiles) <= downloadedFiles && old(savedFiles) <= savedFiles
        invariant Stored() == LinkStore(links, k, web, old(Stored()))
      {
        var stop;
        found, stop := VisitLink(links, k, web, found, old(visitedPages), old(downloadedFiles));
        if stop {
          break;
        }
        k := k + 1;
      }
      ReachIs(links, web, k);
      LinksDone(links, web, found, old(visitedPages), old(downloadedFiles), visitedPages, downloadedFiles, savedFiles);
    }

    /** The loop state once the loop has reached the first failing link or
        the end, part by part. */
    lemma LinksDone(links: seq<Url>, web: Web, found: seq<Url>,
                    visited0: set<string>, downloaded0: set<string>,
                    visited: set<string>, downloaded: set<string>, saved: set<SavePath>)
      requires Progress(links, web, Reach(links, web), found, visited0, downloaded0, visited, downloaded, saved)
      ensures found == Picked(links, Reach(links, web), visited0)
      ensures visited == visited0 + Fulls(found)
      ensures FilesHandled(links, Reach(links, web), web, saved, downloaded)
      ensures downloaded <= downloaded0 + FileLinks(links, Reach(links, web))
    {
    }

    /** What the walk needs of the links a page loop queued. */
    lemma PickedFacts(links: seq<Url>, web: Web, visited: set<string>, found: seq<Url>)
      requires found == Picked(links, Reach(links, web), visited)
      ensures forall i :: 0 <= i < |found| ==>
                found[i] in links && Admissible(found[i]) && !IsDownloadable(found[i])
                && found[i].full !in visited
      ensures forall i, j :: 0 <= i < j < |found| ==> found[i].full != found[j].full
      ensures Covered(links, web, visited + Fulls(found))
    {
      var n := Reach(links, web);
      PickedShape(links, n, visited);
      forall i | 0 <= i < |found|
        ensures found[i] in links
      {
        var j :| 0 <= j < n && links[..n][j] == found[i];
        assert links[j] == found[i];
      }
    }

    // -------------------------------------------------------------------
    // extract_urls (crawler.py:319-398)
    //
    // `log` lists every entry ever put on the queue, in order; the queue is
    // `log[pos..]`. `parent[i]` is the index of the entry whose page linked
    // to `log[i]`.

    /** The shape of the log: it starts with `(start, 0)`; every later entry
        is a link found on the page of an earlier, already dequeued entry
        that was expanded, one level deeper, that passes the link filter
        and is not a file; entries are queued in the order their parents
        were dequeued; depths never decrease and the queue spans at most
        two depths. */
    ghost predicate Logged(start: Url, web: Web, log: seq<Item>, parent: seq<nat>, pos: nat) {
      && |parent| == |log| && 1 <= |log| && pos <= |log| && log[0] == Item(start, 0)
      && Linked(web, log, parent, pos) && Fifo(parent) && Filtered(log) && Layered(log, pos)
    }

    /** First in, first out: the parents of later entries never come
        earlier in the queue. */
    ghost predicate Fifo(parent: seq<nat>) {
      forall i :: 2 <= i < |parent| ==> parent[i - 1] <= parent[i]
    }

    ghost predicate Linked(web: Web, log: seq<Item>, parent: seq<nat>, pos: nat)
      requires |parent| == |log|
    {
      forall i :: 1 <= i < |log| ==>
        parent[i] < pos && parent[i] < i && Expanded(log[parent[i]], web)
        && log[i].url in web.pages[log[parent[i]].url.full]
        && log[i].depth == log[parent[i]].depth + 1
    }

    ghost predicate Filtered(log: seq<Item>) {
      forall i :: 1 <= i < |log| ==> Admissible(log[i].url) && !IsDownloadable(log[i].url)
    }

    ghost predicate Layered(log: seq<Item>, pos: nat) {
      && (forall i :: 1 <= i < |log| ==> log[i - 1].depth <= log[i].depth)
      && (pos < |log| ==> log[|log| - 1].depth <= log[pos].depth + 1)
    }

    /** No URL is queued twice, and none after the start was visited before
        the run. */
    ghost predicate Fresh(log: seq<Item>, visited0: set<string>) {
      && (forall i, j :: 0 <= i < j < |log| ==> log[i].url.full != log[j].url.full)
      && (forall i :: 1 <= i < |log| ==> log[i].url.full !in visited0)
    }

    /** Every expanded entry that was dequeued had all the links of its page
        that pass the filter visited, up to the first failing one. */
    ghost predicate Complete(web: Web, log: seq<Item>, pos: nat, visited: set<string>)
      requires pos <= |log|
    {
      forall i :: 0 <= i < pos && Expanded(log[i], web) ==>
        Covered(web.pages[log[i].url.full], web, visited)
    }

    /** A dequeued entry that `extract_urls` hands to `HandleDownloadable`
        (crawler.py:328-338). */
    predicate IsFileItem(item: Item) {
      item.depth <= maxDepth && !ShouldExclude(excludedPaths, item.url.full) && IsDownloadable(item.url)
    }

    /** The files `HandleDownloadable` saw for one dequeued entry were
        handled against `saved` and `downloaded`: the entry itself if it is
        a file, or, if it was expanded, each file linked from its page
        before the page's first failing link. */
    ghost predicate ItemDone(web: Web, item: Item, saved: set<SavePath>, downloaded: set<string>) {
      && (IsFileItem(item) ==> Handled(item.url, web, saved, downloaded))
      && (Expanded(item, web) ==>
            FilesHandled(web.pages[item.url.full], Reach(web.pages[item.url.full], web), web, saved, downloaded))
    }

    /** Every file handed to `HandleDownloadable` while the first `pos`
        entries were dequeued was handled. */
    ghost predicate Downloads(web: Web, log: seq<Item>, pos: nat, saved: set<SavePath>, downloaded: set<string>)
      requires pos <= |log|
    {
      forall i :: 0 <= i < pos ==> ItemDone(web, log[i], saved, downloaded)
    }

    lemma ItemDoneGrows(web: Web, item: Item, saved: set<SavePath>, downloaded: set<string>,
                        saved': set<SavePath>, downloaded': set<string>)
      requires ItemDone(web, item, saved, downloaded)
      requires saved <= saved' && downloaded <= downloaded'
      ensures ItemDone(web, item, saved', downloaded')
    {
      if IsFileItem(item) {
        HandledGrows(item.url, web, saved, downloaded, saved', downloaded');
      }
      if Expanded(item, web) {
        var links := web.pages[item.url.full];
        FilesHandledGrow(links, Reach(links, web), web, saved, downloaded, saved', downloaded');
      }
    }

    lemma DownloadsGrow(web: Web, log: seq<Item>, pos: nat, saved: set<SavePath>, downloaded: set<string>,
                        saved': set<SavePath>, downloaded': set<string>)
      requires pos <= |log| && Downloads(web, log, pos, saved, downloaded)
      requires saved <= saved' && downloaded <= downloaded'
      ensures Downloads(web, log, pos, saved', downloaded')
    {
      forall i | 0 <= i < pos
        ensures ItemDone(web, log[i], saved', downloaded')
      {
        ItemDoneGrows(web, log[i], saved, downloaded, saved', downloaded');
      }
    }

    lemma DownloadsNext(web: Web, log: seq<Item>, pos: nat, saved: set<SavePath>, downloaded: set<string>)
      requires pos < |log| && Downloads(web, log, pos, saved, downloaded)
      requires ItemDone(web, log[pos], saved, downloaded)
      ensures Downloads(web, log, pos + 1, saved, downloaded)
    {
    }

    /** The URLs `extract_urls` hands to `HandleDownloadable` for one
        dequeued entry: the entry itself when it is a file within the depth
        and not excluded, or the file links of its page before the first
        failing link when it is expanded. */
    ghost function ItemFiles(web: Web, item: Item): set<string> {
      (if IsFileItem(item) then {item.url.full} else {})
      + (if Expanded(item, web) then FileLinks(web.pages[item.url.full], Reach(web.pages[item.url.full], web))
         else {})
    }

    /** The URLs handed to `HandleDownloadable` while the first `pos`
        entries were dequeued. */
    ghost function HandedOver(web: Web, log: seq<Item>, pos: nat): set<string>
      requires pos <= |log|
    {
      if pos == 0 then {} else HandedOver(web, log, pos - 1) + ItemFiles(web, log[pos - 1])
    }

    /** The log of `extract_urls` after its first `n` dequeues, computed
        from the web alone: the start entry, then, for each dequeued entry
        in queue order that is expanded, the links its page loop queues
        (`Picked` against the pages visited by then: `visited0` and every
        URL logged so far), one level deeper. This is the breadth-first
        order of `deque.popleft` and `append`. */
    ghost function QueuedAfter(start: Url, web: Web, visited0: set<string>, n: nat): (log: seq<Item>)
      ensures 1 <= |log| && log[0] == Item(start, 0)
    {
      if n == 0 then [Item(start, 0)]
      else
        var log := QueuedAfter(start, web, visited0, n - 1);
        if n - 1 < |log| && Expanded(log[n - 1], web) then
          var links := web.pages[log[n - 1].url.full];
          log + Children(Picked(links, Reach(links, web), visited0 + Urls(log)), log[n - 1].depth)
        else log
    }

    /** The state of `extract_urls` after `pos` entries were dequeued. */
    ghost predicate Crawled(start: Url, web: Web, log: seq<Item>, parent: seq<nat>, pos: nat,
                            visited0: set<string>, s0: Store, visited: set<string>, store: Store)
    {
      && Logged(start, web, log, parent, pos)
      && log == QueuedAfter(start, web, visited0, pos)
      && Fresh(log, visited0)
      && visited == visited0 + Urls(log)
      && Complete(web, log, pos, visited)
      && store == WalkStore(web, log, pos, s0)
    }

    /** The state after `queue.append((start_url, 0))` and
        `visited_pages.add(start_url)`. */
    lemma Started(start: Url, web: Web, visited0: set<string>, s0: Store)
      ensures Crawled(start, web, [Item(start, 0)], [0], 0, visited0, s0, visited0 + {start.full}, s0)
    {
      var log := [Item(start, 0)];
      assert Urls(log) == {start.full} by {
        assert log[0].url.full == start.full;
      }
    }

    /** The state when the queue is empty, part by part, with what the
        store reached from `s0` implies for the files. */
    lemma Finished(start: Url, web: Web, log: seq<Item>, parent: seq<nat>,
                   visited0: set<string>, s0: Store, visited: set<string>, store: Store)
      requires Crawled(start, web, log, parent, |log|, visited0, s0, visited, store)
      ensures |log| >= 1 && |parent| == |log| && log[0] == Item(start, 0)
      ensures log == QueuedAfter(start, web, visited0, |log|)
      ensures visited == visited0 + Urls(log)
      ensures Linked(web, log, parent, |log|) && Fifo(parent) && Filtered(log) && Layered(log, |log|)
      ensures Fresh(log, visited0)
      ensures Complete(web, log, |log|, visited)
      ensures store == WalkStore(web, log, |log|, s0)
      ensures s0.saved <= store.saved
      ensures s0.downloaded <= store.downloaded <= s0.downloaded + HandedOver(web, log, |log|)
      ensures Downloads(web, log, |log|, store.saved, store.downloaded)
      ensures IsFileItem(Item(start, 0)) ==> Handled(start, web, store.saved, store.downloaded)
    {
      WalkStoreFacts(web, log, |log|, s0);
    }

    /** The queue is served in order of depth: breadth first. */
    lemma {:induction false} LayeredMonotone(log: seq<Item>, pos: nat, i: nat, j: nat)
      requires Layered(log, pos) && i <= j < |log|
      ensures log[i].depth <= log[j].depth
      decreases j - i
    {
      if i < j {
        LayeredMonotone(log, pos, i, j - 1);
      }
    }

    /** Every entry after the start lies one to `max_depth + 1` levels
        below it: only entries within `max_depth` are expanded. */
    lemma DepthBounds(start: Url, web: Web, log: seq<Item>, parent: seq<nat>)
      requires |parent| == |log| && 1 <= |log| && log[0] == Item(start, 0)
      requires Linked(web, log, parent, |log|) && Layered(log, |log|)
      ensures forall i :: 1 <= i < |log| ==> 1 <= log[i].depth <= maxDepth + 1
    {
      forall i | 1 <= i < |log|
        ensures 1 <= log[i].depth <= maxDepth + 1
      {
        LayeredMonotone(log, |log|, 0, parent[i]);
      }
    }

    lemma CoveredGrows(links: seq<Url>, web: Web, visited: set<string>, visited': set<string>)
      requires Covered(links, web, visited) && visited <= visited'
      ensures Covered(links, web, visited')
    {
    }

    /** A dequeued entry that is not expanded adds nothing to the log. */
    lemma SkipStep(start: Url, web: Web, log: seq<Item>, parent: seq<nat>, pos: nat,
                   visited0: set<string>, s0: Store, visited: set<string>, store: Store)
      requires Crawled(start, web, log, parent, pos, visited0, s0, visited, store)
      requires pos < |log| && !Expanded(log[pos], web)
      ensures Crawled(start, web, log, parent, pos + 1, visited0, s0, visited, ItemStore(web, log[pos], store))
    {
      LoggedSkip(start, web, log, parent, pos);
      assert log == QueuedAfter(start, web, visited0, pos + 1);
      assert Complete(web, log, pos + 1, visited) by {
        assert Complete(web, log, pos, visited);
      }
      assert WalkStore(web, log, pos + 1, s0) == ItemStore(web, log[pos], store);
    }

    lemma LoggedSkip(start: Url, web: Web, log: seq<Item>, parent: seq<nat>, pos: nat)
      requires Logged(start, web, log, parent, pos) && pos < |log|
      ensures Logged(start, web, log, parent, pos + 1)
    {
      if pos + 1 < |log| {
        assert log[pos].depth <= log[pos + 1].depth;
      }
    }

    /** An expanded entry appends the links `FollowLinks` found, one level
        deeper, with this entry as their parent. */
    lemma ExpandStep(start: Url, web: Web, log: seq<Item>, parent: seq<nat>, pos: nat,
                     visited0: set<string>, s0: Store, visited: set<string>, store: Store,
                     found: seq<Url>, visited': set<string>)
      requires Crawled(start, web, log, parent, pos, visited0, s0, visited, store)
      requires pos < |log| && Expanded(log[pos], web)
      requires found == Picked(web.pages[log[pos].url.full], Reach(web.pages[log[pos].url.full], web), visited)
      requires visited' == visited + Fulls(found)
      ensures Crawled(start, web, log + Children(found, log[pos].depth), parent + Same(|found|, pos),
                      pos + 1, visited0, s0, visited', ItemStore(web, log[pos], store))
    {
      var d := log[pos].depth;
      var log' := log + Children(found, d);
      var parent' := parent + Same(|found|, pos);
      PickedFacts(web.pages[log[pos].url.full], web, visited, found);
      UrlsChildren(log, found, d);
      WalkStorePrefix(web, log, Children(found, d), pos, s0);
      assert log'[pos] == log[pos];
      LoggedStep(start, web, log, parent, pos, found);
      FreshStep(log, visited0, visited, found, d);
      forall i | 0 <= i < pos + 1 && Expanded(log'[i], web)
        ensures Covered(web.pages[log'[i].url.full], web, visited')
      {
        if i < pos {
          CoveredGrows(web.pages[log[i].url.full], web, visited, visited');
        }
      }
    }

    lemma LoggedStep(start: Url, web: Web, log: seq<Item>, parent: seq<nat>, pos: nat, found: seq<Url>)
      requires Logged(start, web, log, parent, pos)
      requires pos < |log| && Expanded(log[pos], web)
      requires forall i :: 0 <= i < |found| ==>
                 found[i] in web.pages[log[pos].url.full] && Admissible(found[i]) && !IsDownloadable(found[i])
      ensures Logged(start, web, log + Children(found, log[pos].depth), parent + Same(|found|, pos), pos + 1)
    {
      LinkedStep(web, log, parent, pos, found);
      FifoStep(log, parent, pos, |found|);
      FilteredStep(log, found, log[pos].depth);
      LayeredStep(log, pos, found);
    }

    lemma LinkedStep(web: Web, log: seq<Item>, parent: seq<nat>, pos: nat, found: seq<Url>)
      requires |parent| == |log| && Linked(web, log, parent, pos)
      requires pos < |log| && Expanded(log[pos], web)
      requires forall i :: 0 <= i < |found| ==> found[i] in web.pages[log[pos].url.full]
      ensures Linked(web, log + Children(found, log[pos].depth), parent + Same(|found|, pos), pos + 1)
    {
      var d := log[pos].depth;
      var log' := log + Children(found, d);
      var parent' := parent + Same(|found|, pos);
      forall i | 1 <= i < |log'|
        ensures parent'[i] < pos + 1 && parent'[i] < i && Expanded(log'[parent'[i]], web)
                && log'[i].url in web.pages[log'[parent'[i]].url.full]
                && log'[i].depth == log'[parent'[i]].depth + 1
      {
        if i < |log| {
          assert log'[i] == log[i] && parent'[i] == parent[i];
          assert log'[parent[i]] == log[parent[i]];
        } else {
          assert log'[i] == Item(found[i - |log|], d + 1) && parent'[i] == pos;
          assert log'[pos] == log[pos];
        }
      }
    }

    lemma FifoStep(log: seq<Item>, parent: seq<nat>, pos: nat, n: nat)
      requires |parent| == |log| && 1 <= |log| && Fifo(parent)
      requires forall i :: 1 <= i < |log| ==> parent[i] < pos
      ensures Fifo(parent + Same(n, pos))
    {
      var parent' := parent + Same(n, pos);
      forall i | 2 <= i < |parent'|
        ensures parent'[i - 1] <= parent'[i]
      {
        if i > |parent| {
          assert parent'[i - 1] == pos;
        } else if i == |parent| {
          assert parent'[i - 1] == parent[i - 1];
        } else {
          assert parent'[i - 1] == parent[i - 1] && parent'[i] == parent[i];
        }
      }
    }

    lemma FilteredStep(log: seq<Item>, found: seq<Url>, d: int)
      requires Filtered(log)
      requires forall i :: 0 <= i < |found| ==> Admissible(found[i]) && !IsDownloadable(found[i])
      ensures Filtered(log + Children(found, d))
    {
      var log' := log + Children(found, d);
      forall i | 1 <= i < |log'|
        ensures Admissible(log'[i].url) && !IsDownloadable(log'[i].url)
      {
        if i < |log| {
          assert log'[i] == log[i];
        } else {
          assert log'[i].url == found[i - |log|];
        }
      }
    }

    lemma LayeredStep(log: seq<Item>, pos: nat, found: seq<Url>)
      requires Layered(log, pos) && pos < |log|
      ensures Layered(log + Children(found, log[pos].depth), pos + 1)
    {
      var d := log[pos].depth;
      var log' := log + Children(found, d);
      forall i | 1 <= i < |log'|
        ensures log'[i - 1].depth <= log'[i].depth
      {
        if i > |log| {
          assert log'[i - 1].depth == d + 1;
        } else if i == |log| {
          assert log'[i - 1] == log[|log| - 1];
        } else {
          assert log'[i - 1] == log[i - 1] && log'[i] == log[i];
        }
      }
      if pos + 1 < |log'| {
        if pos + 1 < |log| {
          assert log[pos].depth <= log[pos + 1].depth;
          assert log'[pos + 1] == log[pos + 1];
        }
        assert log'[|log'| - 1].depth <= d + 1;
      }
    }

    lemma FreshStep(log: seq<Item>, visited0: set<string>, visited: set<string>, found: seq<Url>, depth: int)
      requires Fresh(log, visited0) && visited == visited0 + Urls(log)
      requires forall i :: 0 <= i < |found| ==> found[i].full !in visited
      requires forall i, j :: 0 <= i < j < |found| ==> found[i].full != found[j].full
      ensures Fresh(log + Children(found, depth), visited0)
    {
      var log' := log + Children(found, depth);
      forall i, j | 0 <= i < j < |log'|
        ensures log'[i].url.full != log'[j].url.full
      {
        if j >= |log| {
          assert log'[j].url == found[j - |log|];
          if i < |log| {
            assert log'[i] == log[i];
            assert log[i].url.full in Urls(log);
          } else {
            assert log'[i].url == found[i - |log|];
          }
        } else {
          assert log'[i] == log[i] && log'[j] == log[j];
        }
      }
      forall i | 1 <= i < |log'|
        ensures log'[i].url.full !in visited0
      {
        if i >= |log| {
          assert log'[i].url == found[i - |log|];
        } else {
          assert log'[i] == log[i];
        }
      }
    }

    /** The state after `extract_urls` dealt with one dequeued entry, from
        `s`: an expanded page's link loop up to its first failing link, a
        file's `HandleDownloadable`, and nothing for any other entry. */
    function ItemStore(web: Web, item: Item, s: Store): Store {
      if Expanded(item, web) then
        var links := web.pages[item.url.full];
        LinkStore(links, Reach(links, web), web, s)
      else if IsFileItem(item) then AfterFile(item.url, web, s)
      else s
    }

    /** The state after the first `n` entries of `log` were dequeued,
        from `s`. */
    function WalkStore(web: Web, log: seq<Item>, n: nat, s: Store): Store
      requires n <= |log|
    {
      if n == 0 then s else ItemStore(web, log[n - 1], WalkStore(web, log, n - 1, s))
    }

    /** Entries appended to the log do not change the state reached by
        dequeuing the earlier ones. */
    lemma {:induction false} WalkStorePrefix(web: Web, log: seq<Item>, more: seq<Item>, n: nat, s: Store)
      requires n <= |log|
      ensures WalkStore(web, log + more, n, s) == WalkStore(web, log, n, s)
    {
      if n > 0 {
        WalkStorePrefix(web, log, more, n - 1, s);
        assert (log + more)[n - 1] == log[n - 1];
      }
    }

    /** One dequeued entry only adds files and recorded URLs, records only
        the URLs handed to `HandleDownloadable`, and leaves them handled. */
    lemma ItemStoreFacts(web: Web, item: Item, s: Store)
      ensures s.saved <= ItemStore(web, item, s).saved
      ensures s.downloaded <= ItemStore(web, item, s).downloaded <= s.downloaded + ItemFiles(web, item)
      ensures ItemDone(web, item, ItemStore(web, item, s).saved, ItemStore(web, item, s).downloaded)
    {
      if Expanded(item, web) {
        var links := web.pages[item.url.full];
        LinkStoreFacts(links, Reach(links, web), web, s);
      }
    }

    /** The walk only adds files and recorded URLs, records only URLs it
        handed to `HandleDownloadable`, and leaves every one of them
        handled. */
    lemma {:induction false} WalkStoreFacts(web: Web, log: seq<Item>, n: nat, s: Store)
      requires n <= |log|
      ensures s.saved <= WalkStore(web, log, n, s).saved
      ensures s.downloaded <= WalkStore(web, log, n, s).downloaded <= s.downloaded + HandedOver(web, log, n)
      ensures Downloads(web, log, n, WalkStore(web, log, n, s).saved, WalkStore(web, log, n, s).downloaded)
    {
      if n > 0 {
        var j := n - 1;
        var t := WalkStore(web, log, j, s);
        var r := WalkStore(web, log, n, s);
        assert r == ItemStore(web, log[j], t);
        WalkStoreFacts(web, log, j, s);
        ItemStoreFacts(web, log[j], t);
        DownloadsGrow(web, log, j, t.saved, t.downloaded, r.saved, r.downloaded);
        DownloadsNext(web, log, j, r.saved, r.downloaded);
      }
    }

    /** Dequeuing `log[pos]` (crawler.py:328-398): an entry too deep or
        excluded is dropped; a file goes to `HandleDownloadable`; a page
        whose GET answers 200 has its links followed, and the new pages
        found are returned to be queued one level deeper. */
    method ProcessItem(start: Url, item: Item, web: Web, ghost log: seq<Item>, ghost parent: seq<nat>,
                       ghost pos: nat, ghost visited0: set<string>, ghost s0: Store)
      returns (found: seq<Url>)
      requires Valid() && pos < |log| && log[pos] == item
      requires Crawled(start, web, log, parent, pos, visited0, s0, visitedPages, Stored())
      modifies this
      ensures Valid()
      ensures Crawled(start, web, log + Children(found, item.depth), parent + Same(|found|, pos), pos + 1,
                      visited0, s0, visitedPages, Stored())
      ensures old(savedFiles) <= savedFiles
      ensures !Expanded(item, web) ==> found == []
      ensures Expanded(item, web) ==>
                found == Picked(web.pages[item.url.full], Reach(web.pages[item.url.full], web), old(visitedPages))
      ensures Stored() == ItemStore(web, item, old(Stored()))
      ensures visitedPages == old(visitedPages) + Fulls(found)
      ensures Fulls(found) <= AllLinks(web)
      ensures forall i :: 0 <= i < |found| ==> found[i].full !in old(visitedPages)
    {
      ghost var visited, store := visitedPages, Stored();
      if Expanded(item, web) {
        found := FollowLinks(web.pages[item.url.full], web);
        ExpandStep(start, web, log, parent, pos, visited0, s0, visited, store, found, visitedPages);
        PickedFacts(web.pages[item.url.full], web, visited, found);
        PageLinks(web, item.url.full);
      } else {
        found := [];
        if IsFileItem(item) {
          var _ := ProcessFile(item.url, web);
        }
        SkipStep(start, web, log, parent, pos, visited0, s0, visited, store);
        assert log + Children(found, item.depth) == log;
        assert parent + Same(|found|, pos) == parent;
      }
    }

    /** `HandleDownloadable` as the walk sees it, for a dequeued file and
        for a file link alike: its exact effect, and that the file ends up
        handled with the files on disk only added to. `raised` tells that
        both probes raised; for a dequeued file the outer `try` of
        crawler.py:397 catches that. */
    method ProcessFile(u: Url, web: Web) returns (raised: bool)
      requires Valid()
      modifies this
      ensures Valid()
      ensures raised <==> Probe(u.full, web).None?
      ensures visitedPages == old(visitedPages)
      ensures Stored() == AfterFile(u, web, old(Stored()))
      ensures old(savedFiles) <= savedFiles
      ensures Handled(u, web, savedFiles, downloadedFiles)
    {
      raised := HandleDownloadable(u, web);
    }

    /** The loop state of `extract_urls`: the queue is the part of the log
        not yet dequeued, and every URL visited lies in `all`. */
    ghost predicate Walking(start: Url, web: Web, queue: seq<Item>, log: seq<Item>, parent: seq<nat>,
                            pos: nat, visited0: set<string>, s0: Store, all: set<string>)
      reads this
    {
      && pos <= |log| && queue == log[pos..]
      && Crawled(start, web, log, parent, pos, visited0, s0, visitedPages, Stored())
      && visitedPages <= all
    }

    /** One turn of `while queue`: `popleft`, process, append the new
        entries. Either new pages were visited or the queue got shorter. */
    method Turn(start: Url, web: Web, queue: seq<Item>, ghost log: seq<Item>, ghost parent: seq<nat>,
                ghost pos: nat, ghost visited0: set<string>, ghost s0: Store, ghost all: set<string>)
      returns (queue': seq<Item>, ghost log': seq<Item>, ghost parent': seq<nat>)
      requires Valid() && queue != []
      requires Walking(start, web, queue, log, parent, pos, visited0, s0, all)
      requires visited0 + AllLinks(web) <= all
      modifies this
      ensures Valid()
      ensures Walking(start, web, queue', log', parent', pos + 1, visited0, s0, all)
      ensures |log| <= |log'| && log'[..|log|] == log && queue' == queue[1..] + log'[|log|..]
      ensures old(savedFiles) <= savedFiles
      ensures Stored() == ItemStore(web, queue[0], old(Stored()))
      ensures |all - visitedPages| < |all - old(visitedPages)|
              || (visitedPages == old(visitedPages) && |queue'| < |queue|)
    {
      var item := queue[0];
      ghost var visited := visitedPages;
      var found := ProcessItem(start, item, web, log, parent, pos, visited0, s0);
      QueueStep(queue, log, pos, Children(found, item.depth));
      queue' := queue[1..] + Children(found, item.depth);
      log' := log + Children(found, item.depth);
      parent' := parent + Same(|found|, pos);
      Shrinks(all, visited, visitedPages, found);
    }

    /** `extract_urls(start_url)` (crawler.py:319-398): a breadth-first
        walk from `(start, 0)`. `log` lists every entry the queue ever held
        and `parent[i]` the entry whose page linked to `log[i]`. */
    method ExtractUrls(start: Url, web: Web) returns (ghost log: seq<Item>, ghost parent: seq<nat>)
      requires Valid()
      modifies this
      ensures Valid()
      ensures |log| >= 1 && |parent| == |log| && log[0] == Item(start, 0)
      ensures log == QueuedAfter(start, web, old(visitedPages), |log|)
      ensures visitedPages == old(visitedPages) + Urls(log)
      ensures Linked(web, log, parent, |log|) && Fifo(parent) && Filtered(log) && Layered(log, |log|)
      ensures Fresh(log, old(visitedPages))
      ensures Complete(web, log, |log|, visitedPages)
      ensures old(downloadedFiles) <= downloadedFiles <= old(downloadedFiles) + HandedOver(web, log, |log|)
      ensures old(savedFiles) <= savedFiles
      ensures Downloads(web, log, |log|, savedFiles, downloadedFiles)
      ensures IsFileItem(Item(start, 0)) ==> Handled(start, web, savedFiles, downloadedFiles)
      ensures Stored() == WalkStore(web, log, |log|, old(Stored()))
    {
      Started(start, web, visitedPages, Stored());
      visitedPages := visitedPages + {start.full};
      ghost var all := old(visitedPages) + {start.full} + AllLinks(web);
      var queue := [Item(start, 0)];
      log, parent := [Item(start, 0)], [0];
      ghost var pos := 0;
      while queue != []
        invariant Valid()
        invariant Walking(start, web, queue, log, parent, pos, old(visitedPages), old(Stored()), all)
        decreases |all - visitedPages|, |queue|
      {
        queue, log, parent := Turn(start, web, queue, log, parent, pos, old(visitedPages), old(Stored()), all);
        pos := pos + 1;
      }
      assert pos == |log|;
      Finished(start, web, log, parent, old(visitedPages), old(Stored()), visitedPages, Stored());
    }

    // -------------------------------------------------------------------
    // The tracking file (crawler.py:432-452)

    /** `load_downloaded_files()`: `file` is the content of
        `logs/downloaded_files.txt`, `None` when it does not exist. Each
        line, stripped, joins `downloaded_files`. */
    method LoadDownloadedFiles(file: Option<string>)
      requires Valid()
      modifies this
      ensures Valid()
      ensures file.None? ==> downloadedFiles == old(downloadedFiles)
      ensures file.Some? ==> downloadedFiles == old(downloadedFiles) + LoadedUrls(file.value)
      ensures visitedPages == old(visitedPages) && savedFiles == old(savedFiles)
      ensures downloadedCount == old(downloadedCount) && writer == old(writer)
    {
      if file.Some? {
        var lines := Lines(UniversalNewlines(file.value));
        AddStripped(lines);
        StrippedUpToAll(lines);
      }
    }

    /** `for line in f: self.downloaded_files.add(line.strip())`. */
    method AddStripped(lines: seq<string>)
      requires Valid()
      modifies this
      ensures Valid()
      ensures downloadedFiles == old(downloadedFiles) + StrippedUpTo(lines, |lines|)
      ensures visitedPages == old(visitedPages) && savedFiles == old(savedFiles)
      ensures downloadedCount == old(downloadedCount) && writer == old(writer)
    {
      var i := 0;
      while i < |lines|
        invariant 0 <= i <= |lines|
        invariant Valid()
        invariant downloadedFiles == old(downloadedFiles) + StrippedUpTo(lines, i)
        invariant visitedPages == old(visitedPages) && savedFiles == old(savedFiles)
        invariant downloadedCount == old(downloadedCount) && writer == old(writer)
      {
        StrippedUpToNext(lines, i);
        downloadedFiles := downloadedFiles + {Strip(lines[i])};
        i := i + 1;
      }
    }

    /** `save_downloaded_files()`: the text written to the tracking file,
        the URLs in increasing order, one per line. */
    method SaveDownloadedFiles() returns (content: string)
      ensures content == JoinLines(Sorted(downloadedFiles))
    {
      var rest := downloadedFiles;
      ghost var written: seq<string> := [];
      content := "";
      while rest != {}
        invariant written + Sorted(rest) == Sorted(downloadedFiles)
        invariant content == JoinLines(written)
        decreases |rest|
      {
        LeastExists(rest);
        var m :| m in rest && IsLeast(m, rest);
        SortedStartsWithLeast(rest, m);
        JoinLinesAppend(written, m);
        Regroup(written, m, Sorted(rest - {m}));
        content := content + m + "\n";
        written := written + [m];
        rest := rest - {m};
      }
      assert written + [] == written;
    }
  }
}
