/** URL scoping and classification of `WebCrawler` (crawler.py): the
    language pattern found in the start URL, the excluded-segment and
    same-language tests, the downloadable-file test, and the choice of a
    file category and extension from the URL path and the Content-Type. */
module Classify {
  import opened Wrappers
  import opened Text

  /** A URL as `urlparse` splits it. `full` is the absolute URL string the
      crawler keeps in its sets; `netloc` and `path` are its components. */
  datatype Url = Url(full: string, netloc: string, path: string)

  /** The three keys of `downloadable_extensions` and `content_type_mapping`. */
  datatype Category = PDF | Image | Doc

  /** Both tables are dicts written in this order, which is the order in
      which `get_file_type_and_extension` tries them. */
  const Categories: seq<Category> := [PDF, Image, Doc]

  function Rank(c: Category): (k: nat)
    ensures k < |Categories| && Categories[k] == c
  {
    match c
    case PDF => 0
    case Image => 1
    case Doc => 2
  }

  /** `downloadable_extensions[c]`. */
  function Extensions(c: Category): seq<string> {
    match c
    case PDF => [".pdf"]
    case Image => [".png", ".jpg", ".jpeg", ".gif", ".svg"]
    case Doc => [".doc", ".docx", ".xls", ".xlsx", ".ppt", ".pptx"]
  }

  /** The alternatives of the pattern in `is_downloadable_file`: every
      extension of every category, in table order. */
  const AllExtensions: seq<string> := Extensions(PDF) + Extensions(Image) + Extensions(Doc)

  /** `content_type_mapping[c]`. */
  function ContentTypes(c: Category): map<string, string> {
    match c
    case PDF => map["application/pdf" := ".pdf"]
    case Image => map["image/jpeg" := ".jpg", "image/png" := ".png",
                      "image/gif" := ".gif", "image/svg+xml" := ".svg"]
    case Doc => map[
      "application/msword" := ".doc",
      "application/vnd.openxmlformats-officedocument.wordprocessingml.document" := ".docx",
      "application/vnd.ms-excel" := ".xls",
      "application/vnd.openxmlformats-officedocument.spreadsheetml.sheet" := ".xlsx",
      "application/vnd.ms-powerpoint" := ".ppt",
      "application/vnd.openxmlformats-officedocument.presentationml.presentation" := ".pptx"]
  }

  /** No Content-Type belongs to two categories, so the order in which the
      fallback tries the tables never matters for the result. */
  lemma ContentTypesDisjoint(c1: Category, c2: Category, ct: string)
    requires c1 != c2 && ct in ContentTypes(c1)
    ensures ct !in ContentTypes(c2)
  {
  }

  // ---------------------------------------------------------------------
  // Language pattern (crawler.py:28-36)

  const Languages: seq<string> := ["fr", "en"]
  const Countries: seq<string> := ["ca", "us"]

  /** The groups of a match of `/(fr|en)-(ca|us)/`. */
  datatype Locale = Locale(language: string, country: string) {
    /** `group(0)` of the match, the `language_pattern`. */
    function Pattern(): string {
      "/" + language + "-" + country + "/"
    }
  }

  ghost predicate IsLocale(l: Locale) {
    l.language in Languages && l.country in Countries
  }

  /** A match of the regex and the index where it starts. */
  datatype LocaleMatch = LocaleMatch(at: nat, locale: Locale)

  /** Does `/(fr|en)-(ca|us)/` match `s` starting at index `i`? */
  function LocaleAt(s: string, i: nat): (r: Option<Locale>)
    ensures r.Some? ==> IsLocale(r.value) && OccursAt(r.value.Pattern(), s, i)
    ensures r.None? ==> forall l :: IsLocale(l) ==> !OccursAt(l.Pattern(), s, i)
  {
    if i + 7 <= |s| && s[i] == '/' && s[i + 3] == '-' && s[i + 6] == '/'
       && s[i + 1..i + 3] in Languages && s[i + 4..i + 6] in Countries
    then
      var l := Locale(s[i + 1..i + 3], s[i + 4..i + 6]);
      assert s[i..i + 7] == l.Pattern();
      Some(l)
    else
      assert forall l :: IsLocale(l) ==> !OccursAt(l.Pattern(), s, i) by {
        forall l | IsLocale(l) && OccursAt(l.Pattern(), s, i) ensures false {
          PatternShape(l, s, i);
        }
      }
      None
  }

  /** Where a locale pattern occurs, the characters of `s` spell it out. */
  lemma PatternShape(l: Locale, s: string, i: nat)
    requires IsLocale(l) && OccursAt(l.Pattern(), s, i)
    ensures i + 7 <= |s| && s[i] == '/' && s[i + 3] == '-' && s[i + 6] == '/'
    ensures s[i + 1..i + 3] == l.language && s[i + 4..i + 6] == l.country
  {
    assert |l.language| == 2 && |l.country| == 2;
    var w := l.Pattern();
    assert |w| == 7;
    assert i + 7 <= |s| && s[i..i + 7] == w;
    assert w[0] == '/' && w[3] == '-' && w[6] == '/';
    assert w[1..3] == l.language;
    assert w[4..6] == l.country;
    assert s[i + 1] == w[1] && s[i + 2] == w[2] && s[i + 4] == w[4] && s[i + 5] == w[5];
    assert s[i + 1..i + 3] == [s[i + 1], s[i + 2]] == [w[1], w[2]] == w[1..3];
    assert s[i + 4..i + 6] == [s[i + 4], s[i + 5]] == [w[4], w[5]] == w[4..6];
  }

  /** `re.search` from index `from` on. */
  function FindLocaleFrom(s: string, from: nat): (r: Option<LocaleMatch>)
    ensures r.Some? ==> from <= r.value.at && LocaleAt(s, r.value.at) == Some(r.value.locale)
    ensures r.Some? ==> forall j :: from <= j < r.value.at ==> LocaleAt(s, j).None?
    ensures r.None? ==> forall j :: from <= j ==> LocaleAt(s, j).None?
    decreases |s| - from
  {
    if from + 7 > |s| then None
    else match LocaleAt(s, from)
      case Some(l) => Some(LocaleMatch(from, l))
      case None => FindLocaleFrom(s, from + 1)
  }

  /** `re.search(r'/(fr|en)-(ca|us)/', start_url)`: the leftmost substring
      of the form `/xx-yy/` with xx in {fr, en} and yy in {ca, us}, or none. */
  function FindLocale(startUrl: string): (r: Option<LocaleMatch>)
    ensures r.Some? ==> IsLocale(r.value.locale)
                        && OccursAt(r.value.locale.Pattern(), startUrl, r.value.at)
    ensures r.Some? ==> forall j, l :: 0 <= j < r.value.at && IsLocale(l) ==>
                          !OccursAt(l.Pattern(), startUrl, j)
    ensures r.None? ==> forall j, l :: 0 <= j && IsLocale(l) ==> !OccursAt(l.Pattern(), startUrl, j)
  {
    var r := FindLocaleFrom(startUrl, 0);
    var bound := if r.Some? then r.value.at else |startUrl| + 1;
    assert forall j, l :: 0 <= j < bound && IsLocale(l) ==> !OccursAt(l.Pattern(), startUrl, j) by {
      forall j, l | 0 <= j < bound && IsLocale(l) ensures !OccursAt(l.Pattern(), startUrl, j) {
        assert LocaleAt(startUrl, j).None?;
      }
    }
    assert r.None? ==> forall j, l :: bound <= j && IsLocale(l) ==> !OccursAt(l.Pattern(), startUrl, j);
    r
  }

  /** `language_pattern`: the text of the leftmost match, or `None`. */
  function LanguagePattern(startUrl: string): (r: Option<string>)
    ensures r.Some? ==> |r.value| == 7 && Contains(startUrl, r.value)
    ensures r.Some? <==> FindLocale(startUrl).Some?
    ensures r.Some? ==> r.value == FindLocale(startUrl).value.locale.Pattern()
    ensures r.None? <==> forall l :: IsLocale(l) ==> !Contains(startUrl, l.Pattern())
  {
    match FindLocale(startUrl)
    case None => None
    case Some(m) => Some(m.locale.Pattern())
  }

  // ---------------------------------------------------------------------
  // Scope tests (crawler.py:130-141, 388-392)

  /** `excluded_paths` as set in the constructor. */
  const ExcludedPaths: seq<string> := ["selecteur-de-produits"]

  /** `should_exclude`: some excluded segment is a substring of the URL. */
  function ShouldExclude(excluded: seq<string>, url: string): (r: bool)
    ensures r <==> exists k :: 0 <= k < |excluded| && OccursIn(excluded[k], url)
  {
    if excluded == [] then false
    else if Contains(url, excluded[0]) then true
    else
      assert forall k :: 1 <= k < |excluded| ==> excluded[k] == excluded[1..][k - 1];
      ShouldExclude(excluded[1..], url)
  }

  /** `is_same_language`: every URL passes when the start URL had no
      language pattern; otherwise the pattern must occur in the URL. */
  function IsSameLanguage(pattern: Option<string>, url: string): (r: bool)
    ensures r <==> (pattern.None? || OccursIn(pattern.value, url))
  {
    match pattern
    case None => true
    case Some(p) => Contains(url, p)
  }

  /** `self.domain in parsed_url.netloc`: a substring test, not equality. */
  function DomainMatches(domain: string, u: Url): (r: bool)
    ensures r <==> OccursIn(domain, u.netloc)
  {
    Contains(u.netloc, domain)
  }

  /** `absolute_url.endswith(('#', 'javascript:void(0)', 'javascript:;'))`. */
  predicate IsVoidLink(url: string) {
    EndsWith(url, "#") || EndsWith(url, "javascript:void(0)") || EndsWith(url, "javascript:;")
  }

  // ---------------------------------------------------------------------
  // Extension matching (crawler.py:143-148, 155-159)

  predicate IsLowerAlnum(c: char) {
    'a' <= c <= 'z' || '0' <= c <= '9'
  }

  /** The pattern `re.escape(e) + r'(\.[a-z0-9]+)?$'` matches the lower-cased
      path `p` from index `i`: the rest of `p` is `e`, or `e` followed by a
      dot and one or more letters or digits. */
  ghost predicate TailAt(p: string, i: int, e: string) {
    0 <= i <= |p| &&
    (p[i..] == e ||
     (i + |e| + 1 < |p| && p[i..i + |e|] == e && p[i + |e|] == '.'
      && forall k :: i + |e| < k < |p| ==> IsLowerAlnum(p[k])))
  }

  /** `pattern.search(p)` for that pattern. */
  ghost predicate SearchExt(p: string, e: string) {
    exists i :: TailAt(p, i, e)
  }

  /** The search decided from the end of the path: `p` ends with `e`, or the
      part after the last dot is a non-empty run of letters and digits and
      the part before it ends with `e`. */
  function HasExtension(p: string, e: string): (r: bool)
    ensures r <==> SearchExt(p, e)
  {
    if EndsWith(p, e) then
      assert TailAt(p, |p| - |e|, e);
      true
    else
      match LastIndexOf(p, '.')
      case None =>
        assert forall i :: !TailAt(p, i, e);
        false
      case Some(k) =>
        var r := k + 1 < |p| && (forall j :: k < j < |p| ==> IsLowerAlnum(p[j])) && EndsWith(p[..k], e);
        assert r ==> TailAt(p, k - |e|, e);
        assert forall i :: TailAt(p, i, e) ==> i + |e| == k && EndsWith(p[..k], e);
        r
  }

  /** `is_downloadable_file`: the lower-cased path matches
      `\.(pdf|png|...|pptx)(\.[a-z0-9]+)?$`. */
  function IsDownloadable(u: Url): (r: bool)
    ensures r <==> exists k :: 0 <= k < |AllExtensions| && SearchExt(Lower(u.path), AllExtensions[k])
  {
    exists k | 0 <= k < |AllExtensions| :: HasExtension(Lower(u.path), AllExtensions[k])
  }

  /** The test reads the path only: the query string, the fragment and the
      host of the URL do not change its answer. */
  lemma DownloadableReadsPathOnly(u: Url, v: Url)
    requires u.path == v.path
    ensures IsDownloadable(u) == IsDownloadable(v)
  {
  }

  /** The test ignores the case of the path. */
  lemma DownloadableIgnoresCase(u: Url)
    ensures IsDownloadable(u.(path := Upper(u.path))) == IsDownloadable(u)
  {
    LowerUpper(u.path);
  }

  // ---------------------------------------------------------------------
  // Category and extension (crawler.py:150-166)

  /** Some extension of category `c` matches the lower-cased path `p`. */
  ghost predicate PathInCategory(p: string, c: Category) {
    exists j :: 0 <= j < |Extensions(c)| && SearchExt(p, Extensions(c)[j])
  }

  /** The inner loop over one category's extensions: the first that matches. */
  function FirstExtension(p: string, exts: seq<string>, from: nat): (r: Option<nat>)
    ensures r.Some? ==> from <= r.value < |exts| && SearchExt(p, exts[r.value])
    ensures r.Some? ==> forall j :: from <= j < r.value ==> !SearchExt(p, exts[j])
    ensures r.None? ==> forall j :: from <= j < |exts| ==> !SearchExt(p, exts[j])
    decreases |exts| - from
  {
    if from >= |exts| then None
    else if HasExtension(p, exts[from]) then Some(from)
    else FirstExtension(p, exts, from + 1)
  }

  /** The outer loop over the categories, from index `from` of `Categories`:
      the first category with a matching extension, and that extension. */
  function CategoryByPath(p: string, from: nat): (r: Option<(Category, string)>)
    requires from <= |Categories|
    ensures r.Some? ==> from <= Rank(r.value.0) && PathInCategory(p, r.value.0)
    ensures r.Some? ==> forall c :: from <= Rank(c) < Rank(r.value.0) ==> !PathInCategory(p, c)
    ensures r.Some? ==> exists j :: 0 <= j < |Extensions(r.value.0)|
                          && r.value.1 == Extensions(r.value.0)[j] && SearchExt(p, r.value.1)
                          && forall j' :: 0 <= j' < j ==> !SearchExt(p, Extensions(r.value.0)[j'])
    ensures r.None? ==> forall c :: from <= Rank(c) ==> !PathInCategory(p, c)
    decreases |Categories| - from
  {
    if from == |Categories| then None
    else
      var c := Categories[from];
      match FirstExtension(p, Extensions(c), 0)
      case Some(j) => Some((c, Extensions(c)[j]))
      case None => CategoryByPath(p, from + 1)
  }

  /** The fallback loop: the first table, from index `from` on, that holds
      the Content-Type. */
  function CategoryByType(ct: string, from: nat): (r: Option<Category>)
    requires from <= |Categories|
    ensures r.Some? ==> from <= Rank(r.value) && ct in ContentTypes(r.value)
    ensures r.None? ==> forall c :: from <= Rank(c) ==> ct !in ContentTypes(c)
    decreases |Categories| - from
  {
    if from == |Categories| then None
    else if ct in ContentTypes(Categories[from]) then Some(Categories[from])
    else CategoryByType(ct, from + 1)
  }

  /** `get_file_type_and_extension(url, response)`, where `contentType` is
      `response.headers.get('Content-Type', '')`; `None` stands for
      `(None, None)`. Its contract is stated by the lemmas below. */
  function FileTypeAndExtension(u: Url, contentType: string): Option<(Category, string)> {
    var p := Lower(u.path);
    var ct := Lower(contentType);
    match CategoryByPath(p, 0)
    case Some((c, e)) =>
      Some((c, if ct in ContentTypes(c) then ContentTypes(c)[ct] else e))
    case None =>
      match CategoryByType(ct, 0)
      case Some(c) => Some((c, ContentTypes(c)[ct]))
      case None => None
  }

  /** Every extension it returns is one of the category's own: each table
      maps into its category's extension list. */
  lemma FileTypeExtensionIsListed(u: Url, contentType: string)
    ensures var r := FileTypeAndExtension(u, contentType);
            r.Some? ==> r.value.1 in Extensions(r.value.0)
  {
    var ct := Lower(contentType);
    match CategoryByPath(Lower(u.path), 0)
    case Some((c, e)) =>
      if ct in ContentTypes(c) {
        MappedIsExtension(c, ct);
      }
    case None =>
      match CategoryByType(ct, 0)
      case Some(c) => MappedIsExtension(c, ct);
      case None =>
  }

  /** Each table maps into its category's extension list. */
  lemma MappedIsExtension(c: Category, ct: string)
    requires ct in ContentTypes(c)
    ensures ContentTypes(c)[ct] in Extensions(c)
  {
  }

  /** The choice `get_file_type_and_extension` makes. */
  lemma FileTypeAndExtensionChoice(u: Url, contentType: string)
    // A path match wins, and the first matching category in table order is taken ...
    ensures var r := FileTypeAndExtension(u, contentType);
            (exists c :: PathInCategory(Lower(u.path), c)) ==>
              r.Some? && PathInCategory(Lower(u.path), r.value.0)
              && forall c :: Rank(c) < Rank(r.value.0) ==> !PathInCategory(Lower(u.path), c)
    // ... with the category's extension for the Content-Type if it has one ...
    ensures var r := FileTypeAndExtension(u, contentType);
            (exists c :: PathInCategory(Lower(u.path), c)) && Lower(contentType) in ContentTypes(r.value.0) ==>
              r.value.1 == ContentTypes(r.value.0)[Lower(contentType)]
    // ... and otherwise the first of its extensions that the path matches.
    ensures var r := FileTypeAndExtension(u, contentType);
            (exists c :: PathInCategory(Lower(u.path), c)) && Lower(contentType) !in ContentTypes(r.value.0) ==>
              exists j :: 0 <= j < |Extensions(r.value.0)| && r.value.1 == Extensions(r.value.0)[j]
                          && SearchExt(Lower(u.path), r.value.1)
                          && forall j' :: 0 <= j' < j ==> !SearchExt(Lower(u.path), Extensions(r.value.0)[j'])
    // Without a path match the Content-Type alone decides, or nothing does.
    ensures var r := FileTypeAndExtension(u, contentType);
            (forall c :: !PathInCategory(Lower(u.path), c)) ==>
              (r.Some? <==> exists c :: Lower(contentType) in ContentTypes(c))
    ensures var r := FileTypeAndExtension(u, contentType);
            (forall c :: !PathInCategory(Lower(u.path), c)) && r.Some? ==>
              Lower(contentType) in ContentTypes(r.value.0)
              && r.value.1 == ContentTypes(r.value.0)[Lower(contentType)]
  {
    var p := Lower(u.path);
    var ct := Lower(contentType);
    match CategoryByPath(p, 0)
    case Some((c, e)) =>
    case None =>
      match CategoryByType(ct, 0)
      case Some(c) =>
      case None =>
  }

  /** The single pattern of `is_downloadable_file` accepts exactly the paths
      that some category's extension accepts. */
  lemma DownloadableIffSomeCategory(u: Url)
    ensures IsDownloadable(u) <==> exists c :: PathInCategory(Lower(u.path), c)
  {
    var p := Lower(u.path);
    if IsDownloadable(u) {
      var k :| 0 <= k < |AllExtensions| && SearchExt(p, AllExtensions[k]);
      if k < 1 {
        assert AllExtensions[k] == Extensions(PDF)[k];
        assert PathInCategory(p, PDF);
      } else if k < 6 {
        assert AllExtensions[k] == Extensions(Image)[k - 1];
        assert PathInCategory(p, Image);
      } else {
        assert AllExtensions[k] == Extensions(Doc)[k - 6];
        assert PathInCategory(p, Doc);
      }
    }
    if c :| PathInCategory(p, c) {
      var j :| 0 <= j < |Extensions(c)| && SearchExt(p, Extensions(c)[j]);
      var k := match c case PDF => j case Image => j + 1 case Doc => j + 6;
      assert AllExtensions[k] == Extensions(c)[j];
    }
  }

  /** Whatever the headers say, a URL that `is_downloadable_file` accepts
      gets a category. */
  lemma DownloadableHasCategory(u: Url, contentType: string)
    requires IsDownloadable(u)
    ensures FileTypeAndExtension(u, contentType).Some?
  {
    DownloadableIffSomeCategory(u);
    FileTypeAndExtensionChoice(u, contentType);
  }
}
