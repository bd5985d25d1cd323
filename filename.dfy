/** `sanitize_filename` of `WebCrawler` (crawler.py:168-187): the name under
    which a download or an extracted page is saved,
    `name[_page_NNN]_hash8ext`. The MD5 digest is not modelled: its first
    eight hexadecimal characters arrive as the parameter `urlHash`. */
module Filename {
  import opened Wrappers
  import opened Text

  /** A digit of `hexdigest()`, which writes lower-case letters. */
  predicate IsHexDigit(c: char) {
    '0' <= c <= '9' || 'a' <= c <= 'f'
  }

  /** `hashlib.md5(url.encode()).hexdigest()[:8]`: eight hexadecimal digits. */
  type Digest = d: string | |d| == 8 && forall i :: 0 <= i < |d| ==> IsHexDigit(d[i])
    witness "00000000"

    /** `url.split('/')[-1]`: what follows the last slash, or the whole URL. */
  function LastSegment(url: string): (r: string)
    ensures EndsWith(url, r)
    ensures forall i :: 0 <= i < |r| ==> r[i] != '/'
    ensures |r| < |url| ==> url[|url| - |r| - 1] == '/'
  {
    match LastIndexOf(url, '/')
    case None => url
    case Some(k) => url[k + 1..]
  }

  /** `\w` of a `str` pattern, on the ASCII characters. */
  predicate IsWordChar(c: char) {
    'a' <= c <= 'z' || 'A' <= c <= 'Z' || '0' <= c <= '9' || c == '_'
  }

  /** The characters `[\w\-_.]` that `sanitize_filename` keeps. */
  predicate IsSafe(c: char) {
    IsWordChar(c) || c == '-' || c == '.'
  }

  predicate AllSafe(s: string) {
    forall i :: 0 <= i < |s| ==> IsSafe(s[i])
  }

  /** `re.sub(r'[^\w\-_.]', '_', s)`: every character outside the kept set
      becomes an underscore, and the others stay where they are. */
  function SafeChars(s: string): (r: string)
    ensures |r| == |s| && AllSafe(r)
    ensures forall i :: 0 <= i < |s| && IsSafe(s[i]) ==> r[i] == s[i]
    ensures forall i :: 0 <= i < |s| && !IsSafe(s[i]) ==> r[i] == '_'
  {
    seq(|s|, i requires 0 <= i < |s| => if IsSafe(s[i]) then s[i] else '_')
  }

  /** `os.path.splitext(p)` for a name without a slash (POSIX rules): the
      split is at the last dot, unless only dots come before that dot. */
  function SplitExt(p: string): (r: (string, string))
    ensures r.0 + r.1 == p
    ensures r.1 != [] ==> r.1[0] == '.' && (forall i :: 1 <= i < |r.1| ==> r.1[i] != '.')
                          && exists i :: 0 <= i < |r.0| && r.0[i] != '.'
    ensures r.1 == [] ==>
              forall d :: (0 <= d < |p| && p[d] == '.' && forall j :: d < j < |p| ==> p[j] != '.') ==>
                forall i :: 0 <= i < d ==> p[i] == '.'
  {
    match LastIndexOf(p, '.')
    case None => (p, [])
    case Some(d) =>
      if exists i | 0 <= i < d :: p[i] != '.' then
        assert p[..d] + p[d..] == p;
        (p[..d], p[d..])
      else (p, [])
  }

  /** The name part: the last segment of the URL ("index" when it is
      empty), made safe, without its final extension. */
  function Stem(url: string): (r: string)
    ensures r != [] && AllSafe(r)
  {
    var segment := LastSegment(url);
    var safe := SafeChars(if segment == [] then "index" else segment);
    var name := SplitExt(safe).0;
    assert safe == name + SplitExt(safe).1;
    assert forall i :: 0 <= i < |name| ==> name[i] == safe[i];
    name
  }

  // ---------------------------------------------------------------------
  // `f"{page_number:03d}"`

  function DigitChar(d: nat): (c: char)
    requires d < 10
  {
    ('0' as int + d) as char
  }

  predicate IsDigit(c: char) {
    '0' <= c <= '9'
  }

  predicate AllDigits(s: string) {
    forall i :: 0 <= i < |s| ==> IsDigit(s[i])
  }

  /** The number a string of decimal digits denotes. */
  function Value(s: string): nat
    requires AllDigits(s)
  {
    if s == [] then 0 else Value(s[..|s| - 1]) * 10 + (s[|s| - 1] as int - '0' as int)
  }

  /** `str(n)` for a natural number: its decimal digits, without leading zeros. */
  function Decimal(n: nat): (r: string)
    ensures r != [] && AllDigits(r) && Value(r) == n
    ensures |r| > 1 ==> r[0] != '0'
  {
    if n < 10 then [DigitChar(n)]
    else
      var r := Decimal(n / 10) + [DigitChar(n % 10)];
      assert r[..|r| - 1] == Decimal(n / 10);
      r
  }

  /** A leading zero does not change the number. */
  lemma {:induction false} ValueLeadingZero(s: string)
    requires AllDigits(s)
    ensures AllDigits("0" + s) && Value("0" + s) == Value(s)
  {
    if s != [] {
      var t := "0" + s;
      assert t[..|t| - 1] == "0" + s[..|s| - 1];
      ValueLeadingZero(s[..|s| - 1]);
    }
  }

  /** Left-pads `s` with zeros up to `width` characters. */
  function ZeroPad(s: string, width: nat): (r: string)
    requires AllDigits(s)
    ensures AllDigits(r) && Value(r) == Value(s)
    ensures |r| == if |s| < width then width else |s|
    decreases width - |s|
  {
    if |s| < width then
      ValueLeadingZero(s);
      ZeroPad("0" + s, width)
    else s
  }

  /** `format(n, '03d')`: at least three characters, the sign counted
      among them, zeros between the sign and the digits. */
  function PageNumber(n: int): (r: string)
    ensures |r| >= 3
    ensures n >= 0 ==> AllDigits(r) && Value(r) == n
    ensures n < 0 ==> r[0] == '-' && AllDigits(r[1..]) && Value(r[1..]) == -n
    ensures n >= 0 ==> |r| == if |Decimal(n)| < 3 then 3 else |Decimal(n)|
    ensures n < 0 ==> |r| == if |Decimal(-n)| + 1 < 3 then 3 else |Decimal(-n)| + 1
  {
    if n >= 0 then ZeroPad(Decimal(n), 3)
    else
      var r := "-" + ZeroPad(Decimal(-n), 2);
      assert r[1..] == ZeroPad(Decimal(-n), 2);
      r
  }

  function PageSuffix(page: Option<int>): string {
    match page
    case None => ""
    case Some(n) => "_page_" + PageNumber(n)
  }

  /** `if not extension: extension = '.txt'`. */
  function DefaultExtension(extension: string): (r: string)
    ensures r != []
  {
    if extension == [] then ".txt" else extension
  }

  /** `sanitize_filename(url, file_type, extension, page_number)`; the
      `file_type` argument is never read and is not a parameter here. */
  function Sanitize(url: string, urlHash: string, extension: string, page: Option<int>): (r: string)
    ensures |r| == |Stem(url)| + |PageSuffix(page)| + 1 + |urlHash| + |DefaultExtension(extension)|
    ensures EndsWith(r, "_" + urlHash + DefaultExtension(extension))
    ensures r[..|Stem(url)|] == Stem(url)
    ensures page.Some? ==> OccursAt("_page_" + PageNumber(page.value), r, |Stem(url)|)
  {
    var stem := Stem(url);
    var middle := PageSuffix(page);
    var tail := "_" + urlHash + DefaultExtension(extension);
    var r := stem + middle + tail;
    assert r[|r| - |tail|..] == tail;
    assert r[..|stem|] == stem;
    assert r[|stem|..|stem| + |middle|] == middle;
    r
  }

  /** The name ends with the extension, ".txt" when none was given. */
  lemma SanitizeEndsWithExtension(url: string, urlHash: string, extension: string, page: Option<int>)
    ensures EndsWith(Sanitize(url, urlHash, extension, page), DefaultExtension(extension))
  {
    EndsWithTail(Sanitize(url, urlHash, extension, page), "_" + urlHash, DefaultExtension(extension));
  }

  lemma AllSafeConcat(a: string, b: string)
    requires AllSafe(a) && AllSafe(b)
    ensures AllSafe(a + b)
  {
  }

  /** A safe name holds no slash. */
  lemma SafeHasNoSlash(s: string)
    requires AllSafe(s)
    ensures forall i :: 0 <= i < |s| ==> s[i] != '/'
  {
  }

  lemma {:induction false} PageSuffixIsSafe(page: Option<int>)
    ensures AllSafe(PageSuffix(page))
  {
    if page.Some? {
      var n := page.value;
      var digits := PageNumber(n);
      if n < 0 {
        assert forall i :: 1 <= i < |digits| ==> digits[i] == digits[1..][i - 1];
      }
      assert AllSafe(digits);
      AllSafeConcat("_page_", digits);
    }
  }

  /** The name is safe to use as a file name in any directory: it holds no
      slash and only the kept characters, given a safe hash and extension
      (an MD5 hex digest and the extensions of the tables are). */
  lemma {:induction false} SanitizeIsSafe(url: string, urlHash: string, extension: string, page: Option<int>)
    requires AllSafe(urlHash) && AllSafe(extension)
    ensures AllSafe(Sanitize(url, urlHash, extension, page))
    ensures forall i :: 0 <= i < |Sanitize(url, urlHash, extension, page)| ==>
              Sanitize(url, urlHash, extension, page)[i] != '/'
  {
    var ext := DefaultExtension(extension);
    assert AllSafe(ext);
    AllSafeConcat("_", urlHash);
    AllSafeConcat("_" + urlHash, ext);
    PageSuffixIsSafe(page);
    AllSafeConcat(Stem(url), PageSuffix(page));
    AllSafeConcat(Stem(url) + PageSuffix(page), "_" + urlHash + ext);
    SafeHasNoSlash(Sanitize(url, urlHash, extension, page));
  }

  /** A digest is made of kept characters only. */
  lemma DigestIsSafe(d: Digest)
    ensures AllSafe(d)
  {
  }

  /** Two equal names with the same extension come from the same hash: URLs
      whose hashes differ never share a file name, even when their last
      segments are the same. */
  lemma {:induction false} SanitizeSeparatesHashes(url1: string, url2: string, hash1: string, hash2: string,
                                                   extension: string, page1: Option<int>, page2: Option<int>)
    requires |hash1| == |hash2|
    requires Sanitize(url1, hash1, extension, page1) == Sanitize(url2, hash2, extension, page2)
    ensures hash1 == hash2
  {
    var r := Sanitize(url1, hash1, extension, page1);
    var e := DefaultExtension(extension);
    var t1 := "_" + hash1 + e;
    var t2 := "_" + hash2 + e;
    assert r[|r| - |t1|..] == t1 && r[|r| - |t2|..] == t2;
    assert t1 == t2;
    assert hash1 == t1[1..|t1| - |e|] && hash2 == t2[1..|t2| - |e|];
  }
}
