/** The tracking file `logs/downloaded_files.txt` (crawler.py:432-452): the
    text `save_downloaded_files` writes, the lines `load_downloaded_files`
    reads back, and Python's `sorted` on a set of strings. */
module Tracking {
  import opened Text

  // ---------------------------------------------------------------------
  // Writing: `for url in sorted(urls): f.write(url + '\n')`

  /** The text written for `urls`, one per line. */
  function JoinLines(urls: seq<string>): string {
    if urls == [] then [] else urls[0] + "\n" + JoinLines(urls[1..])
  }

  lemma {:induction false} JoinLinesAppend(urls: seq<string>, url: string)
    ensures JoinLines(urls + [url]) == JoinLines(urls) + url + "\n"
  {
    if urls != [] {
      assert (urls + [url])[1..] == urls[1..] + [url];
      JoinLinesAppend(urls[1..], url);
    } else {
      assert [url][1..] == [];
    }
  }

  /** `a` comes before `b` in every pair of positions: sorted without
      repetitions. */
  ghost predicate StrictlySorted(xs: seq<string>) {
    forall i, j :: 0 <= i < j < |xs| ==> LexLess(xs[i], xs[j])
  }

  /** `m` is the least element of `s` in code-point order. */
  predicate IsLeast(m: string, s: set<string>) {
    m in s && forall y :: y in s && y != m ==> LexLess(m, y)
  }

  lemma {:induction false} LeastExists(s: set<string>)
    requires s != {}
    ensures exists m :: IsLeast(m, s)
    decreases |s|
  {
    var x :| x in s;
    if s != {x} {
      LeastExists(s - {x});
      var m :| IsLeast(m, s - {x});
      if LexLess(x, m) {
        forall y | y in s && y != x
          ensures LexLess(x, y)
        {
          if y != m {
            LexLessTransitive(x, m, y);
          }
        }
        assert IsLeast(x, s);
      } else {
        LexLessTotal(x, m);
        assert IsLeast(m, s);
      }
    } else {
      assert IsLeast(x, s);
    }
  }

  lemma LeastUnique(m1: string, m2: string, s: set<string>)
    requires IsLeast(m1, s) && IsLeast(m2, s)
    ensures m1 == m2
  {
    if m1 != m2 {
      LexLessTransitive(m1, m2, m1);
      LexLessIrreflexive(m1);
    }
  }

  /** `sorted(s)`: the elements of `s` in increasing code-point order. */
  ghost function Sorted(s: set<string>): (r: seq<string>)
    ensures StrictlySorted(r)
    ensures forall x :: x in r <==> x in s
    ensures |r| == |s|
    decreases |s|
  {
    if s == {} then []
    else
      LeastExists(s);
      var m :| IsLeast(m, s);
      var rest := Sorted(s - {m});
      PrependLeast(m, s, rest);
      [m] + rest
  }

  /** The least element of `s` in front of a sorted listing of the rest
      gives a sorted listing of `s`. */
  lemma PrependLeast(m: string, s: set<string>, rest: seq<string>)
    requires IsLeast(m, s) && StrictlySorted(rest)
    requires forall x :: x in rest <==> x in s - {m}
    ensures StrictlySorted([m] + rest)
    ensures forall x :: x in [m] + rest <==> x in s
  {
    var xs := [m] + rest;
    forall i, j | 0 <= i < j < |xs|
      ensures LexLess(xs[i], xs[j])
    {
      assert xs[j] == rest[j - 1];
      if i == 0 {
        assert rest[j - 1] in rest;
      } else {
        assert xs[i] == rest[i - 1];
      }
    }
  }

  /** How `Sorted` starts: with the least element. */
  lemma SortedStartsWithLeast(s: set<string>, m: string)
    requires IsLeast(m, s)
    ensures Sorted(s) == [m] + Sorted(s - {m})
  {
    LeastExists(s);
    var m' :| IsLeast(m', s) && Sorted(s) == [m'] + Sorted(s - {m'});
    LeastUnique(m, m', s);
  }

  /** The first element of a strictly sorted listing of `s` is the least
      element of `s`. */
  lemma SortedHeadIsLeast(xs: seq<string>, s: set<string>)
    requires xs != [] && StrictlySorted(xs)
    requires forall x :: x in xs <==> x in s
    ensures IsLeast(xs[0], s)
  {
    forall y | y in s && y != xs[0]
      ensures LexLess(xs[0], y)
    {
      var j :| 0 <= j < |xs| && xs[j] == y;
      assert j != 0;
    }
  }

  /** The rest of a strictly sorted listing of `s` lists the rest of `s`. */
  lemma SortedTailListsRest(xs: seq<string>, s: set<string>)
    requires xs != [] && StrictlySorted(xs)
    requires forall x :: x in xs <==> x in s
    ensures StrictlySorted(xs[1..])
    ensures forall x :: x in xs[1..] <==> x in s - {xs[0]}
  {
    var m := xs[0];
    forall x
      ensures x in xs[1..] <==> x in s - {m}
    {
      if x in xs[1..] {
        var j :| 1 <= j < |xs| && xs[j] == x;
        assert LexLess(xs[0], xs[j]);
        if x == m {
          LexLessIrreflexive(m);
        }
      }
      if x in s - {m} {
        var j :| 0 <= j < |xs| && xs[j] == x;
        assert xs[1..][j - 1] == x;
      }
    }
  }

  /** There is only one sorted listing of a set: any strictly sorted
      sequence holding exactly the elements of `s` is `sorted(s)`. */
  lemma {:induction false} SortedUnique(xs: seq<string>, s: set<string>)
    requires StrictlySorted(xs)
    requires forall x :: x in xs <==> x in s
    ensures xs == Sorted(s)
    decreases |xs|
  {
    if xs == [] {
      assert s == {};
    } else {
      var m := xs[0];
      SortedHeadIsLeast(xs, s);
      SortedStartsWithLeast(s, m);
      SortedTailListsRest(xs, s);
      SortedUnique(xs[1..], s - {m});
    }
  }

  lemma Regroup(a: seq<string>, m: string, b: seq<string>)
    ensures a + ([m] + b) == (a + [m]) + b
  {
  }

  // ---------------------------------------------------------------------
  // Reading: `for line in f: urls.add(line.strip())`

  /** Opening the file in text mode reads "\r\n" and a lone "\r" as "\n". */
  function UniversalNewlines(s: string): (r: string)
    ensures forall i :: 0 <= i < |r| ==> r[i] != '\r'
    ensures (forall i :: 0 <= i < |s| ==> s[i] != '\r') ==> r == s
  {
    if s == [] then []
    else if s[0] == '\r' then "\n" + UniversalNewlines(if |s| > 1 && s[1] == '\n' then s[2..] else s[1..])
    else [s[0]] + UniversalNewlines(s[1..])
  }

  /** The end of the line of `s` that starts at `i`: its "\n", or |s|. */
  function LineEnd(s: string, i: nat): (j: nat)
    requires i <= |s|
    ensures i <= j <= |s|
    ensures forall k :: i <= k < j ==> s[k] != '\n'
    ensures j == |s| || s[j] == '\n'
    decreases |s| - i
  {
    if i < |s| && s[i] != '\n' then LineEnd(s, i + 1) else i
  }

  /** A line as iteration over a text file yields it: not empty, and a
      "\n" only as its last character. */
  predicate IsLine(l: string) {
    l != [] && forall k :: 0 <= k < |l| - 1 ==> l[k] != '\n'
  }

  function Concat(ls: seq<string>): string {
    if ls == [] then [] else ls[0] + Concat(ls[1..])
  }

  /** The lines of `s`: each ends with its "\n", except a last line that
      has none; together they are the whole text. */
  function Lines(s: string): (r: seq<string>)
    ensures Concat(r) == s
    ensures forall k :: 0 <= k < |r| ==> IsLine(r[k])
    ensures forall k :: 0 <= k < |r| - 1 ==> EndsWith(r[k], "\n")
    decreases |s|
  {
    if s == [] then []
    else
      var j := LineEnd(s, 0);
      if j == |s| then
        assert Concat([s]) == s + Concat([]);
        [s]
      else
        var rest := Lines(s[j + 1..]);
        assert s == s[..j + 1] + s[j + 1..];
        assert ([s[..j + 1]] + rest)[1..] == rest;
        [s[..j + 1]] + rest
  }

  /** The set `load_downloaded_files` adds from a file holding `content`. */
  function LoadedUrls(content: string): set<string> {
    set l | l in Lines(UniversalNewlines(content)) :: Strip(l)
  }

  /** The stripped forms of the first `i` lines. */
  function StrippedUpTo(lines: seq<string>, i: nat): set<string>
    requires i <= |lines|
  {
    set j | 0 <= j < i :: Strip(lines[j])
  }

  lemma StrippedUpToNext(lines: seq<string>, i: nat)
    requires i < |lines|
    ensures StrippedUpTo(lines, i + 1) == StrippedUpTo(lines, i) + {Strip(lines[i])}
  {
  }

  lemma StrippedUpToAll(lines: seq<string>)
    ensures StrippedUpTo(lines, |lines|) == set l | l in lines :: Strip(l)
  {
    forall x | x in set l | l in lines :: Strip(l)
      ensures x in StrippedUpTo(lines, |lines|)
    {
      var l :| l in lines && Strip(l) == x;
      var j :| 0 <= j < |lines| && lines[j] == l;
    }
  }

  // ---------------------------------------------------------------------
  // Round trip

  /** A URL that survives the file: no line break inside, no whitespace at
      either end. */
  predicate Storable(url: string) {
    NoBreak(url) && Strip(url) == url
  }

  predicate NoBreak(url: string) {
    forall k :: 0 <= k < |url| ==> url[k] != '\n' && url[k] != '\r'
  }

  /** A line without a break, then its "\n", then more text: the first line
      is that line. */
  lemma LinesCons(u: string, rest: string)
    requires NoBreak(u)
    ensures Lines(u + "\n" + rest) == [u + "\n"] + Lines(rest)
  {
    var s := u + "\n" + rest;
    assert s[|u|] == '\n';
    assert forall k :: 0 <= k < |u| ==> s[k] == u[k];
    var j := LineEnd(s, 0);
    assert j == |u|;
    assert s[..j + 1] == u + "\n";
    assert s[j + 1..] == rest;
  }

  lemma StripLineEnd(url: string)
    requires Strip(url) == url
    ensures Strip(url + "\n") == url
  {
    var s := url + "\n";
    if url == [] {
      assert SkipSpace(s, 0) == SkipSpace(s, 1) == 1;
    } else {
      assert !IsSpace(url[0]) && !IsSpace(url[|url| - 1]);
      assert SkipSpace(s, 0) == 0;
      assert SkipSpaceBack(s, 0, |s|) == SkipSpaceBack(s, 0, |url|) == |url|;
      assert s[0..|url|] == url;
    }
  }

  /** Reading back what was written gives the lines, one per URL. */
  lemma {:induction false} LinesOfJoin(urls: seq<string>)
    requires forall i :: 0 <= i < |urls| ==> NoBreak(urls[i])
    ensures |Lines(JoinLines(urls))| == |urls|
    ensures forall i :: 0 <= i < |urls| ==> Lines(JoinLines(urls))[i] == urls[i] + "\n"
  {
    if urls != [] {
      LinesCons(urls[0], JoinLines(urls[1..]));
      LinesOfJoin(urls[1..]);
    }
  }

  lemma {:induction false} JoinLinesHasNoCarriageReturn(urls: seq<string>)
    requires forall i :: 0 <= i < |urls| ==> NoBreak(urls[i])
    ensures forall k :: 0 <= k < |JoinLines(urls)| ==> JoinLines(urls)[k] != '\r'
  {
    if urls != [] {
      JoinLinesHasNoCarriageReturn(urls[1..]);
      var u := urls[0];
      var rest := JoinLines(urls[1..]);
      assert JoinLines(urls) == u + "\n" + rest;
      forall k | 0 <= k < |JoinLines(urls)|
        ensures JoinLines(urls)[k] != '\r'
      {
        if k < |u| {
          assert JoinLines(urls)[k] == u[k];
        } else if k > |u| {
          assert JoinLines(urls)[k] == rest[k - |u| - 1];
        }
      }
    }
  }

  /** Stripping each of the lines written for storable URLs gives the URLs. */
  lemma StripLinesOfJoin(urls: seq<string>)
    requires forall i :: 0 <= i < |urls| ==> Storable(urls[i])
    ensures |Lines(JoinLines(urls))| == |urls|
    ensures forall i :: 0 <= i < |urls| ==> Strip(Lines(JoinLines(urls))[i]) == urls[i]
  {
    LinesOfJoin(urls);
    forall i | 0 <= i < |urls|
      ensures Strip(Lines(JoinLines(urls))[i]) == urls[i]
    {
      StripLineEnd(urls[i]);
    }
  }

  /** Stripping line by line and collecting gives the set of the stripped
      lines. */
  lemma StrippedSet(lines: seq<string>, urls: seq<string>)
    requires |lines| == |urls|
    requires forall i :: 0 <= i < |urls| ==> Strip(lines[i]) == urls[i]
    ensures forall x :: x in (set l | l in lines :: Strip(l)) <==> x in urls
  {
    forall x
      ensures x in (set l | l in lines :: Strip(l)) <==> x in urls
    {
      if x in (set l | l in lines :: Strip(l)) {
        var l :| l in lines && Strip(l) == x;
        var i :| 0 <= i < |lines| && lines[i] == l;
        assert urls[i] == x;
      }
      if x in urls {
        var i :| 0 <= i < |urls| && urls[i] == x;
        assert lines[i] in lines;
      }
    }
  }

  /** Loading the text written for a list of storable URLs gives back
      exactly those URLs. */
  lemma LoadJoinLines(urls: seq<string>)
    requires forall i :: 0 <= i < |urls| ==> Storable(urls[i])
    ensures forall x :: x in LoadedUrls(JoinLines(urls)) <==> x in urls
  {
    var s := JoinLines(urls);
    JoinLinesHasNoCarriageReturn(urls);
    assert UniversalNewlines(s) == s;
    StripLinesOfJoin(urls);
    StrippedSet(Lines(s), urls);
  }

  /** Loading what `save_downloaded_files` wrote gives back the saved set,
      when every URL in it is storable. */
  lemma LoadAfterSave(urls: set<string>)
    requires forall u :: u in urls ==> Storable(u)
    ensures LoadedUrls(JoinLines(Sorted(urls))) == urls
  {
    var xs := Sorted(urls);
    forall i | 0 <= i < |xs|
      ensures Storable(xs[i])
    {
      assert xs[i] in xs;
    }
    LoadJoinLines(xs);
  }
}
