/** `clean_text` of `WebCrawler` (crawler.py:240-249): the three regular
    expression substitutions and the final `strip()`, each written as a
    left-to-right scan that does what `re.sub` does with its pattern. */
module Cleaning {
  import opened Wrappers
  import opened Text

  /** `[\x00-\x08\x0B\x0C\x0E-\x1F\x7F-\x9F]`: the C0 and C1 controls except
      tab, line feed and carriage return. */
  predicate IsControl(c: char) {
    c <= '\U{8}' || c == '\U{B}' || c == '\U{C}' || ('\U{E}' <= c <= '\U{1F}') || ('\U{7F}' <= c <= '\U{9F}')
  }

  /** The characters that carry the text: neither whitespace nor control. */
  predicate IsVisible(c: char) {
    !IsSpace(c) && !IsControl(c)
  }

  /** The visible characters of `s`, in order. */
  function Visible(s: string): string {
    if s == [] then [] else (if IsVisible(s[0]) then [s[0]] else []) + Visible(s[1..])
  }

  lemma {:induction false} VisibleConcat(a: string, b: string)
    ensures Visible(a + b) == Visible(a) + Visible(b)
  {
    if a != [] {
      var x := if IsVisible(a[0]) then [a[0]] else [];
      assert (a + b)[0] == a[0];
      assert (a + b)[1..] == a[1..] + b;
      VisibleConcat(a[1..], b);
      calc {
        Visible(a + b);
        x + Visible(a[1..] + b);
        x + (Visible(a[1..]) + Visible(b));
        (x + Visible(a[1..])) + Visible(b);
      }
    } else {
      assert a + b == b;
    }
  }

  lemma {:induction false} VisibleOfSpace(s: string)
    requires AllSpace(s)
    ensures Visible(s) == []
  {
    if s != [] {
      VisibleOfSpace(s[1..]);
    }
  }

  // ---------------------------------------------------------------------
  // Properties of the result

  predicate NoControl(s: string) {
    forall i :: 0 <= i < |s| ==> !IsControl(s[i])
  }

  predicate NoTab(s: string) {
    forall i :: 0 <= i < |s| ==> s[i] != '\t'
  }

  /** `s` has two spaces in a row at index `i`. */
  predicate DoubleSpaceAt(s: string, i: int) {
    0 <= i < |s| - 1 && s[i] == ' ' && s[i + 1] == ' '
  }

  ghost predicate NoDoubleSpace(s: string) {
    forall i :: !DoubleSpaceAt(s, i)
  }

  /** `s` has a line break at index `i`. */
  predicate IsBreakAt(s: string, i: int) {
    0 <= i < |s| && s[i] == '\n'
  }

  /** Between two line breaks that are not adjacent stands a character
      that is not whitespace: no blank line holds spaces, and no two blank
      lines follow each other. */
  ghost predicate NoBlankRun(s: string) {
    forall i, j :: IsBreakAt(s, i) && IsBreakAt(s, j) && i + 1 < j ==>
      exists k :: i < k < j && !IsSpace(s[k])
  }

  /** Every line break of `s` comes after a character that is not
      whitespace: the whitespace that starts `s` holds no line break. */
  ghost predicate NoLeadingBreak(s: string) {
    forall j :: IsBreakAt(s, j) ==> exists k :: 0 <= k < j && !IsSpace(s[k])
  }

  /** Every character of `r` occurs in `s`. */
  predicate CharsFrom(r: string, s: string) {
    forall i :: 0 <= i < |r| ==> r[i] in s
  }

  // ---------------------------------------------------------------------
  // Step 1: `re.sub(r'[\x00-\x08\x0B\x0C\x0E-\x1F\x7F-\x9F]', '', text)`

  function RemoveControl(s: string): (r: string)
    ensures NoControl(r) && CharsFrom(r, s)
    ensures NoControl(s) ==> r == s
    ensures Visible(r) == Visible(s)
  {
    if s == [] then []
    else
      var rest := RemoveControl(s[1..]);
      assert forall c :: c in s[1..] ==> c in s;
      assert NoControl(s) ==> NoControl(s[1..]) by {
        assert forall i :: 0 <= i < |s| - 1 ==> s[1..][i] == s[i + 1];
      }
      if IsControl(s[0]) then rest else [s[0]] + rest
  }

  /** The substitution works one character at a time: it distributes over
      concatenation. With the contract above this pins it down: a single
      character is dropped exactly when it is a control character. */
  lemma {:induction false} RemoveControlConcat(a: string, b: string)
    ensures RemoveControl(a + b) == RemoveControl(a) + RemoveControl(b)
    decreases |a|
  {
    if a == [] {
      assert a + b == b;
    } else {
      assert (a + b)[0] == a[0] && (a + b)[1..] == a[1..] + b;
      RemoveControlConcat(a[1..], b);
    }
  }

  /** Joining two strings without two spaces in a row gives none, unless
      a space meets a space at the seam. */
  lemma ConcatNoDoubleSpace(head: string, rest: string)
    requires NoDoubleSpace(head) && NoDoubleSpace(rest)
    requires !(head != [] && rest != [] && head[|head| - 1] == ' ' && rest[0] == ' ')
    ensures NoDoubleSpace(head + rest)
  {
    var r := head + rest;
    var h := |head|;
    forall i
      ensures !DoubleSpaceAt(r, i)
    {
      if 0 <= i && i + 1 < h {
        assert !DoubleSpaceAt(head, i);
      } else if h <= i < |r| - 1 {
        assert !DoubleSpaceAt(rest, i - h);
      }
    }
  }

  // ---------------------------------------------------------------------
  // Step 2: `re.sub(r'[ \t]+', ' ', text)`

  predicate IsBlank(c: char) {
    c == ' ' || c == '\t'
  }

  /** The end of the run of spaces and tabs of `s` that starts at `i`. */
  function BlankRunEnd(s: string, i: nat): (j: nat)
    requires i <= |s|
    ensures i <= j <= |s|
    ensures forall k :: i <= k < j ==> IsBlank(s[k])
    ensures j == |s| || !IsBlank(s[j])
    decreases |s| - i
  {
    if i < |s| && IsBlank(s[i]) then BlankRunEnd(s, i + 1) else i
  }

  function CollapseBlanks(s: string): (r: string)
    ensures NoTab(r) && NoDoubleSpace(r)
    ensures forall i :: 0 <= i < |r| ==> r[i] == ' ' || r[i] in s
    ensures s != [] ==> r != [] && r[0] == (if IsBlank(s[0]) then ' ' else s[0])
    decreases |s|
  {
    if s == [] then []
    else if IsBlank(s[0]) then
      var t := s[BlankRunEnd(s, 0)..];
      var rest := CollapseBlanks(t);
      assert forall c :: c in t ==> c in s;
      ConcatNoDoubleSpace(" ", rest);
      " " + rest
    else
      var rest := CollapseBlanks(s[1..]);
      assert forall c :: c in s[1..] ==> c in s;
      ConcatNoDoubleSpace([s[0]], rest);
      [s[0]] + rest
  }

  /** A run of spaces and tabs that reaches the end of `a` ends there in
      `a + b` too when `b` does not start with one. */
  lemma {:induction false} BlankRunEndConcat(a: string, b: string, i: nat)
    requires i <= |a|
    requires BlankRunEnd(a, i) < |a| || b == [] || !IsBlank(b[0])
    ensures BlankRunEnd(a + b, i) == BlankRunEnd(a, i)
    decreases |a| - i
  {
    if i < |a| {
      assert (a + b)[i] == a[i];
      if IsBlank(a[i]) {
        BlankRunEndConcat(a, b, i + 1);
      }
    } else if b != [] {
      assert (a + b)[i] == b[0];
    }
  }

  /** A whole run of spaces and tabs becomes one space. */
  lemma BlankRunIsOneSpace(s: string)
    requires s != [] && forall i :: 0 <= i < |s| ==> IsBlank(s[i])
    ensures CollapseBlanks(s) == " "
  {
    assert BlankRunEnd(s, 0) == |s|;
    assert s[|s|..] == [];
  }

  /** The substitution works run by run: split anywhere but inside a run
      of spaces and tabs, the parts are collapsed on their own. With
      `BlankRunIsOneSpace` and `CollapseBlanksKeeps` this pins it down:
      every maximal run becomes exactly one space and every other
      character stays. */
  lemma {:induction false} CollapseBlanksConcat(a: string, b: string)
    requires a == [] || b == [] || !IsBlank(a[|a| - 1]) || !IsBlank(b[0])
    ensures CollapseBlanks(a + b) == CollapseBlanks(a) + CollapseBlanks(b)
    decreases |a|
  {
    if a == [] {
      assert a + b == b;
    } else {
      var j := if IsBlank(a[0]) then BlankRunEnd(a, 0) else 1;
      var head := if IsBlank(a[0]) then " " else [a[0]];
      if IsBlank(a[0]) {
        if j == |a| {
          assert IsBlank(a[|a| - 1]);
        }
        BlankRunEndConcat(a, b, 0);
      }
      if j < |a| {
        assert a[j..][|a| - j - 1] == a[|a| - 1];
      }
      assert (a + b)[0] == a[0] && (a + b)[j..] == a[j..] + b;
      CollapseBlanksConcat(a[j..], b);
      CollapseBlanksHead(a + b);
      CollapseBlanksHead(a);
      var x, y := CollapseBlanks(a[j..]), CollapseBlanks(b);
      assert CollapseBlanks(a + b) == head + (x + y);
      assert CollapseBlanks(a) == head + x;
      ConcatAssoc(head, x, y);
    }
  }

  lemma ConcatAssoc(h: string, x: string, y: string)
    ensures h + (x + y) == (h + x) + y
  {
  }

  /** The first step of the scan: a run of spaces and tabs at the head
      becomes one space, any other character stays. */
  lemma CollapseBlanksHead(s: string)
    requires s != []
    ensures IsBlank(s[0]) ==> CollapseBlanks(s) == " " + CollapseBlanks(s[BlankRunEnd(s, 0)..])
    ensures !IsBlank(s[0]) ==> CollapseBlanks(s) == [s[0]] + CollapseBlanks(s[1..])
  {
  }

  /** A text without tabs and without two spaces in a row is left as it
      is. */
  lemma {:induction false} CollapseBlanksKeeps(s: string)
    requires NoTab(s) && NoDoubleSpace(s)
    ensures CollapseBlanks(s) == s
    decreases |s|
  {
    if s != [] {
      SliceNoTab(s, 1, |s|);
      SliceNoDoubleSpace(s, 1, |s|);
      assert s[1..|s|] == s[1..];
      CollapseBlanksKeeps(s[1..]);
      if IsBlank(s[0]) {
        assert !DoubleSpaceAt(s, 0);
        assert BlankRunEnd(s, 1) == 1;
      }
    }
  }

  /** The substitution only replaces spaces and tabs. */
  lemma {:induction false} CollapseBlanksVisible(s: string)
    ensures Visible(CollapseBlanks(s)) == Visible(s)
    decreases |s|
  {
    if s != [] {
      if IsBlank(s[0]) {
        var j := BlankRunEnd(s, 0);
        var t := s[j..];
        CollapseBlanksVisible(t);
        assert forall k :: 0 <= k < j ==> s[..j][k] == s[k];
        VisibleOfSpace(s[..j]);
        VisibleOfSpace(" ");
        GlueVisible(" ", CollapseBlanks(t), s, j);
      } else {
        CollapseBlanksVisible(s[1..]);
        assert s[..1] == [s[0]];
        GlueVisible([s[0]], CollapseBlanks(s[1..]), s, 1);
      }
    }
  }

  // ---------------------------------------------------------------------
  // Step 3: `re.sub(r'\n\s*\n', '\n\n', text)`

  /** The last line break of `s` in the index range `lo .. hi`. */
  function LastBreak(s: string, lo: nat, hi: nat): (r: Option<nat>)
    requires lo <= hi <= |s|
    ensures r.None? ==> forall k :: lo <= k < hi ==> s[k] != '\n'
    ensures r.Some? ==> lo <= r.value < hi && s[r.value] == '\n'
    ensures r.Some? ==> forall k :: r.value < k < hi ==> s[k] != '\n'
    decreases hi - lo
  {
    if lo == hi then None
    else if s[hi - 1] == '\n' then Some(hi - 1)
    else LastBreak(s, lo, hi - 1)
  }

  /** One step of the scan at the head of `s`: the text `p.0` that takes
      the place of `s[..p.1]`. At a line break the pattern takes the
      whitespace after it up to the last line break of that run (greedy
      `\s*`, then backing off to a `\n`) and gives two line breaks; where
      the run holds no second line break the line break is kept as it is;
      any other character is kept. */
  function LineStep(s: string): (p: (string, nat))
    requires s != []
    ensures 1 <= p.1 <= |s| && 1 <= |p.0| <= 2
    ensures forall i :: 0 <= i < |p.0| ==> p.0[i] == s[0]
    ensures s[0] != '\n' ==> p.0 == [s[0]] && p.1 == 1
    ensures s[0] == '\n' ==>
              (|p.0| == 2 <==> exists k :: 1 <= k < SkipSpace(s, 1) && s[k] == '\n')
    ensures |p.0| == 1 ==> p.1 == 1
    ensures |p.0| == 2 ==> p.1 <= SkipSpace(s, 1) && s[p.1 - 1] == '\n'
                           && forall k :: p.1 <= k < SkipSpace(s, 1) ==> s[k] != '\n'
  {
    if s[0] != '\n' then ([s[0]], 1)
    else match LastBreak(s, 1, SkipSpace(s, 1))
      case None => ("\n", 1)
      case Some(k) => ("\n\n", k + 1)
  }

  /** `re.sub(r'\n\s*\n', '\n\n', text)`: the scan resumes after each
      step. */
  function CollapseBlankLines(s: string): (r: string)
    ensures CharsFrom(r, s)
    ensures s != [] ==> r != [] && r[0] == s[0]
    decreases |s|
  {
    if s == [] then []
    else
      var p := LineStep(s);
      var rest := CollapseBlankLines(s[p.1..]);
      assert forall c :: c in s[p.1..] ==> c in s;
      p.0 + rest
  }

  /** A step keeps the visible characters of the text it replaces. */
  lemma LineStepVisible(s: string)
    requires s != []
    ensures Visible(LineStep(s).0) == Visible(s[..LineStep(s).1])
  {
    var p := LineStep(s);
    if s[0] != '\n' {
      assert s[..1] == [s[0]];
    } else if p.1 == 1 {
      assert s[..1] == "\n";
    } else {
      var k :| LastBreak(s, 1, SkipSpace(s, 1)) == Some(k);
      assert forall i :: 0 <= i < k + 1 ==> s[..k + 1][i] == s[i];
      VisibleOfSpace(s[..k + 1]);
      VisibleOfSpace("\n\n");
    }
  }

  /** Replacing the first `j` characters of `s` by `head`, and the rest by
      `rest`, keeps the visible characters when each part keeps them. */
  lemma GlueVisible(head: string, rest: string, s: string, j: nat)
    requires j <= |s|
    requires Visible(head) == Visible(s[..j]) && Visible(rest) == Visible(s[j..])
    ensures Visible(head + rest) == Visible(s)
  {
    assert s == s[..j] + s[j..];
    VisibleConcat(s[..j], s[j..]);
    VisibleConcat(head, rest);
  }

  /** The substitution only drops whitespace. */
  lemma {:induction false} CollapseBlankLinesVisible(s: string)
    ensures Visible(CollapseBlankLines(s)) == Visible(s)
    decreases |s|
  {
    if s != [] {
      var p := LineStep(s);
      CollapseBlankLinesVisible(s[p.1..]);
      LineStepVisible(s);
      GlueVisible(p.0, CollapseBlankLines(s[p.1..]), s, p.1);
    }
  }

  /** A text without blank runs is left as it is: at each line break the
      match, if any, is the line break that follows it at once. */
  lemma {:induction false} CollapseBlankLinesKeeps(s: string)
    requires NoBlankRun(s)
    ensures CollapseBlankLines(s) == s
    decreases |s|
  {
    if s != [] {
      var n := LineStep(s).1;
      CollapseBlankLinesUnfold(s);
      LineStepKeeps(s);
      SuffixNoBlankRun(s, n);
      CollapseBlankLinesKeeps(s[n..]);
      SplitAt(s, n);
    }
  }

  lemma SuffixNoBlankRun(s: string, n: nat)
    requires n <= |s| && NoBlankRun(s)
    ensures NoBlankRun(s[n..])
  {
    SliceNoBlankRun(s, n, |s|);
    assert s[n..|s|] == s[n..];
  }

  lemma SplitAt(s: string, n: nat)
    requires n <= |s|
    ensures s[..n] + s[n..] == s
  {
  }

  lemma CollapseBlankLinesUnfold(s: string)
    requires s != []
    ensures CollapseBlankLines(s) == LineStep(s).0 + CollapseBlankLines(s[LineStep(s).1..])
  {
  }

  /** Without blank runs, a step yields what it consumes: at a line break
      the match, if any, is the line break right after it. */
  lemma LineStepKeeps(s: string)
    requires s != [] && NoBlankRun(s)
    ensures LineStep(s).0 == s[..LineStep(s).1]
  {
    var p := LineStep(s);
    if |p.0| == 2 {
      assert IsBreakAt(s, 0) && IsBreakAt(s, p.1 - 1);
      assert p.1 == 2;
      assert s[..2] == [s[0], s[1]];
    } else {
      assert s[..1] == [s[0]];
    }
  }

  // A slice keeps the properties that speak of characters and of
  // neighbours.

  lemma SliceNoControl(s: string, a: nat, b: nat)
    requires a <= b <= |s| && NoControl(s)
    ensures NoControl(s[a..b])
  {
    assert forall i :: 0 <= i < b - a ==> s[a..b][i] == s[a + i];
  }

  lemma SliceNoTab(s: string, a: nat, b: nat)
    requires a <= b <= |s| && NoTab(s)
    ensures NoTab(s[a..b])
  {
    assert forall i :: 0 <= i < b - a ==> s[a..b][i] == s[a + i];
  }

  lemma SliceNoDoubleSpace(s: string, a: nat, b: nat)
    requires a <= b <= |s| && NoDoubleSpace(s)
    ensures NoDoubleSpace(s[a..b])
  {
    var t := s[a..b];
    forall i
      ensures !DoubleSpaceAt(t, i)
    {
      if 0 <= i < |t| - 1 {
        assert t[i] == s[a + i] && t[i + 1] == s[a + i + 1];
        assert !DoubleSpaceAt(s, a + i);
      }
    }
  }

  lemma SliceNoBlankRun(s: string, a: nat, b: nat)
    requires a <= b <= |s| && NoBlankRun(s)
    ensures NoBlankRun(s[a..b])
  {
    var t := s[a..b];
    forall i, j | IsBreakAt(t, i) && IsBreakAt(t, j) && i + 1 < j
      ensures exists k :: i < k < j && !IsSpace(t[k])
    {
      assert t[i] == s[a + i] && t[j] == s[a + j];
      assert IsBreakAt(s, a + i) && IsBreakAt(s, a + j);
      var k :| a + i < k < a + j && !IsSpace(s[k]);
      assert t[k - a] == s[k];
    }
  }

  /** The substitution never puts two spaces next to each other. */
  lemma {:induction false} CollapseBlankLinesNoDoubleSpace(s: string)
    requires NoDoubleSpace(s)
    ensures NoDoubleSpace(CollapseBlankLines(s))
    decreases |s|
  {
    if s != [] {
      var p := LineStep(s);
      var t := s[p.1..];
      SliceNoDoubleSpace(s, p.1, |s|);
      assert s[p.1..|s|] == t;
      CollapseBlankLinesNoDoubleSpace(t);
      assert NoDoubleSpace(p.0) by {
        forall i
          ensures !DoubleSpaceAt(p.0, i)
        {
          if 0 <= i < |p.0| - 1 {
            assert p.0[i] == s[0] == '\n';
          }
        }
      }
      if p.0[|p.0| - 1] == ' ' && t != [] {
        assert s[0] == ' ' && t[0] == s[1];
        assert !DoubleSpaceAt(s, 0);
      }
      ConcatNoDoubleSpace(p.0, CollapseBlankLines(t));
    }
  }

  /** The substitution leaves a string whose leading whitespace holds no
      line break as it is up to its first visible character, so the
      property survives. */
  lemma {:induction false} CollapseBlankLinesNoLeadingBreak(s: string)
    requires NoLeadingBreak(s)
    ensures NoLeadingBreak(CollapseBlankLines(s))
    decreases |s|
  {
    var r := CollapseBlankLines(s);
    if s != [] {
      assert !IsBreakAt(s, 0);
      if IsSpace(s[0]) {
        var rest := CollapseBlankLines(s[1..]);
        forall j | IsBreakAt(s[1..], j)
          ensures exists k :: 0 <= k < j && !IsSpace(s[1..][k])
        {
          assert IsBreakAt(s, j + 1);
          var k :| 0 <= k < j + 1 && !IsSpace(s[k]);
          assert s[1..][k - 1] == s[k];
        }
        CollapseBlankLinesNoLeadingBreak(s[1..]);
        assert r == [s[0]] + rest;
        forall j | IsBreakAt(r, j)
          ensures exists k :: 0 <= k < j && !IsSpace(r[k])
        {
          assert IsBreakAt(rest, j - 1);
          var k :| 0 <= k < j - 1 && !IsSpace(rest[k]);
          assert r[k + 1] == rest[k];
        }
      } else {
        forall j | IsBreakAt(r, j)
          ensures exists k :: 0 <= k < j && !IsSpace(r[k])
        {
          assert !IsSpace(r[0]);
        }
      }
    }
  }

  /** What follows a whitespace run without line breaks, read from any
      point inside the run, has no line break in its leading whitespace. */
  lemma RunWithoutBreak(s: string, lo: nat, hi: nat)
    requires 1 <= lo <= hi <= |s|
    requires hi == |s| || !IsSpace(s[hi])
    requires forall i :: lo <= i < hi ==> s[i] != '\n'
    ensures NoLeadingBreak(s[lo..])
  {
    var t := s[lo..];
    forall m | IsBreakAt(t, m)
      ensures exists k :: 0 <= k < m && !IsSpace(t[k])
    {
      assert s[lo + m] == '\n';
      assert t[hi - lo] == s[hi];
    }
  }

  /** Gluing a line break, two line breaks or one other character in front
      of a string without blank runs keeps it without blank runs, as long
      as a glued line break does not meet a line break in the string's
      leading whitespace. */
  lemma PrependNoBlankRun(head: string, rest: string)
    requires 1 <= |head| <= 2
    requires |head| == 2 ==> head[0] == '\n' && head[1] == '\n'
    requires NoBlankRun(rest)
    requires head[0] == '\n' ==> NoLeadingBreak(rest)
    ensures NoBlankRun(head + rest)
  {
    var r := head + rest;
    var h := |head|;
    forall i, j | IsBreakAt(r, i) && IsBreakAt(r, j) && i + 1 < j
      ensures exists k :: i < k < j && !IsSpace(r[k])
    {
      assert h <= j;
      assert IsBreakAt(rest, j - h);
      if i >= h {
        assert IsBreakAt(rest, i - h);
        var k :| i - h < k < j - h && !IsSpace(rest[k]);
        assert r[k + h] == rest[k];
      } else {
        assert head[0] == '\n';
        var k :| 0 <= k < j - h && !IsSpace(rest[k]);
        assert r[k + h] == rest[k];
      }
    }
  }

  /** After the third substitution no two line breaks that are not
      adjacent have only whitespace between them. */
  lemma {:induction false} CollapseBlankLinesNoBlankRun(s: string)
    ensures NoBlankRun(CollapseBlankLines(s))
    decreases |s|
  {
    if s != [] {
      var p := LineStep(s);
      var t := s[p.1..];
      CollapseBlankLinesNoBlankRun(t);
      if s[0] == '\n' {
        LineStepLeading(s);
        CollapseBlankLinesNoLeadingBreak(t);
      }
      assert |p.0| == 2 ==> p.0[0] == '\n' && p.0[1] == '\n';
      PrependNoBlankRun(p.0, CollapseBlankLines(t));
    }
  }

  /** After a step at a line break, the whitespace that starts the rest of
      the text holds no line break. */
  lemma LineStepLeading(s: string)
    requires s != [] && s[0] == '\n'
    ensures NoLeadingBreak(s[LineStep(s).1..])
  {
    match LastBreak(s, 1, SkipSpace(s, 1))
    case None =>
      RunWithoutBreak(s, 1, SkipSpace(s, 1));
    case Some(k) =>
      RunWithoutBreak(s, k + 1, SkipSpace(s, 1));
  }

  // ---------------------------------------------------------------------
  // The whole of `clean_text`

  /** A text `clean_text` leaves as it is: no control character, no tab,
      no two spaces in a row, no blank run and no whitespace at either
      end. */
  ghost predicate IsClean(s: string) {
    && NoControl(s) && NoTab(s) && NoDoubleSpace(s) && NoBlankRun(s)
    && (s == [] || (!IsSpace(s[0]) && !IsSpace(s[|s| - 1])))
  }

  /** `clean_text(text)`: no whitespace at either end, nothing at all for
      an empty text, and a text that is already clean comes back as it
      is. */
  function CleanText(text: string): (r: string)
    ensures text == [] ==> r == []
    ensures r == [] || (!IsSpace(r[0]) && !IsSpace(r[|r| - 1]))
    ensures IsClean(text) ==> r == text
  {
    if text == [] then []
    else
      var s := CollapseBlankLines(CollapseBlanks(RemoveControl(text)));
      StripTrimmed(s);
      StepsKeepClean(text);
      Strip(s)
  }

  /** Each step leaves a clean text as it is. */
  lemma StepsKeepClean(text: string)
    ensures IsClean(text) ==> Strip(CollapseBlankLines(CollapseBlanks(RemoveControl(text)))) == text
  {
    if IsClean(text) {
      CollapseBlanksKeeps(text);
      CollapseBlankLinesKeeps(text);
      StripNoop(text);
    }
  }

  /** The trimming promise of `strip()`, stated for one named string so
      that `CleanText` is proved from it alone. */
  lemma StripTrimmed(s: string)
    ensures var r := Strip(s); r == [] || (!IsSpace(r[0]) && !IsSpace(r[|r| - 1]))
  {
  }

  /** Cutting whitespace off both ends keeps the visible characters. */
  lemma TrimVisible(s: string, a: nat, b: nat)
    requires a <= b <= |s| && AllSpace(s[..a]) && AllSpace(s[b..])
    ensures Visible(s[a..b]) == Visible(s)
  {
    var x, r, y := s[..a], s[a..b], s[b..];
    assert s == x + r + y;
    VisibleConcat(x + r, y);
    VisibleConcat(x, r);
    VisibleOfSpace(x);
    VisibleOfSpace(y);
  }

  /** `strip()` drops only whitespace from the ends. */
  lemma StripVisible(s: string)
    ensures Visible(Strip(s)) == Visible(s)
  {
    var a := StripCut(s);
    TrimVisible(s, a, a + |Strip(s)|);
  }

  /** `strip()` returns a slice, which keeps the properties of the text. */
  lemma StripShape(s: string)
    requires NoControl(s) && NoTab(s) && NoDoubleSpace(s) && NoBlankRun(s)
    ensures var r := Strip(s);
            NoControl(r) && NoTab(r) && NoDoubleSpace(r) && NoBlankRun(r)
  {
    var a := StripCut(s);
    var b := a + |Strip(s)|;
    SliceNoControl(s, a, b);
    SliceNoTab(s, a, b);
    SliceNoDoubleSpace(s, a, b);
    SliceNoBlankRun(s, a, b);
  }

  /** The first two substitutions leave no control character and no tab. */
  lemma CollapseBlanksNoControl(s: string)
    requires NoControl(s)
    ensures NoControl(CollapseBlanks(s))
  {
    var r := CollapseBlanks(s);
    forall i | 0 <= i < |r|
      ensures !IsControl(r[i])
    {
      if r[i] != ' ' {
        var m :| 0 <= m < |s| && s[m] == r[i];
      }
    }
  }

  /** The cleaned text holds no control character and no tab, never two
      spaces in a row, and no blank line that holds whitespace or follows
      another blank line. */
  lemma CleanTextIsClean(text: string)
    ensures var r := CleanText(text);
            NoControl(r) && NoTab(r) && NoDoubleSpace(r) && NoBlankRun(r)
  {
    if text != [] {
      var s2 := CollapseBlanks(RemoveControl(text));
      var s3 := CollapseBlankLines(s2);
      CollapseBlanksNoControl(RemoveControl(text));
      forall i | 0 <= i < |s3|
        ensures !IsControl(s3[i]) && s3[i] != '\t'
      {
        var m :| 0 <= m < |s2| && s2[m] == s3[i];
      }
      CollapseBlankLinesNoDoubleSpace(s2);
      CollapseBlankLinesNoBlankRun(s2);
      StripShape(s3);
    }
  }

  /** Cleaning drops only whitespace and control characters: the visible
      characters of the text survive, all of them and in their order. */
  lemma CleanTextKeepsVisible(text: string)
    ensures Visible(CleanText(text)) == Visible(text)
  {
    if text != [] {
      var s2 := CollapseBlanks(RemoveControl(text));
      CollapseBlanksVisible(RemoveControl(text));
      CollapseBlankLinesVisible(s2);
      StripVisible(CollapseBlankLines(s2));
    }
  }

  /** Cleaning twice gives what cleaning once gives. */
  lemma CleanTextIdempotent(text: string)
    ensures CleanText(CleanText(text)) == CleanText(text)
  {
    CleanTextIsClean(text);
  }
}
