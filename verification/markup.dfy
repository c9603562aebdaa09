/** Markup cleaning: `clean_html` in main.py. Three passes over a string:
    delete every tag span `<`, one or more non-`>` characters, `>` in one
    left-to-right scan; replace every run of whitespace by one space; strip
    whitespace from both ends. */
module Markup {

  /** Python's `str.isspace`; it is also the class `\s` matches in a `str`
      pattern, and what `str.strip()` removes. */
  predicate IsSpace(c: char) {
    || ('\t' <= c <= '\r')
    || ('\U{1C}' <= c <= '\U{1F}')
    || c == ' '
    || c == '\U{85}'
    || c == '\U{A0}'
    || c == '\U{1680}'
    || ('\U{2000}' <= c <= '\U{200A}')
    || c == '\U{2028}'
    || c == '\U{2029}'
    || c == '\U{202F}'
    || c == '\U{205F}'
    || c == '\U{3000}'
  }

  // ---------------------------------------------------------------------
  // Tag removal: re.sub(r'<[^>]+>', '', text)
  // ---------------------------------------------------------------------

  /** A match of `<[^>]+>` starts at index `i` of `s`: a `<`, then a
      character other than `>`, and some `>` further on (the first such
      `>` closes the span). */
  predicate TagAt(s: string, i: int) {
    0 <= i && i + 1 < |s| && s[i] == '<' && s[i + 1] != '>' && '>' in s[i + 2..]
  }

  /** No tag span starts anywhere in `s`. */
  predicate NoTags(s: string) {
    forall i :: 0 <= i < |s| ==> !TagAt(s, i)
  }

  /** Index of the first `>` at or after `i`, or `|s|` when there is none. */
  function NextClose(s: string, i: nat): (j: nat)
    requires i <= |s|
    ensures i <= j <= |s|
    ensures j < |s| ==> s[j] == '>'
    ensures forall k :: i <= k < j ==> s[k] != '>'
    decreases |s| - i
  {
    if i == |s| || s[i] == '>' then i else NextClose(s, i + 1)
  }

  /** Length of the tag span at the head of `s`; 0 when no span starts there. */
  function TagSpan(s: string): (n: nat)
    ensures n == 0 <==> !TagAt(s, 0)
    ensures n > 0 ==> 3 <= n <= |s| && s[n - 1] == '>' && forall k :: 1 <= k < n - 1 ==> s[k] != '>'
  {
    if |s| > 0 && s[0] == '<' then
      var j := NextClose(s, 1);
      assert |s| >= 2 && s[1] != '>' && '>' in s[2..] ==> 2 <= j < |s| by {
        if |s| >= 2 && '>' in s[2..] {
          var m :| 0 <= m < |s[2..]| && s[2..][m] == '>';
          assert s[m + 2] == '>';
        }
      }
      assert 2 <= j < |s| ==> s[2..][j - 2] == '>';
      if 2 <= j < |s| then j + 1 else 0
    else
      0
  }

  /** The tag span at the head of `s` ends at the first `>` after the `<`. */
  lemma TagSpanAt(s: string, n: nat)
    requires 3 <= n <= |s| && s[0] == '<' && s[n - 1] == '>'
    requires forall k :: 1 <= k < n - 1 ==> s[k] != '>'
    ensures TagSpan(s) == n
  {
    assert TagAt(s, 0) by { assert s[2..][n - 3] == '>'; }
  }

  /** The tag-removal pass. Scanning from the left, a tag span at the
      current position is deleted whole; otherwise one character is kept. */
  function StripTags(s: string): (r: string)
    ensures |r| <= |s|
    ensures forall c :: c in r ==> c in s
    decreases |s|
  {
    if s == [] then []
    else
      var n := TagSpan(s);
      if n > 0 then
        var r := StripTags(s[n..]);
        assert forall c :: c in s[n..] ==> c in s;
        r
      else
        var r := [s[0]] + StripTags(s[1..]);
        assert forall c :: c in s[1..] ==> c in s;
        r
  }

  /** A tag inside a piece of a string is a tag of the whole string. */
  lemma TagInSlice(s: string, a: nat, b: nat, i: int)
    requires a <= b <= |s|
    ensures TagAt(s[a..b], i) ==> TagAt(s, a + i)
  {
    var t := s[a..b];
    if TagAt(t, i) {
      var m :| 0 <= m < |t[i + 2..]| && t[i + 2..][m] == '>';
      assert s[a + i + 2..][m] == '>';
    }
  }

  /** Any contiguous piece of a tag-free string is tag-free. */
  lemma NoTagsSlice(s: string, a: nat, b: nat)
    requires NoTags(s) && a <= b <= |s|
    ensures NoTags(s[a..b])
  {
    forall i | 0 <= i < |s[a..b]|
      ensures !TagAt(s[a..b], i)
    {
      TagInSlice(s, a, b, i);
    }
  }

  /** Any suffix of a tag-free string is tag-free. */
  lemma NoTagsSuffix(s: string, k: nat)
    requires NoTags(s) && k <= |s|
    ensures NoTags(s[k..])
  {
    NoTagsSlice(s, k, |s|);
    assert s[k..|s|] == s[k..];
  }

  /** A tag of `[c] + t` past its head is a tag of `t`. */
  lemma TagPastHead(c: char, t: string, i: int)
    ensures 1 <= i && TagAt([c] + t, i) ==> TagAt(t, i - 1)
  {
    var s := [c] + t;
    if 1 <= i && TagAt(s, i) {
      assert s[i + 2..] == t[i + 1..];
    }
  }

  /** Tag-freedom of `[c] + t` splits into its head and its tail. */
  lemma NoTagsCons(c: char, t: string)
    ensures NoTags([c] + t) <==> !TagAt([c] + t, 0) && NoTags(t)
  {
    var s := [c] + t;
    assert s[1..] == t;
    if !TagAt(s, 0) && NoTags(t) {
      forall i | 0 <= i < |s|
        ensures !TagAt(s, i)
      {
        TagPastHead(c, t, i);
      }
    }
    if NoTags(s) {
      NoTagsSuffix(s, 1);
    }
  }

  /** After the tag-removal pass no tag span is left: a kept `<` is either
      directly followed by `>` or has no `>` after it. */
  lemma {:induction false} StripTagsLeavesNoTag(s: string)
    ensures NoTags(StripTags(s))
    decreases |s|
  {
    if s == [] {
    } else if TagSpan(s) > 0 {
      StripTagsLeavesNoTag(s[TagSpan(s)..]);
    } else {
      var t := StripTags(s[1..]);
      StripTagsLeavesNoTag(s[1..]);
      NoTagsCons(s[0], t);
    }
  }

  /** The tag-removal pass leaves a tag-free string unchanged. */
  lemma {:induction false} StripTagsKeepsTagFree(s: string)
    requires NoTags(s)
    ensures StripTags(s) == s
    decreases |s|
  {
    if s != [] {
      assert !TagAt(s, 0);
      NoTagsSuffix(s, 1);
      StripTagsKeepsTagFree(s[1..]);
    }
  }

  /** Running the tag-removal pass twice is the same as running it once. */
  lemma StripTagsIdempotent(s: string)
    ensures StripTags(StripTags(s)) == StripTags(s)
  {
    StripTagsLeavesNoTag(s);
    StripTagsKeepsTagFree(StripTags(s));
  }

  /** Text without `<` is passed through the tag-removal pass unchanged,
      and so is any prefix of the input that holds no `<`. */
  lemma {:induction false} StripTagsPlainPrefix(p: string, q: string)
    requires '<' !in p
    ensures StripTags(p + q) == p + StripTags(q)
  {
    if p == [] {
      assert p + q == q;
    } else {
      assert (p + q)[1..] == p[1..] + q;
      assert TagSpan(p + q) == 0;
      StripTagsPlainPrefix(p[1..], q);
    }
  }

  /** One step of the tag-removal scan at a tag span. */
  lemma StripTagsAtSpan(t: string)
    requires TagSpan(t) > 0
    ensures StripTags(t) == StripTags(t[TagSpan(t)..])
  {
  }

  /** One step of the tag-removal scan at a character that starts no tag span. */
  lemma StripTagsAtChar(t: string)
    requires t != [] && !TagAt(t, 0)
    ensures StripTags(t) == [t[0]] + StripTags(t[1..])
  {
  }

  /** A tag span, `<`, one or more non-`>` characters, `>`, is deleted
      whole: what precedes it without a `<` is kept and the scan resumes
      right after its `>`. */
  lemma StripTagsDropsTag(p: string, m: string, q: string)
    requires '<' !in p && m != [] && '>' !in m
    ensures StripTags(p + ['<'] + m + ['>'] + q) == p + StripTags(q)
  {
    var t := ['<'] + m + ['>'] + q;
    assert p + ['<'] + m + ['>'] + q == p + t;
    StripTagsPlainPrefix(p, t);
    TagSpanOfTag(m, q);
    StripTagsAtSpan(t);
  }

  /** The span of `<`, `m`, `>` at the head of a string covers exactly
      those characters when `m` is a non-empty run without `>`. */
  lemma TagSpanOfTag(m: string, q: string)
    requires m != [] && '>' !in m
    ensures var t := ['<'] + m + ['>'] + q;
            TagSpan(t) == |m| + 2 && t[|m| + 2..] == q
  {
    var t := ['<'] + m + ['>'] + q;
    assert forall k :: 1 <= k < |m| + 1 ==> t[k] == m[k - 1];
    TagSpanAt(t, |m| + 2);
    assert t[|m| + 2..] == q;
  }

  /** Text on both sides of an inline tag survives, joined. */
  lemma StripTagsInlineTag()
    ensures StripTags("x<b>y") == "xy"
  {
    assert "x<b>y" == "x" + ['<'] + "b" + ['>'] + "y";
    StripTagsDropsTag("x", "b", "y");
    assert NoTags("y");
    StripTagsKeepsTagFree("y");
  }

  /** A `<` that starts no tag span, because it ends the text, is followed
      directly by `>`, or has no `>` after its next character, is kept, and
      the scan resumes right after it. */
  lemma StripTagsKeepsLoneBracket(p: string, q: string)
    requires '<' !in p
    requires q == [] || q[0] == '>' || '>' !in q[1..]
    ensures StripTags(p + ['<'] + q) == p + ['<'] + StripTags(q)
  {
    var t := ['<'] + q;
    calc {
      StripTags(p + ['<'] + q);
    == { assert p + ['<'] + q == p + t; }
      StripTags(p + t);
    == { StripTagsPlainPrefix(p, t); }
      p + StripTags(t);
    == { StripTagsLoneBracket(q); }
      p + (['<'] + StripTags(q));
    }
  }

  /** A `<` at the head that ends the text, is followed by `>`, or has no
      `>` after its next character is kept by the scan. */
  lemma StripTagsLoneBracket(q: string)
    requires q == [] || q[0] == '>' || '>' !in q[1..]
    ensures StripTags(['<'] + q) == ['<'] + StripTags(q)
  {
    var t := ['<'] + q;
    assert |t| >= 2 ==> t[2..] == q[1..];
    assert t[1..] == q;
    StripTagsAtChar(t);
  }

  // ---------------------------------------------------------------------
  // Whitespace collapsing: re.sub(r'\s+', ' ', text)
  // ---------------------------------------------------------------------

  /** Every whitespace character of `s` is a plain space and no two
      whitespace characters are adjacent. */
  predicate SingleSpaced(s: string) {
    && (forall i :: 0 <= i < |s| && IsSpace(s[i]) ==> s[i] == ' ')
    && (forall i :: 0 < i < |s| && IsSpace(s[i]) ==> !IsSpace(s[i - 1]))
  }

  /** The non-whitespace characters of `s`, in order. */
  function Visible(s: string): (v: string)
    ensures forall c :: c in v ==> !IsSpace(c)
  {
    if s == [] then []
    else if IsSpace(s[0]) then Visible(s[1..])
    else [s[0]] + Visible(s[1..])
  }

  /** Length of the leading run of whitespace of `s`. */
  function LeadingSpaces(s: string): (n: nat)
    ensures n <= |s|
    ensures forall k :: 0 <= k < n ==> IsSpace(s[k])
    ensures n < |s| ==> !IsSpace(s[n])
  {
    if s != [] && IsSpace(s[0]) then 1 + LeadingSpaces(s[1..]) else 0
  }

  /** A leading run of whitespace contributes nothing visible. */
  lemma {:induction false} VisibleSkipsSpaces(s: string, n: nat)
    requires n <= |s| && forall k :: 0 <= k < n ==> IsSpace(s[k])
    ensures Visible(s[n..]) == Visible(s)
  {
    if n > 0 {
      assert s[1..][n - 1..] == s[n..];
      VisibleSkipsSpaces(s[1..], n - 1);
    }
  }

  /** The whitespace pass: each maximal run of whitespace becomes one space. */
  function CollapseSpaces(s: string): (r: string)
    ensures SingleSpaced(r)
    ensures r == [] <==> s == []
    ensures r != [] ==> r[0] == (if IsSpace(s[0]) then ' ' else s[0])
    ensures forall c :: c in r ==> c in s || c == ' '
    decreases |s|
  {
    if s == [] then []
    else if IsSpace(s[0]) then
      var t := s[LeadingSpaces(s)..];
      var r := [' '] + CollapseSpaces(t);
      assert r[1..] == CollapseSpaces(t);
      assert forall c :: c in t ==> c in s;
      r
    else
      var r := [s[0]] + CollapseSpaces(s[1..]);
      assert r[1..] == CollapseSpaces(s[1..]);
      assert forall c :: c in s[1..] ==> c in s;
      r
  }

  /** Collapsing keeps the visible characters and their order. */
  lemma {:induction false} CollapseKeepsVisible(s: string)
    ensures Visible(CollapseSpaces(s)) == Visible(s)
    decreases |s|
  {
    if s != [] {
      var r := CollapseSpaces(s);
      if IsSpace(s[0]) {
        var t := s[LeadingSpaces(s)..];
        VisibleSkipsSpaces(s, LeadingSpaces(s));
        CollapseKeepsVisible(t);
        assert r == [' '] + CollapseSpaces(t);
        assert r[1..] == CollapseSpaces(t);
      } else {
        CollapseKeepsVisible(s[1..]);
        assert r[1..] == CollapseSpaces(s[1..]);
      }
    }
  }

  /** A string that is already single-spaced is left as it is. */
  lemma {:induction false} CollapseKeepsSingleSpaced(s: string)
    requires SingleSpaced(s)
    ensures CollapseSpaces(s) == s
    decreases |s|
  {
    if s != [] {
      assert SingleSpaced(s[1..]);
      if IsSpace(s[0]) {
        assert LeadingSpaces(s) == 1;
      }
      CollapseKeepsSingleSpaced(s[1..]);
    }
  }

  /** Text without whitespace is passed through the whitespace pass unchanged. */
  lemma {:induction false} CollapsePlainPrefix(p: string, q: string)
    requires forall k :: 0 <= k < |p| ==> !IsSpace(p[k])
    ensures CollapseSpaces(p + q) == p + CollapseSpaces(q)
  {
    if p == [] {
      assert p + q == q;
    } else {
      var s := p + q;
      assert s[0] == p[0] && !IsSpace(s[0]);
      assert s[1..] == p[1..] + q;
      assert CollapseSpaces(s) == [p[0]] + CollapseSpaces(s[1..]);
      CollapsePlainPrefix(p[1..], q);
      assert p == [p[0]] + p[1..];
    }
  }

  /** The leading whitespace run of `p + q` is exactly `p` when `p` is all
      whitespace and `q` does not start with whitespace. */
  lemma LeadingSpacesOf(p: string, q: string)
    requires forall k :: 0 <= k < |p| ==> IsSpace(p[k])
    requires q == [] || !IsSpace(q[0])
    ensures LeadingSpaces(p + q) == |p|
  {
    var n := LeadingSpaces(p + q);
    assert forall k :: 0 <= k < |p| ==> (p + q)[k] == p[k];
    assert q != [] ==> (p + q)[|p|] == q[0];
    if n != |p| {
      assert false;
    }
  }

  /** A whitespace run followed by visible text becomes a single space. */
  lemma CollapseSpaceRun(p: string, q: string)
    requires p != [] && forall k :: 0 <= k < |p| ==> IsSpace(p[k])
    requires q == [] || !IsSpace(q[0])
    ensures CollapseSpaces(p + q) == [' '] + CollapseSpaces(q)
  {
    LeadingSpacesOf(p, q);
    assert (p + q)[0] == p[0];
    assert (p + q)[|p|..] == q;
  }

  /** Collapsing cannot create a tag span: it keeps every `<` and `>` and
      only puts spaces in place of whitespace. */
  lemma {:induction false} CollapseKeepsNoTags(s: string)
    requires NoTags(s)
    ensures NoTags(CollapseSpaces(s))
    decreases |s|
  {
    if s != [] {
      var r := CollapseSpaces(s);
      if IsSpace(s[0]) {
        var t := s[LeadingSpaces(s)..];
        NoTagsSuffix(s, LeadingSpaces(s));
        CollapseKeepsNoTags(t);
        NoTagsCons(' ', CollapseSpaces(t));
      } else {
        NoTagsSuffix(s, 1);
        CollapseKeepsNoTags(s[1..]);
        var t := CollapseSpaces(s[1..]);
        NoTagsCons(s[0], t);
        CollapseHeadNotTag(s, t);
      }
    }
  }

  /** A visible head character that starts no tag span still starts none
      once the rest of the string has been collapsed. */
  lemma CollapseHeadNotTag(s: string, t: string)
    requires s != [] && !IsSpace(s[0]) && !TagAt(s, 0)
    requires t == CollapseSpaces(s[1..])
    ensures !TagAt([s[0]] + t, 0)
  {
    var r := [s[0]] + t;
    if s[0] == '<' && |s| >= 2 && s[1] != '>' {
      assert '>' !in s[2..];
      assert '>' !in s[1..] by {
        assert s[1..] == [s[1]] + s[2..];
      }
      assert '>' !in t;
      assert r[2..] == t[1..];
      assert forall c :: c in t[1..] ==> c in t;
    }
  }

  // ---------------------------------------------------------------------
  // Trimming: str.strip()
  // ---------------------------------------------------------------------

  /** End of the content of `s`: everything from here on is whitespace. */
  function ContentEnd(s: string): (n: nat)
    ensures n <= |s|
    ensures forall k :: n <= k < |s| ==> IsSpace(s[k])
    ensures n > 0 ==> !IsSpace(s[n - 1])
  {
    if s != [] && IsSpace(s[|s| - 1]) then ContentEnd(s[..|s| - 1]) else |s|
  }

  /** `s[a..b]` is what is left of `s` once both whitespace margins are removed. */
  predicate Margins(s: string, a: int, b: int) {
    && 0 <= a <= b <= |s|
    && (forall k :: 0 <= k < a ==> IsSpace(s[k]))
    && (forall k :: b <= k < |s| ==> IsSpace(s[k]))
    && (a < b ==> !IsSpace(s[a]) && !IsSpace(s[b - 1]))
  }

  /** `str.strip()`: whitespace removed from both ends. */
  function Trim(s: string): (t: string)
    ensures exists a, b :: Margins(s, a, b) && t == s[a..b]
    ensures t == [] || (!IsSpace(t[0]) && !IsSpace(t[|t| - 1]))
  {
    var a := LeadingSpaces(s);
    if a == |s| then
      assert Margins(s, a, a);
      []
    else
      var b := ContentEnd(s);
      assert Margins(s, a, b);
      s[a..b]
  }

  /** Trimming a string without whitespace margins changes nothing. */
  lemma TrimKeepsTrimmed(s: string)
    requires s == [] || (!IsSpace(s[0]) && !IsSpace(s[|s| - 1]))
    ensures Trim(s) == s
  {
    if s != [] {
      assert LeadingSpaces(s) == 0;
    }
  }

  // ---------------------------------------------------------------------
  // clean_html
  // ---------------------------------------------------------------------

  /** `s` is in the shape `clean_html` produces: single-spaced, with no
      whitespace at either end and no tag span. */
  predicate Cleaned(s: string) {
    && SingleSpaced(s)
    && (s == [] || (!IsSpace(s[0]) && !IsSpace(s[|s| - 1])))
    && NoTags(s)
  }

  /** `clean_html`: strip tag spans, collapse whitespace runs, trim. */
  function CleanHtml(text: string): (r: string)
    ensures Cleaned(r)
    ensures Visible(r) == Visible(StripTags(text))
  {
    var r := Trim(CollapseSpaces(StripTags(text)));
    CleanHtmlShape(text, r);
    r
  }

  /** The three passes together produce a cleaned string with the visible
      characters the tag-removal pass left. */
  lemma CleanHtmlShape(text: string, r: string)
    requires r == Trim(CollapseSpaces(StripTags(text)))
    ensures Cleaned(r)
    ensures Visible(r) == Visible(StripTags(text))
  {
    var stripped := StripTags(text);
    var collapsed := CollapseSpaces(stripped);
    StripTagsLeavesNoTag(text);
    CollapseKeepsNoTags(stripped);
    CollapseKeepsVisible(stripped);
    var a, b :| Margins(collapsed, a, b) && r == collapsed[a..b];
    NoTagsSlice(collapsed, a, b);
    SingleSpacedSlice(collapsed, a, b);
    VisibleMargins(collapsed, a, b);
  }

  /** Any contiguous piece of a single-spaced string is single-spaced. */
  lemma SingleSpacedSlice(s: string, a: nat, b: nat)
    requires SingleSpaced(s) && a <= b <= |s|
    ensures SingleSpaced(s[a..b])
  {
    var t := s[a..b];
    assert forall i :: 0 <= i < |t| ==> t[i] == s[a + i];
  }

  /** Visible characters of a concatenation. */
  lemma {:induction false} VisibleAppend(x: string, y: string)
    ensures Visible(x + y) == Visible(x) + Visible(y)
  {
    if x == [] {
      assert x + y == y;
    } else {
      assert (x + y)[1..] == x[1..] + y;
      VisibleAppend(x[1..], y);
    }
  }

  /** Removing whitespace margins leaves the visible characters alone. */
  lemma VisibleMargins(s: string, a: int, b: int)
    requires Margins(s, a, b)
    ensures Visible(s[a..b]) == Visible(s)
  {
    VisibleSkipsSpaces(s, a);
    var u := s[a..];
    assert u == s[a..b] + s[b..];
    VisibleAppend(s[a..b], s[b..]);
    VisibleSkipsSpaces(s[b..], |s| - b);
    assert s[b..][|s| - b..] == [];
  }

  /** Cleaning the empty string gives the empty string. */
  lemma CleanHtmlEmpty()
    ensures Cleaned([]) && CleanHtml([]) == []
  {
    CleanHtmlKeepsCleaned([]);
  }

  /** Cleaning an already cleaned string changes nothing. */
  lemma CleanHtmlKeepsCleaned(s: string)
    requires Cleaned(s)
    ensures CleanHtml(s) == s
  {
    StripTagsKeepsTagFree(s);
    CollapseKeepsSingleSpaced(s);
    TrimKeepsTrimmed(s);
  }

  /** `clean_html` is idempotent. */
  lemma CleanHtmlIdempotent(s: string)
    ensures CleanHtml(CleanHtml(s)) == CleanHtml(s)
  {
    CleanHtmlKeepsCleaned(CleanHtml(s));
  }

  // ---------------------------------------------------------------------
  // Worked examples
  // ---------------------------------------------------------------------

  /** A bold tag and its closing tag are removed and the three spaces
      between the words become one. */
  lemma CleanHtmlBoldExample(s: string)
    requires s == "<b>Hello</b>   world"
    ensures CleanHtml(s) == "Hello world"
  {
    var stripped := StripTags(s);
    StripTagsBoldExample(s);
    CollapseExample(stripped);
    var r := CollapseSpaces(stripped);
    TrimKeepsTrimmed(r);
  }

  /** The tag-removal pass on the bold example keeps the words and the spaces. */
  lemma StripTagsBoldExample(s: string)
    requires s == "<b>Hello</b>   world"
    ensures StripTags(s) == "Hello   world"
  {
    OpeningTagAndWord(s);
    var close := s[3..][5..];
    ClosingTagRemoved(close);
    JoinWords(StripTags(s), "Hello", StripTags(close));
  }

  // The lemmas from here to the end of the two worked examples are steps
  // of them: each pins one literal piece of the example so that the solver
  // unfolds one pass over a short string at a time.

  /** Joins the two pieces of the stripped bold example. */
  lemma JoinWords(r: string, x: string, y: string)
    requires x == "Hello" && y == "   world" && r == x + y
    ensures r == "Hello   world"
  {
  }

  lemma OpeningTagAndWord(s: string)
    requires s == "<b>Hello</b>   world"
    ensures StripTags(s) == "Hello" + StripTags(s[3..][5..])
    ensures s[3..][5..] == "</b>   world"
  {
    OpeningTagRemoved(s);
    WordKept(s[3..]);
  }

  lemma OpeningTagRemoved(s: string)
    requires s == "<b>Hello</b>   world"
    ensures StripTags(s) == StripTags(s[3..])
    ensures s[3..] == "Hello</b>   world"
  {
    assert s[0] == '<' && s[1] == 'b' && s[2] == '>';
    TagSpanAt(s, 3);
  }

  lemma WordKept(s: string)
    requires s == "Hello</b>   world"
    ensures StripTags(s) == s[..5] + StripTags(s[5..])
    ensures s[..5] == "Hello" && s[5..] == "</b>   world"
  {
    var word, close := s[..5], s[5..];
    assert s == word + close;
    assert '<' !in word;
    StripTagsPlainPrefix(word, close);
  }

  lemma ClosingTagRemoved(close: string)
    requires close == "</b>   world"
    ensures StripTags(close) == "   world"
  {
    assert close[0] == '<' && close[1] == '/' && close[2] == 'b' && close[3] == '>';
    TagSpanAt(close, 4);
    var tail := close[4..];
    assert NoTags(tail) by { assert '<' !in tail; }
    StripTagsKeepsTagFree(tail);
  }

  /** The whitespace pass on the stripped bold example. */
  lemma CollapseExample(s: string)
    requires s == "Hello   world"
    ensures CollapseSpaces(s) == "Hello world"
  {
    var word, tail := s[..5], s[5..];
    assert s == word + tail;
    PlainWord(word);
    CollapsePlainPrefix(word, tail);
    GapCollapsed(tail);
  }

  lemma GapCollapsed(tail: string)
    requires tail == "   world"
    ensures CollapseSpaces(tail) == " world"
  {
    var gap, last := tail[..3], tail[3..];
    assert tail == gap + last;
    BlankGap(gap);
    PlainWord(last);
    assert last[0] == 'w' && SingleSpaced(last);
    CollapseSpaceRun(gap, last);
    CollapseKeepsSingleSpaced(last);
  }

  lemma BlankGap(gap: string)
    requires gap == "   "
    ensures gap != [] && forall k :: 0 <= k < |gap| ==> IsSpace(gap[k])
  {
  }

  lemma PlainWord(w: string)
    requires w == "Hello" || w == "world"
    ensures forall k :: 0 <= k < |w| ==> !IsSpace(w[k])
  {
  }

  /** `<>` holds no character between the brackets, so it is not a tag and
      survives cleaning. */
  lemma CleanHtmlKeepsEmptyBrackets()
    ensures CleanHtml("<>") == "<>"
  {
    assert Cleaned("<>");
    CleanHtmlKeepsCleaned("<>");
  }
}
