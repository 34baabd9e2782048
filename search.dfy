/** The retrieval side of the pipeline (`app/search.py`): a DuckDuckGo text search cut to
    `num_cites` results, one page fetch per result, paragraph extraction and text cleaning.
    The DuckDuckGo client and `requests.get` are oracles passed in as functions; the HTML
    parser is replaced by the list of paragraph texts it would have found. */
module Search {
  import opened PyText

  /** The `search` section of the configuration. */
  datatype SearchConfig = SearchConfig(numCites: int, numParagraphs: int)

  /** One item of the DuckDuckGo result list; the pipeline reads only its `href`. */
  datatype SearchHit = SearchHit(href: string)

  /** What `DDGS().text(query, max_results=n)` gives: its result list, or a
      `DuckDuckGoSearchException` (the client's rate limiting is one). */
  datatype SearchOutcome = Results(hits: seq<SearchHit>) | SearchException

  /** What fetching and parsing one page gives: the `.text` of its `<p>` elements in document
      order, or a `RequestException` (connection failure, timeout, error status). */
  datatype FetchOutcome = Page(paragraphs: seq<string>) | RequestException

  /** One element of `extracted_data`: `{"url": ..., "text": ...}`. */
  datatype Snippet = Snippet(url: string, text: string)

  const NO_INFORMATION: string := "Нет дополнительной информации"
  const PAGE_LOAD_ERROR: string := "Ошибка загрузки страницы"
  const PARAGRAPH_SEPARATOR: string := "\n\n"

  /** The characters of a `[digits]` citation marker. */
  predicate IsMarkerChar(c: char) {
    c == '[' || c == ']' || IsDigit(c)
  }

  /** The characters that cleaning may delete or rewrite. */
  predicate IsNoise(c: char) {
    IsSpace(c) || IsMarkerChar(c)
  }

  predicate NoSpace(s: string) {
    forall i :: 0 <= i < |s| ==> !IsSpace(s[i])
  }

  /** Every whitespace character of `s` is a plain space. */
  predicate PlainSpaces(s: string) {
    forall i :: 0 <= i < |s| && IsSpace(s[i]) ==> s[i] == ' '
  }

  /** No two whitespace characters are adjacent in `s`. */
  predicate SingleSpaces(s: string) {
    forall i :: 0 < i < |s| && IsSpace(s[i]) ==> !IsSpace(s[i - 1])
  }

  /** `re.sub(r'\s+', ' ', s)`: every maximal run of whitespace becomes one space. */
  function CollapseSpaces(s: string): string
    decreases |s|
  {
    if s == [] then []
    else if IsSpace(s[0]) then [' '] + CollapseSpaces(s[SpaceRun(s)..])
    else [s[0]] + CollapseSpaces(s[1..])
  }

  /** After collapsing, every whitespace character is a plain space, no two of them are
      adjacent, and the text starts with whitespace exactly when the input did. */
  lemma {:induction false} CollapseShape(s: string)
    ensures var r := CollapseSpaces(s);
      && |r| <= |s|
      && (r == []) == (s == [])
      && (r != [] ==> (IsSpace(r[0]) <==> IsSpace(s[0])))
      && PlainSpaces(r)
      && SingleSpaces(r)
    decreases |s|
  {
    if s != [] {
      var n := if IsSpace(s[0]) then SpaceRun(s) else 1;
      CollapseShape(s[n..]);
      var tail := CollapseSpaces(s[n..]);
      var r := CollapseSpaces(s);
      assert r == r[..1] + tail;
      assert forall i :: 0 < i < |r| ==> r[i] == tail[i - 1];
    }
  }

  /** Text whose whitespace is already single plain spaces is not changed by collapsing. */
  lemma {:induction false} CollapseClean(s: string)
    requires PlainSpaces(s) && SingleSpaces(s)
    ensures CollapseSpaces(s) == s
    decreases |s|
  {
    if s != [] {
      CleanTail(s);
      CollapseClean(s[1..]);
      if IsSpace(s[0]) {
        SingleSpaceRun(s);
        assert s[SpaceRun(s)..] == s[1..];
      }
      assert s == [s[0]] + s[1..];
    }
  }

  /** Single plain spaces stay single plain spaces once the first character is dropped. */
  lemma CleanTail(s: string)
    requires s != [] && PlainSpaces(s) && SingleSpaces(s)
    ensures PlainSpaces(s[1..]) && SingleSpaces(s[1..])
  {
    assert forall i :: 0 <= i < |s| - 1 ==> s[1..][i] == s[i + 1];
  }

  /** A whitespace character not followed by another is a run of one plain space. */
  lemma SingleSpaceRun(s: string)
    requires s != [] && IsSpace(s[0]) && PlainSpaces(s) && SingleSpaces(s)
    ensures SpaceRun(s) == 1 && s[0] == ' '
  {
    assert |s| == 1 || !IsSpace(s[1]);
  }

  /** Collapsing rewrites whitespace only: the other characters stay, in order. */
  lemma {:induction false} CollapseKeepsText(s: string)
    ensures Without(CollapseSpaces(s), IsSpace) == Without(s, IsSpace)
    decreases |s|
  {
    if s != [] {
      var n := if IsSpace(s[0]) then SpaceRun(s) else 1;
      CollapseKeepsText(s[n..]);
      if IsSpace(s[0]) {
        SpaceRunDropped(s);
        WithoutPieces(s[..n], s[n..], [' '], CollapseSpaces(s[n..]), IsSpace);
      } else {
        WithoutPieces(s[..1], s[1..], [s[0]], CollapseSpaces(s[1..]), IsSpace);
      }
      assert s[..n] + s[n..] == s;
    }
  }

  /** The leading whitespace run and the space that replaces it both vanish from the text. */
  lemma SpaceRunDropped(s: string)
    requires s != [] && IsSpace(s[0])
    ensures Without(s[..SpaceRun(s)], IsSpace) == [] == Without([' '], IsSpace)
  {
    WithoutDropped(s[..SpaceRun(s)], IsSpace);
    WithoutDropped([' '], IsSpace);
  }

  /** Collapsing works piece by piece when the first piece does not end in whitespace, so
      no run spans the cut. */
  lemma {:induction false} CollapseAppend(a: string, b: string)
    requires a == [] || !IsSpace(a[|a| - 1])
    ensures CollapseSpaces(a + b) == CollapseSpaces(a) + CollapseSpaces(b)
    decreases |a|
  {
    if a == [] {
      assert a + b == b;
    } else if !IsSpace(a[0]) {
      var t := a[1..];
      assert t == [] || t[|t| - 1] == a[|a| - 1];
      CollapseAppend(t, b);
      CollapseAppendHead(a, b);
    } else {
      var n := SpaceRun(a);
      assert n < |a|;
      var t := a[n..];
      assert t[|t| - 1] == a[|a| - 1];
      CollapseAppend(t, b);
      CollapseAppendRun(a, b, n);
    }
  }

  /** The inductive step of CollapseAppend for a leading non-space character. */
  lemma CollapseAppendHead(a: string, b: string)
    requires a != [] && !IsSpace(a[0])
    requires CollapseSpaces(a[1..] + b) == CollapseSpaces(a[1..]) + CollapseSpaces(b)
    ensures CollapseSpaces(a + b) == CollapseSpaces(a) + CollapseSpaces(b)
  {
    TailOfAppend(a, b);
    CollapseHead(a + b);
    CollapseHead(a);
    AppendAssoc([a[0]], CollapseSpaces(a[1..]), CollapseSpaces(b));
  }

  /** A leading non-space character is kept as it is. */
  lemma CollapseHead(s: string)
    requires s != [] && !IsSpace(s[0])
    ensures CollapseSpaces(s) == [s[0]] + CollapseSpaces(s[1..])
  {
  }

  /** The inductive step of CollapseAppend for a leading whitespace run of length `n`. */
  lemma CollapseAppendRun(a: string, b: string, n: nat)
    requires n == SpaceRun(a) && 0 < n < |a|
    requires CollapseSpaces(a[n..] + b) == CollapseSpaces(a[n..]) + CollapseSpaces(b)
    ensures CollapseSpaces(a + b) == CollapseSpaces(a) + CollapseSpaces(b)
  {
    SplitAppend(a, b, n);
    CollapseSpaceRun(a[..n], a[n..] + b);
    CollapseSpaceRun(a[..n], a[n..]);
    AppendAssoc(" ", CollapseSpaces(a[n..]), CollapseSpaces(b));
  }

  lemma SplitAppend(a: string, b: string, n: nat)
    requires n <= |a|
    ensures a + b == a[..n] + (a[n..] + b) && a == a[..n] + a[n..]
  {
  }

  /** A whitespace run followed by a non-space becomes a single space. */
  lemma CollapseSpaceRun(w: string, b: string)
    requires w != [] && AllSpace(w) && (b == [] || !IsSpace(b[0]))
    ensures CollapseSpaces(w + b) == " " + CollapseSpaces(b)
  {
    var s := w + b;
    assert forall i :: 0 <= i < |w| ==> s[i] == w[i];
    assert b != [] ==> s[|w|] == b[0];
    assert SpaceRun(s) == |w|;
    assert s[|w|..] == b;
  }

  /** Any non-empty whitespace run collapses to exactly one space. */
  lemma CollapseRun(w: string)
    requires w != [] && AllSpace(w)
    ensures CollapseSpaces(w) == " "
  {
    CollapseSpaceRun(w, []);
    assert w + [] == w;
  }

  /** Length of the `[digits]` citation marker at the start of `s`, 0 when none starts there.
      `\d+` is greedy and a digit is never `]`, so no shorter digit run can match instead. */
  function MarkerLength(s: string): (n: nat)
    ensures n == 0 || MarkerAt(s, n)
    ensures forall k :: MarkerAt(s, k) ==> n == k
  {
    if s != [] && s[0] == '[' then
      var e := SkipDigits(s, 1);
      assert forall k :: MarkerAt(s, k) ==> e == k - 1 by {
        forall k | MarkerAt(s, k) ensures e == k - 1 {
          MarkerEnd(s, k);
        }
      }
      if 1 < e < |s| && s[e] == ']' then e + 1 else 0
    else
      0
  }

  /** `s[..k]` is a whole `[digits]` marker. */
  predicate MarkerAt(s: string, k: int) {
    3 <= k <= |s| && s[0] == '[' && AllDigits(s[1..k - 1]) && s[k - 1] == ']'
  }

  /** The digits of a marker are exactly the digit run after its `[`. */
  lemma MarkerEnd(s: string, k: int)
    requires MarkerAt(s, k)
    ensures SkipDigits(s, 1) == k - 1
  {
    assert forall i :: 1 <= i < k - 1 ==> s[i] == s[1..k - 1][i - 1];
  }

  /** `re.sub(r'\[\d+\]', '', s)`: markers are deleted in one left-to-right pass. */
  function RemoveMarkers(s: string): string
    decreases |s|
  {
    if s == [] then []
    else if MarkerLength(s) > 0 then RemoveMarkers(s[MarkerLength(s)..])
    else [s[0]] + RemoveMarkers(s[1..])
  }

  /** Marker removal only deletes: it never lengthens the text nor brings in a character. */
  lemma {:induction false} RemoveMarkersShape(s: string)
    ensures |RemoveMarkers(s)| <= |s|
    ensures forall c :: c in RemoveMarkers(s) ==> c in s
    decreases |s|
  {
    if s != [] {
      var n := if MarkerLength(s) > 0 then MarkerLength(s) else 1;
      RemoveMarkersShape(s[n..]);
      forall c | c in s[n..] ensures c in s {
        var k :| 0 <= k < |s[n..]| && s[n..][k] == c;
        assert s[n + k] == c;
      }
    }
  }

  /** Text without `[` is not changed by marker removal. */
  lemma {:induction false} RemoveMarkersNoBracket(s: string)
    requires '[' !in s
    ensures RemoveMarkers(s) == s
    decreases |s|
  {
    if s != [] {
      assert s[0] != '[';
      assert '[' !in s[1..];
      RemoveMarkersNoBracket(s[1..]);
    }
  }

  /** Marker removal deletes brackets and digits only. */
  lemma {:induction false} RemoveMarkersKeepsText(s: string)
    ensures Without(RemoveMarkers(s), IsMarkerChar) == Without(s, IsMarkerChar)
    decreases |s|
  {
    if s != [] {
      var n := if MarkerLength(s) > 0 then MarkerLength(s) else 1;
      RemoveMarkersKeepsText(s[n..]);
      if MarkerLength(s) > 0 {
        MarkerDropped(s);
        WithoutPieces(s[..n], s[n..], [], RemoveMarkers(s[n..]), IsMarkerChar);
        assert [] + RemoveMarkers(s[n..]) == RemoveMarkers(s);
      } else {
        WithoutPieces(s[..1], s[1..], [s[0]], RemoveMarkers(s[1..]), IsMarkerChar);
      }
      assert s[..n] + s[n..] == s;
    }
  }

  /** A marker consists of marker characters only, so it vanishes from the text. */
  lemma MarkerDropped(s: string)
    requires MarkerLength(s) > 0
    ensures Without(s[..MarkerLength(s)], IsMarkerChar) == []
  {
    var n := MarkerLength(s);
    assert forall i :: 0 < i < n - 1 ==> s[..n][i] == s[1..n - 1][i - 1];
    WithoutDropped(s[..n], IsMarkerChar);
  }

  /** No marker starts at any of the first `n` positions of `s`. */
  predicate NoMarkerBefore(s: string, n: nat) {
    forall k :: 0 <= k < n <= |s| ==> MarkerLength(s[k..]) == 0
  }

  /** Text without `[` starts no marker, whatever follows it. */
  lemma BracketFreeNoMarker(a: string, m: string)
    requires '[' !in a
    ensures NoMarkerBefore(a + m, |a|)
  {
    forall k | 0 <= k < |a| ensures MarkerLength((a + m)[k..]) == 0 {
      assert (a + m)[k..][0] == a[k];
    }
  }

  /** A marker after text in which no marker starts is deleted, and removal carries on
      after it; a `[` in that text that opens no marker is kept like any other character. */
  lemma RemoveMarkersDeletes(a: string, ds: string, b: string)
    requires NoMarkerBefore(a + "[" + ds + "]" + b, |a|) && ds != [] && AllDigits(ds)
    ensures RemoveMarkers(a + "[" + ds + "]" + b) == a + RemoveMarkers(b)
  {
    var m := "[" + ds + "]" + b;
    assert a + "[" + ds + "]" + b == a + m;
    RemoveMarkersAfter(a, m);
    MarkerDeleted(ds, b);
  }

  /** Text in front in which no marker starts is kept as it is, stray `[` included, and
      removal goes on with what follows. */
  lemma {:induction false} RemoveMarkersAfter(a: string, m: string)
    requires NoMarkerBefore(a + m, |a|)
    ensures RemoveMarkers(a + m) == a + RemoveMarkers(m)
    decreases |a|
  {
    if a == [] {
      assert a + m == m;
    } else {
      var t := a[1..];
      TailOfAppend(a, m);
      forall k | 0 <= k < |t| ensures MarkerLength((t + m)[k..]) == 0 {
        SuffixOfSuffix(a + m, 1, k);
        assert MarkerLength((a + m)[k + 1..]) == 0;
      }
      RemoveMarkersAfter(t, m);
      assert MarkerLength((a + m)[0..]) == 0;
      assert (a + m)[0..] == a + m;
      RemoveMarkersHead(a + m);
      AppendAssoc([a[0]], t, RemoveMarkers(m));
      ConsTail(a);
    }
  }

  /** A marker at the very start is deleted. */
  lemma MarkerDeleted(ds: string, b: string)
    requires ds != [] && AllDigits(ds)
    ensures RemoveMarkers("[" + ds + "]" + b) == RemoveMarkers(b)
  {
    var s := "[" + ds + "]" + b;
    var k := |ds| + 2;
    assert s[1..k - 1] == ds;
    assert MarkerAt(s, k);
    assert s[k..] == b;
  }

  /** A character that starts no marker is kept, a stray `[` included. */
  lemma RemoveMarkersHead(s: string)
    requires s != [] && MarkerLength(s) == 0
    ensures RemoveMarkers(s) == [s[0]] + RemoveMarkers(s[1..])
  {
  }

  /** A `[` that opens no marker stays, and a marker after it is still deleted:
      `re.sub(r'\[\d+\]', '', "[a[1]")` is "[a". */
  lemma StrayBracketKept()
    ensures RemoveMarkers("[a[1]") == "[a"
  {
    var s := "[a[1]";
    assert MarkerLength(s) == 0 by {
      assert SkipDigits(s, 1) == 1;
    }
    assert s[1..] == "a[1]";
    assert MarkerLength(s[1..]) == 0;
    MarkerDeleted("1", "");
    assert "a[1]"[1..] == "[1]" + "";
  }

  lemma PlainSpacesKept(s: string, r: string)
    requires PlainSpaces(s)
    requires forall c :: c in r ==> c in s
    ensures PlainSpaces(r)
  {
    forall i | 0 <= i < |r| && IsSpace(r[i]) ensures r[i] == ' ' {
      assert r[i] in r;
      var k :| 0 <= k < |s| && s[k] == r[i];
    }
  }

  /** `clean_text`: collapse whitespace, then delete `[digits]` markers, then strip. */
  function CleanText(text: string): (r: string)
    ensures Stripped(r)
    ensures PlainSpaces(r)
    ensures |r| <= |text|
  {
    var collapsed := CollapseSpaces(text);
    var unmarked := RemoveMarkers(collapsed);
    var r := Strip(unmarked);
    assert PlainSpaces(r) && |r| <= |text| by {
      CollapseShape(text);
      RemoveMarkersShape(collapsed);
      PlainSpacesKept(collapsed, unmarked);
      var i := SpaceRun(unmarked);
      assert forall k :: 0 <= k < |r| ==> r[k] == unmarked[i + k];
    }
    r
  }

  /** Cleaned text has no line breaks. */
  lemma CleanTextSingleLine(text: string)
    ensures '\n' !in CleanText(text)
  {
  }

  /** Text that is already clean (stripped, single plain spaces, no `[`) comes out of
      cleaning unchanged. */
  lemma CleanTextOfClean(text: string)
    requires Stripped(text) && PlainSpaces(text) && SingleSpaces(text) && '[' !in text
    ensures CleanText(text) == text
  {
    CollapseClean(text);
    RemoveMarkersNoBracket(text);
    StripStripped(text);
  }

  /** Text with no whitespace and no `[` comes out of cleaning unchanged. */
  lemma CleanTextUnchanged(text: string)
    requires NoSpace(text) && '[' !in text
    ensures CleanText(text) == text
  {
    CleanTextOfClean(text);
  }

  /** Any whitespace between two words, line breaks included, becomes one space. */
  lemma CleanTextJoinsWords(a: string, w: string, b: string)
    requires a != [] && NoSpace(a) && '[' !in a
    requires b != [] && NoSpace(b) && '[' !in b
    requires w != [] && AllSpace(w)
    ensures CleanText(a + w + b) == a + " " + b
  {
    var joined := a + " " + b;
    CollapseJoin(a, w, b);
    assert '[' !in joined;
    assert joined[0] == a[0] && joined[|joined| - 1] == b[|b| - 1];
    CleanTextCollapsed(a + w + b, joined);
  }

  /** Text that collapses to stripped text without `[` is cleaned to that text. */
  lemma CleanTextCollapsed(text: string, c: string)
    requires CollapseSpaces(text) == c && '[' !in c && Stripped(c)
    ensures CleanText(text) == c
  {
    RemoveMarkersNoBracket(c);
    StripStripped(c);
  }

  lemma CollapseJoin(a: string, w: string, b: string)
    requires a != [] && NoSpace(a)
    requires NoSpace(b) && w != [] && AllSpace(w)
    ensures CollapseSpaces(a + w + b) == a + " " + b
  {
    AppendAssoc(a, w, b);
    CollapseAppend(a, w + b);
    NoSpaceCollapse(a);
    CollapseSpaceRun(w, b);
    NoSpaceCollapse(b);
    AppendAssoc(a, " ", b);
  }

  lemma NoSpaceCollapse(s: string)
    requires NoSpace(s)
    ensures CollapseSpaces(s) == s
  {
    CollapseClean(s);
  }

  /** A `[digits]` marker between two words is deleted without a trace. */
  lemma CleanTextDeletesMarker(a: string, ds: string, b: string)
    requires NoSpace(a) && '[' !in a
    requires NoSpace(b) && '[' !in b
    requires ds != [] && AllDigits(ds)
    ensures CleanText(a + "[" + ds + "]" + b) == a + b
  {
    var s := a + "[" + ds + "]" + b;
    MarkedWordNoSpace(a, ds, b);
    CollapseClean(s);
    BracketFreeNoMarker(a, "[" + ds + "]" + b);
    assert a + ("[" + ds + "]" + b) == s;
    RemoveMarkersDeletes(a, ds, b);
    RemoveMarkersNoBracket(b);
    StripStripped(a + b);
  }

  lemma MarkedWordNoSpace(a: string, ds: string, b: string)
    requires NoSpace(a) && NoSpace(b) && AllDigits(ds)
    ensures NoSpace(a + "[" + ds + "]" + b)
  {
    var s := a + "[" + ds + "]" + b;
    forall i | 0 <= i < |s| ensures !IsSpace(s[i]) {
      if i < |a| {
        assert s[i] == a[i];
      } else if i == |a| {
        assert s[i] == '[';
      } else if i < |a| + 1 + |ds| {
        assert s[i] == ds[i - |a| - 1];
      } else if i == |a| + 1 + |ds| {
        assert s[i] == ']';
      } else {
        assert s[i] == b[i - |a| - 2 - |ds|];
      }
    }
  }

  /** Cleaning deletes or rewrites whitespace, brackets and digits only: every other character
      of the input is kept, in order. */
  lemma CleanTextKeepsText(text: string)
    ensures Without(CleanText(text), IsNoise) == Without(text, IsNoise)
  {
    var collapsed := CollapseSpaces(text);
    var unmarked := RemoveMarkers(collapsed);
    CollapseKeepsText(text);
    WithoutCoarsen(collapsed, text, IsSpace, IsNoise);
    RemoveMarkersKeepsText(collapsed);
    WithoutCoarsen(unmarked, collapsed, IsMarkerChar, IsNoise);
    StripKeepsText(unmarked);
    WithoutCoarsen(CleanText(text), unmarked, IsSpace, IsNoise);
  }

  /** Markers go after whitespace is collapsed, so the spaces around a marker both stay and a
      second cleaning changes the text again: cleaning is not idempotent. */
  lemma CleanTextNotIdempotent()
    ensures CleanText("x [1] y") == "x  y"
    ensures CleanText("x  y") == "x y"
  {
    CleanMarkedOnce();
    CleanDoubleSpace();
  }

  lemma CleanMarkedOnce()
    ensures CleanText("x [1] y") == "x  y"
  {
    SingleSpacesKept();
    MarkerBetweenSpaces();
    StripStripped("x  y");
  }

  lemma CleanDoubleSpace()
    ensures CleanText("x  y") == "x y"
  {
    CollapseDoubleSpace();
    RemoveMarkersNoBracket("x y");
    StripStripped("x y");
  }

  lemma SingleSpacesKept()
    ensures CollapseSpaces("x [1] y") == "x [1] y"
  {
    CollapseClean("x [1] y");
  }

  lemma MarkerBetweenSpaces()
    ensures RemoveMarkers("x [1] y") == "x  y"
  {
    assert MarkerLength("x [1] y") == 0;
    assert MarkerLength(" [1] y") == 0;
    assert MarkerLength("[1] y") == 3;
    assert "[1] y"[3..] == " y";
    RemoveMarkersNoBracket(" y");
  }

  lemma CollapseDoubleSpace()
    ensures CollapseSpaces("x  y") == "x y"
  {
    assert SpaceRun("  y") == 2;
  }

  /** A marker between two words disappears without a trace. */
  lemma CleanTextDropsMarker()
    ensures CleanText("a[12]b") == "ab"
  {
    CollapseClean("a[12]b");
    MarkerBetweenLetters();
    StripStripped("ab");
  }

  lemma MarkerBetweenLetters()
    ensures RemoveMarkers("a[12]b") == "ab"
  {
    assert MarkerLength("[12]b") == 4;
    assert "[12]b"[4..] == "b";
    RemoveMarkersNoBracket("b");
  }

  /** What a loop collects when it appends `f(x)` for each `x` of `xs` in turn. */
  function Appended<A, B>(f: A -> B, xs: seq<A>): seq<B> {
    if xs == [] then [] else Appended(f, xs[..|xs| - 1]) + [f(xs[|xs| - 1])]
  }

  /** One more turn of the loop appends the entry of the next element. */
  lemma AppendedNext<A, B>(f: A -> B, xs: seq<A>, i: int)
    requires 0 <= i < |xs|
    ensures Appended(f, xs[..i + 1]) == Appended(f, xs[..i]) + [f(xs[i])]
  {
    assert xs[..i + 1][..i] == xs[..i];
  }

  /** One entry per element, the `k`-th made from the `k`-th element. */
  lemma {:induction false} AppendedEntries<A, B>(f: A -> B, xs: seq<A>)
    ensures |Appended(f, xs)| == |xs|
    ensures forall k :: 0 <= k < |xs| ==> Appended(f, xs)[k] == f(xs[k])
  {
    if xs != [] {
      var init := xs[..|xs| - 1];
      AppendedEntries(f, init);
      assert forall k :: 0 <= k < |init| ==> init[k] == xs[k];
    }
  }

  /** The `search` configuration and the operations that use it. */
  class SearchEngine {
    const numCites: int
    const numParagraphs: int

    constructor (config: SearchConfig)
      ensures numCites == config.numCites && numParagraphs == config.numParagraphs
    {
      numCites := config.numCites;
      numParagraphs := config.numParagraphs;
    }

    /** `search_duckduckgo`: the client is asked for `numCites` results and its list is cut to
        `numCites`; a `DuckDuckGoSearchException` yields no results at all. */
    function SearchDuckDuckGo(query: string, ddg: (string, int) -> SearchOutcome): (results: seq<SearchHit>)
      ensures ddg(query, numCites).SearchException? ==> results == []
      ensures ddg(query, numCites).Results? ==>
        var hits := ddg(query, numCites).hits;
        && |results| <= |hits| && results == hits[..|results|]
        && (0 <= numCites ==> |results| == if |hits| < numCites then |hits| else numCites)
        && (|hits| <= numCites ==> results == hits)
        && (numCites < 0 ==> |results| == if |hits| + numCites < 0 then 0 else |hits| + numCites)
    {
      match ddg(query, numCites)
      case SearchException => []
      case Results(hits) => PyPrefix(hits, numCites)
    }

    /** The stripped texts of the first `numParagraphs` paragraphs, joined by a blank line. */
    function ParagraphText(paragraphs: seq<string>): string {
      var taken := PyPrefix(paragraphs, numParagraphs);
      Join(PARAGRAPH_SEPARATOR, seq(|taken|, i requires 0 <= i < |taken| => Strip(taken[i])))
    }

    /** `extract_text_from_url`: the joined paragraph text, or a sentinel in its place. */
    function ExtractTextFromUrl(url: string, fetch: string -> FetchOutcome): (text: string)
      ensures text != []
      ensures fetch(url).RequestException? ==> text == PAGE_LOAD_ERROR
      ensures fetch(url).Page? ==>
        var joined := ParagraphText(fetch(url).paragraphs);
        text == if joined == [] then NO_INFORMATION else joined
    {
      match fetch(url)
      case RequestException => PAGE_LOAD_ERROR
      case Page(paragraphs) =>
        var joined := ParagraphText(paragraphs);
        if joined != [] then joined else NO_INFORMATION
    }

    /** The body of the `search_and_scrape` loop for one result: fetch the page behind its
        `href`, clean the extracted text, and pair it with the URL. */
    function ScrapeEntry(hit: SearchHit, fetch: string -> FetchOutcome): Snippet {
      var url := hit.href;
      var text := ExtractTextFromUrl(url, fetch);
      Snippet(url, CleanText(text))
    }

    /** `ScrapeEntry` as a function of the search result alone. */
    function Scraper(fetch: string -> FetchOutcome): SearchHit -> Snippet {
      hit => ScrapeEntry(hit, fetch)
    }

    /** The entries `search_and_scrape` collects for a result list, appended in result order. */
    function Scraped(results: seq<SearchHit>, fetch: string -> FetchOutcome): seq<Snippet> {
      Appended(Scraper(fetch), results)
    }

    /** `search_and_scrape`: search, then one entry per result, in result order, whether or not
        the page could be fetched. */
    method SearchAndScrape(query: string, ddg: (string, int) -> SearchOutcome, fetch: string -> FetchOutcome)
      returns (extractedData: seq<Snippet>)
      ensures extractedData == Scraped(SearchDuckDuckGo(query, ddg), fetch)
    {
      var results := SearchDuckDuckGo(query, ddg);
      extractedData := [];
      for i := 0 to |results|
        invariant extractedData == Scraped(results[..i], fetch)
      {
        var url := results[i].href;
        var text := ExtractTextFromUrl(url, fetch);
        var cleanedText := CleanText(text);
        AppendedNext(Scraper(fetch), results, i);
        extractedData := extractedData + [Snippet(url, cleanedText)];
      }
      assert results[..|results|] == results;
    }
  }

  /** `search_and_scrape` keeps one entry per search result, in result order: the `k`-th
      entry holds the `k`-th result's URL and the cleaned text extracted from it. */
  lemma ScrapedEntries(engine: SearchEngine, results: seq<SearchHit>, fetch: string -> FetchOutcome)
    ensures |engine.Scraped(results, fetch)| == |results|
    ensures forall k :: 0 <= k < |results| ==>
      && engine.Scraped(results, fetch)[k].url == results[k].href
      && engine.Scraped(results, fetch)[k].text == CleanText(engine.ExtractTextFromUrl(results[k].href, fetch))
  {
    AppendedEntries(engine.Scraper(fetch), results);
  }

  /** A page yields the "no information" sentinel when it has no paragraph to take, or takes a
      single one that is blank; with two or more taken the joined text itself is returned. */
  lemma ExtractTextSentinel(engine: SearchEngine, url: string, fetch: string -> FetchOutcome)
    requires fetch(url).Page?
    ensures var taken := PyPrefix(fetch(url).paragraphs, engine.numParagraphs);
      && (|taken| == 0 || (|taken| == 1 && Strip(taken[0]) == []) ==>
            engine.ExtractTextFromUrl(url, fetch) == NO_INFORMATION)
      && (!(|taken| == 0 || (|taken| == 1 && Strip(taken[0]) == [])) ==>
            engine.ExtractTextFromUrl(url, fetch) == engine.ParagraphText(fetch(url).paragraphs))
  {
    var taken := PyPrefix(fetch(url).paragraphs, engine.numParagraphs);
    var stripped := seq(|taken|, i requires 0 <= i < |taken| => Strip(taken[i]));
    JoinEmpty(PARAGRAPH_SEPARATOR, stripped);
  }

  /** The sentinel guards only the joined text, which cleaning can still empty: two blank
      paragraphs join to a blank line, and its entry has empty text. */
  lemma ScrapedTextCanBeEmpty(engine: SearchEngine, hit: SearchHit, fetch: string -> FetchOutcome)
    requires engine.numParagraphs >= 2
    requires fetch(hit.href) == Page(["", ""])
    ensures engine.ScrapeEntry(hit, fetch).text == []
  {
    var taken := PyPrefix(fetch(hit.href).paragraphs, engine.numParagraphs);
    assert taken == ["", ""];
    assert Strip("") == [];
    var stripped := seq(|taken|, i requires 0 <= i < |taken| => Strip(taken[i]));
    assert stripped == ["", ""];
    assert engine.ParagraphText(["", ""]) == PARAGRAPH_SEPARATOR;
    assert SpaceRun("\n\n") == 2;
    assert CollapseSpaces("\n\n") == " ";
    assert RemoveMarkers(" ") == " ";
    assert SpaceRun(" ") == 1;
  }
}
