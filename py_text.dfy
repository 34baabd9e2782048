/** The pieces of Python's `str`, slicing and `re` behaviour that the question-answering
    pipeline relies on. A Python `str` is a sequence of code points; Dafny's `string` is a
    `seq<char>` of Unicode scalar values, i.e. code points other than surrogates. */
module PyText {

  datatype Option<+T> = None | Some(value: T)

  /** `c.isspace()`; the `\s` class of a `str` pattern in `re` matches the same characters. */
  predicate IsSpace(c: char) {
    || c == ' '
    || '\t' <= c <= '\r'
    || '\U{1C}' <= c <= '\U{1F}'
    || c == '\U{85}'
    || c == '\U{A0}'
    || c == '\U{1680}'
    || '\U{2000}' <= c <= '\U{200A}'
    || c == '\U{2028}'
    || c == '\U{2029}'
    || c == '\U{202F}'
    || c == '\U{205F}'
    || c == '\U{3000}'
  }

  /** The ASCII digits; Python's `\d` and `int()` also accept other Unicode decimal digits. */
  predicate IsDigit(c: char) {
    '0' <= c <= '9'
  }

  predicate AllSpace(s: string) {
    forall i :: 0 <= i < |s| ==> IsSpace(s[i])
  }

  predicate AllDigits(s: string) {
    forall i :: 0 <= i < |s| ==> IsDigit(s[i])
  }

  /** Neither leading nor trailing whitespace. */
  predicate Stripped(s: string) {
    s == [] || (!IsSpace(s[0]) && !IsSpace(s[|s| - 1]))
  }

  /** Index of the first non-whitespace character of `s` at or after `from`, or `|s|`. */
  function SkipSpaces(s: string, from: nat): (n: nat)
    requires from <= |s|
    ensures from <= n <= |s|
    ensures forall i :: from <= i < n ==> IsSpace(s[i])
    ensures n == |s| || !IsSpace(s[n])
    decreases |s| - from
  {
    if from < |s| && IsSpace(s[from]) then SkipSpaces(s, from + 1) else from
  }

  /** Number of whitespace characters at the start of `s` (what a greedy `\s*` consumes). */
  function SpaceRun(s: string): (n: nat)
    ensures n <= |s|
    ensures AllSpace(s[..n])
    ensures n == |s| || !IsSpace(s[n])
  {
    SkipSpaces(s, 0)
  }

  /** `s.lstrip()`. */
  function TrimStart(s: string): (r: string)
    ensures |r| <= |s| && r == s[|s| - |r|..]
    ensures AllSpace(s[..|s| - |r|])
    ensures r == [] || !IsSpace(r[0])
  {
    s[SpaceRun(s)..]
  }

  /** Index just past the last non-whitespace character of `s[..to]`, or 0. */
  function SkipSpacesBack(s: string, to: nat): (n: nat)
    requires to <= |s|
    ensures n <= to
    ensures forall i :: n <= i < to ==> IsSpace(s[i])
    ensures n == 0 || !IsSpace(s[n - 1])
  {
    if 0 < to && IsSpace(s[to - 1]) then SkipSpacesBack(s, to - 1) else to
  }

  /** `s.rstrip()`. */
  function TrimEnd(s: string): (r: string)
    ensures |r| <= |s| && r == s[..|r|]
    ensures AllSpace(s[|r|..])
    ensures r == [] || !IsSpace(r[|r| - 1])
  {
    s[..SkipSpacesBack(s, |s|)]
  }

  /** `r` is `s` with the whitespace `s[..i]` cut from its front and only whitespace cut from its back. */
  predicate StripsTo(s: string, r: string, i: int) {
    0 <= i && i + |r| <= |s| && r == s[i..i + |r|] && AllSpace(s[..i]) && AllSpace(s[i + |r|..])
  }

  /** `s.strip()`: the leading whitespace run is cut, then the trailing one. */
  function Strip(s: string): (r: string)
    ensures Stripped(r)
    ensures StripsTo(s, r, SpaceRun(s))
  {
    var t := TrimStart(s);
    var r := TrimEnd(t);
    assert s[SpaceRun(s)..][..|r|] == s[SpaceRun(s)..SpaceRun(s) + |r|];
    r
  }

  lemma AllSpaceSplit(s: string, k: int)
    requires 0 <= k <= |s| && AllSpace(s[..k]) && AllSpace(s[k..])
    ensures AllSpace(s)
  {
    forall m | 0 <= m < |s| ensures IsSpace(s[m]) {
      if m < k {
        assert s[m] == s[..k][m];
      } else {
        assert s[m] == s[k..][m - k];
      }
    }
  }

  /** A non-blank slice cut out of `s` by stripping cannot start inside whitespace that
      another cut removed, nor end inside whitespace it kept out. */
  lemma StripBounds(s: string, t: string, i: int, j: int, f: int)
    requires StripsTo(s, t, i) && Stripped(t) && t != []
    requires 0 <= j <= |s| && AllSpace(s[..j])
    requires 0 <= f <= |s| && AllSpace(s[f..])
    ensures j <= i && i + |t| <= f
  {
    assert t[0] == s[i] && t[|t| - 1] == s[i + |t| - 1];
  }

  /** Stripping is determined by its contract: a stripped slice of `s` with only whitespace
      around it is `s.strip()`. */
  lemma StripUnique(s: string, t: string, i: int)
    requires Stripped(t) && StripsTo(s, t, i)
    ensures t == Strip(s)
  {
    var r := Strip(s);
    var j := SpaceRun(s);
    if t == [] {
      AllSpaceSplit(s, i);
    } else if r == [] {
      AllSpaceSplit(s, j);
    } else {
      StripBounds(s, t, i, j, j + |r|);
      StripBounds(s, r, j, i, i + |t|);
    }
  }

  /** A string without leading or trailing whitespace is its own `strip()`. */
  lemma StripStripped(s: string)
    requires Stripped(s)
    ensures Strip(s) == s
  {
    assert s[0..|s|] == s;
    StripUnique(s, s, 0);
  }

  /** `re.search(r"L\s*(.*)", s, re.DOTALL).group(1).strip()` is the same as stripping
      everything after the label: skipping the leading whitespace first changes nothing. */
  lemma StripTrimStart(s: string)
    ensures Strip(TrimStart(s)) == Strip(s)
  {
    var t := TrimStart(s);
    assert SpaceRun(t) == 0;
    assert TrimStart(t) == t;
  }

  /** `pat` occurs in `s` starting at index `i`. */
  predicate OccursAt(s: string, pat: string, i: int) {
    0 <= i && i + |pat| <= |s| && s[i..i + |pat|] == pat
  }

  ghost predicate Occurs(s: string, pat: string) {
    exists i :: OccursAt(s, pat, i)
  }

  lemma OccursAtTail(s: string, pat: string, i: int)
    requires s != [] && OccursAt(s[1..], pat, i)
    ensures OccursAt(s, pat, i + 1)
  {
    assert s[i + 1..i + 1 + |pat|] == s[1..][i..i + |pat|];
  }

  lemma OccursTail(s: string, pat: string)
    requires s != []
    ensures Occurs(s[1..], pat) ==> Occurs(s, pat)
  {
    if Occurs(s[1..], pat) {
      var i :| OccursAt(s[1..], pat, i);
      OccursAtTail(s, pat, i);
    }
  }

  /** The first index at or after `from` where `pat` occurs in `s`: how `str.find` and
      `re.search` scan. */
  function FindFrom(s: string, pat: string, from: nat): (r: Option<nat>)
    requires from <= |s|
    ensures r.None? ==> forall i :: from <= i ==> !OccursAt(s, pat, i)
    ensures r.Some? ==> from <= r.value && OccursAt(s, pat, r.value)
    ensures r.Some? ==> forall i :: from <= i < r.value ==> !OccursAt(s, pat, i)
    decreases |s| - from
  {
    if OccursAt(s, pat, from) then Some(from)
    else if from == |s| then None
    else FindFrom(s, pat, from + 1)
  }

  /** The scan stops exactly at the first occurrence at or after `from`. */
  lemma FindFromFirst(s: string, pat: string, from: nat, i: int)
    requires from <= i && OccursAt(s, pat, i)
    requires forall j :: from <= j < i ==> !OccursAt(s, pat, j)
    ensures from <= |s| && FindFrom(s, pat, from) == Some(i)
  {
  }

  /** A pattern whose first character does not occur in `head` is first found right after it. */
  lemma FindAfterHead(head: string, pat: string, rest: string)
    requires pat != [] && pat[0] !in head
    ensures FindFrom(head + pat + rest, pat, 0) == Some(|head|)
    ensures (head + pat + rest)[|head| + |pat|..] == rest
  {
    var s := head + pat + rest;
    assert s[|head|..|head| + |pat|] == pat;
    forall j | 0 <= j < |head|
      ensures !OccursAt(s, pat, j)
    {
      assert s[j] == head[j];
      assert j + |pat| <= |s| ==> s[j..j + |pat|][0] == s[j];
    }
    FindFromFirst(s, pat, 0, |head|);
    assert s[|head| + |pat|..] == rest;
  }

  /** `s.replace(pat, "")`: occurrences of `pat` are deleted in one left-to-right pass that
      never revisits what it produced. An empty `pat` leaves `s` as it is. */
  function RemoveAll(s: string, pat: string): (r: string)
    ensures |r| <= |s|
    ensures pat == [] ==> r == s
    decreases |s|
  {
    if pat == [] || |s| < |pat| then
      s
    else if s[..|pat|] == pat then
      RemoveAll(s[|pat|..], pat)
    else
      [s[0]] + RemoveAll(s[1..], pat)
  }

  /** `replace` keeps everything before the first occurrence, deletes that occurrence, and
      carries on after it. */
  lemma RemoveAllAtFirst(s: string, pat: string, i: int)
    requires pat != [] && OccursAt(s, pat, i)
    requires forall j :: 0 <= j < i ==> !OccursAt(s, pat, j)
    ensures RemoveAll(s, pat) == s[..i] + RemoveAll(s[i + |pat|..], pat)
  {
    RemoveAllFrom(s, pat, i, 0);
    assert s[0..] == s;
  }

  /** RemoveAllAtFirst for the suffix from `k`, by induction on the distance to `i`. */
  lemma {:induction false} RemoveAllFrom(s: string, pat: string, i: int, k: int)
    requires pat != [] && 0 <= k <= i && OccursAt(s, pat, i)
    requires forall j :: k <= j < i ==> !OccursAt(s, pat, j)
    ensures RemoveAll(s[k..], pat) == s[k..i] + RemoveAll(s[i + |pat|..], pat)
    decreases i - k
  {
    if k == i {
      var u := s[i..];
      assert u[..|pat|] == s[i..i + |pat|];
      assert u[|pat|..] == s[i + |pat|..];
    } else {
      RemoveAllFrom(s, pat, i, k + 1);
      RemoveAllFromStep(s, pat, i, k, RemoveAll(s[i + |pat|..], pat));
    }
  }

  /** The inductive step of RemoveAllFrom: a character that starts no occurrence is kept. */
  lemma RemoveAllFromStep(s: string, pat: string, i: int, k: int, v: string)
    requires pat != [] && 0 <= k < i <= |s| && !OccursAt(s, pat, k)
    requires RemoveAll(s[k + 1..], pat) == s[k + 1..i] + v
    ensures RemoveAll(s[k..], pat) == s[k..i] + v
  {
    var u := s[k..];
    assert u[1..] == s[k + 1..];
    if |pat| <= |u| {
      assert u[..|pat|] == s[k..k + |pat|];
    }
    var x := s[k + 1..i];
    assert [s[k]] + x == s[k..i];
    assert [s[k]] + (x + v) == ([s[k]] + x) + v;
  }

  /** Each deletion shortens the text by the pattern's length: text holding a non-empty
      pattern loses at least that much. */
  lemma RemoveAllShortens(s: string, pat: string)
    requires pat != [] && Occurs(s, pat)
    ensures |RemoveAll(s, pat)| <= |s| - |pat|
  {
    var i :| OccursAt(s, pat, i);
    var f := FindFrom(s, pat, 0);
    RemoveAllAtFirst(s, pat, f.value);
  }

  /** Text in which `pat` does not occur is left as it is. */
  lemma {:induction false} RemoveAllAbsent(s: string, pat: string)
    requires !Occurs(s, pat)
    ensures RemoveAll(s, pat) == s
    decreases |s|
  {
    if pat != [] && |s| >= |pat| {
      assert !OccursAt(s, pat, 0);
      OccursTail(s, pat);
      RemoveAllAbsent(s[1..], pat);
    }
  }

  /** Deleting occurrences can create a new one: `"xxyy".replace("xy", "")` is `"xy"`. */
  lemma RemoveAllCanLeaveOccurrence()
    ensures RemoveAll("xxyy", "xy") == "xy"
    ensures Occurs(RemoveAll("xxyy", "xy"), "xy")
  {
    assert "xxyy"[..2][1] == 'x';
    assert "xxyy"[1..] == "xyy";
    assert "xyy"[..2] == "xy";
    assert "xyy"[2..] == "y";
    assert OccursAt("xy", "xy", 0);
  }

  /** `s[:n]` on a Python sequence: the first `n` items, where a negative `n` counts from the end. */
  function PyPrefix<T>(s: seq<T>, n: int): (r: seq<T>)
    ensures |r| <= |s| && r == s[..|r|]
    ensures 0 <= n ==> |r| == (if |s| < n then |s| else n)
    ensures 0 <= n ==> |r| <= n && (|r| < n ==> r == s)
    ensures n < 0 ==> |r| == if |s| + n < 0 then 0 else |s| + n
  {
    if 0 <= n then (if n < |s| then s[..n] else s)
    else if |s| + n < 0 then []
    else s[..|s| + n]
  }

  /** Index of the first non-digit of `s` at or after `from`, or `|s|`. */
  function SkipDigits(s: string, from: nat): (n: nat)
    requires from <= |s|
    ensures from <= n <= |s|
    ensures forall i :: from <= i < n ==> IsDigit(s[i])
    ensures n == |s| || !IsDigit(s[n])
    decreases |s| - from
  {
    if from < |s| && IsDigit(s[from]) then SkipDigits(s, from + 1) else from
  }

  /** `int(ds)` for a string of ASCII digits. */
  function DigitsValue(ds: string): nat
    requires AllDigits(ds)
  {
    if ds == [] then 0
    else 10 * DigitsValue(ds[..|ds| - 1]) + (ds[|ds| - 1] as int - '0' as int)
  }

  function DigitChar(d: nat): (c: char)
    requires d < 10
    ensures IsDigit(c)
  {
    ('0' as int + d) as char
  }

  /** `str(n)` for a natural number: its decimal digits, most significant first. */
  function Decimal(n: nat): (s: string)
    ensures |s| > 0 && AllDigits(s)
  {
    if n < 10 then [DigitChar(n)] else Decimal(n / 10) + [DigitChar(n % 10)]
  }

  /** `int(str(n)) == n`. */
  lemma {:induction false} DecimalValue(n: nat)
    ensures DigitsValue(Decimal(n)) == n
  {
    if n >= 10 {
      var s := Decimal(n);
      assert s[..|s| - 1] == Decimal(n / 10);
      DecimalValue(n / 10);
    }
  }

  /** `sep.join(parts)`. */
  function Join(sep: string, parts: seq<string>): string {
    if |parts| == 0 then []
    else if |parts| == 1 then parts[0]
    else parts[0] + sep + Join(sep, parts[1..])
  }

  /** With a non-empty separator, the join is empty only when nothing is joined or the one
      part joined is empty. */
  lemma JoinEmpty(sep: string, parts: seq<string>)
    requires sep != []
    ensures Join(sep, parts) == [] <==> |parts| == 0 || (|parts| == 1 && parts[0] == [])
  {
    if |parts| > 1 {
      assert |Join(sep, parts)| >= |sep|;
    }
  }

  /** The characters of `s` that do not satisfy `drop`, in order. */
  function Without(s: string, drop: char -> bool): string {
    if s == [] then []
    else (if drop(s[0]) then [] else [s[0]]) + Without(s[1..], drop)
  }

  lemma {:induction false} WithoutAppend(a: string, b: string, drop: char -> bool)
    ensures Without(a + b, drop) == Without(a, drop) + Without(b, drop)
  {
    if a == [] {
      assert a + b == b;
    } else {
      assert (a + b)[1..] == a[1..] + b;
      WithoutAppend(a[1..], b, drop);
    }
  }

  /** Two texts keep the same characters when their pieces, taken in order, do. */
  lemma WithoutPieces(a: string, b: string, head: string, rest: string, drop: char -> bool)
    requires Without(head, drop) == Without(a, drop)
    requires Without(rest, drop) == Without(b, drop)
    ensures Without(head + rest, drop) == Without(a + b, drop)
  {
    WithoutAppend(head, rest, drop);
    WithoutAppend(a, b, drop);
  }

  lemma {:induction false} WithoutDropped(s: string, drop: char -> bool)
    requires forall i :: 0 <= i < |s| ==> drop(s[i])
    ensures Without(s, drop) == []
  {
    if s != [] {
      WithoutDropped(s[1..], drop);
    }
  }

  /** Dropping by `p` and then by a coarser `q` is dropping by `q`. */
  lemma {:induction false} WithoutTwice(s: string, p: char -> bool, q: char -> bool)
    requires forall c :: p(c) ==> q(c)
    ensures Without(Without(s, p), q) == Without(s, q)
  {
    if s != [] {
      var head := if p(s[0]) then [] else [s[0]];
      WithoutAppend(head, Without(s[1..], p), q);
      WithoutTwice(s[1..], p, q);
      if !p(s[0]) {
        assert Without(head, q) == (if q(s[0]) then [] else [s[0]]) + Without([], q);
      }
    }
  }

  /** Two strings that agree after dropping `p` agree after dropping anything coarser. */
  lemma WithoutCoarsen(a: string, b: string, p: char -> bool, q: char -> bool)
    requires forall c :: p(c) ==> q(c)
    requires Without(a, p) == Without(b, p)
    ensures Without(a, q) == Without(b, q)
  {
    WithoutTwice(a, p, q);
    WithoutTwice(b, p, q);
  }

  lemma SuffixOfSuffix<T>(s: seq<T>, k: nat, n: nat)
    requires k + n <= |s|
    ensures s[k..][n..] == s[k + n..]
  {
  }

  lemma AppendAssoc<T>(x: seq<T>, y: seq<T>, z: seq<T>)
    ensures x + (y + z) == (x + y) + z
  {
  }

  lemma TailOfAppend<T>(a: seq<T>, b: seq<T>)
    requires a != []
    ensures (a + b)[0] == a[0] && (a + b)[1..] == a[1..] + b
  {
  }

  lemma ConsTail<T>(s: seq<T>)
    requires s != []
    ensures s == [s[0]] + s[1..]
  {
  }

  lemma SnocTail<T>(s: seq<T>, x: T)
    requires s != []
    ensures (s + [x])[0] == s[0] && (s + [x])[1..] == s[1..] + [x]
  {
  }

  /** Stripping removes whitespace only. */
  lemma StripKeepsText(s: string)
    ensures Without(Strip(s), IsSpace) == Without(s, IsSpace)
  {
    var r := Strip(s);
    var i := SpaceRun(s);
    var a, b := s[..i], s[i + |r|..];
    assert AllSpace(a) && AllSpace(b);
    StripsToPieces(s, r, i);
    WithoutPadded(a, r, b, IsSpace);
  }

  lemma StripsToPieces(s: string, r: string, i: int)
    requires StripsTo(s, r, i)
    ensures s == s[..i] + r + s[i + |r|..]
  {
    assert s[..i] + s[i..i + |r|] + s[i + |r|..] == s;
  }

  /** Padding made only of dropped characters vanishes. */
  lemma WithoutPadded(a: string, r: string, b: string, drop: char -> bool)
    requires forall i :: 0 <= i < |a| ==> drop(a[i])
    requires forall i :: 0 <= i < |b| ==> drop(b[i])
    ensures Without(a + r + b, drop) == Without(r, drop)
  {
    WithoutAppend(a + r, b, drop);
    WithoutAppend(a, r, drop);
    WithoutDropped(a, drop);
    WithoutDropped(b, drop);
  }

}
