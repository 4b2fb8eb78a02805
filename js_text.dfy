/** Hand-written scanners for the few JavaScript string operations and regular
    expressions that the prepared statement applies to its SQL text:
    `String.prototype.trim`, `toUpperCase`, `includes`, `replace(/%/g, '')`,
    and the patterns `\s+`, `\w+`, `\d+` and an ASCII keyword under the `i`
    flag, scanned leftmost-first the way `String.prototype.match` does. */
module JsText {
  import opened Wrappers

  // ---------------------------------------------------------------------------
  // Character classes

  /** `\s` in a regular expression, and the set `trim()` removes: the
      ECMAScript WhiteSpace and LineTerminator code points. */
  predicate IsSpace(c: char) {
    || c == '\t' || c == '\n' || c == '\U{B}' || c == '\U{C}' || c == '\r' || c == ' '
    || c == '\U{A0}' || c == '\U{1680}' || '\U{2000}' <= c <= '\U{200A}'
    || c == '\U{2028}' || c == '\U{2029}' || c == '\U{202F}' || c == '\U{205F}'
    || c == '\U{3000}' || c == '\U{FEFF}'
  }

  predicate IsDigit(c: char) {
    '0' <= c <= '9'
  }

  /** `\w` without the `u` flag: ASCII letters, digits and underscore. */
  predicate IsWordChar(c: char) {
    'a' <= c <= 'z' || 'A' <= c <= 'Z' || IsDigit(c) || c == '_'
  }

  predicate AllSpace(s: string) {
    forall i :: 0 <= i < |s| ==> IsSpace(s[i])
  }

  predicate AllWordChars(s: string) {
    forall i :: 0 <= i < |s| ==> IsWordChar(s[i])
  }

  predicate AllDigits(s: string) {
    forall i :: 0 <= i < |s| ==> IsDigit(s[i])
  }

  // ---------------------------------------------------------------------------
  // trim()

  function TrimStart(s: string): (r: string)
    ensures |r| <= |s| && r == s[|s| - |r|..]
    ensures AllSpace(s[..|s| - |r|])
    ensures r == [] || !IsSpace(r[0])
  {
    if s != [] && IsSpace(s[0]) then TrimStart(s[1..]) else s
  }

  function TrimEnd(s: string): (r: string)
    ensures |r| <= |s| && r == s[..|r|]
    ensures AllSpace(s[|r|..])
    ensures r == [] || !IsSpace(r[|r| - 1])
  {
    if s != [] && IsSpace(s[|s| - 1]) then TrimEnd(s[..|s| - 1]) else s
  }

  /** `s.trim()`: the slice of s left once the white space at both ends is
      removed; it neither starts nor ends with white space. */
  function Trim(s: string): (r: string)
    ensures SpaceCut(s, r)
    ensures r == [] || (!IsSpace(r[0]) && !IsSpace(r[|r| - 1]))
  {
    var t := TrimStart(s);
    var r := TrimEnd(t);
    TrimSlice(s, t, r);
    r
  }

  /** r is a slice of s with nothing but white space before and after it. */
  ghost predicate SpaceCut(s: string, r: string) {
    exists a :: 0 <= a <= |s| - |r| && r == s[a..a + |r|]
                && AllSpace(s[..a]) && AllSpace(s[a + |r|..])
  }

  /** Cutting white space from the front of s, giving t, and then from the
      back of t, giving r, cuts white space from both ends of s. */
  lemma TrimSlice(s: string, t: string, r: string)
    requires |t| <= |s| && t == s[|s| - |t|..] && AllSpace(s[..|s| - |t|])
    requires t == [] || !IsSpace(t[0])
    requires |r| <= |t| && r == t[..|r|] && AllSpace(t[|r|..])
    requires r == [] || !IsSpace(r[|r| - 1])
    ensures SpaceCut(s, r)
    ensures r == [] || (!IsSpace(r[0]) && !IsSpace(r[|r| - 1]))
  {
    var a := |s| - |t|;
    SliceOfSlice(s, a, |r|);
    assert 0 <= a <= |s| - |r| && r == s[a..a + |r|] && AllSpace(s[..a]) && AllSpace(s[a + |r|..]);
    if r != [] {
      assert r[0] == t[0];
    }
  }

  lemma SliceOfSlice(s: string, a: nat, n: nat)
    requires a + n <= |s|
    ensures s[a..][..n] == s[a..a + n]
    ensures s[a..][n..] == s[a + n..]
  {
  }

  lemma {:induction false} TrimStartSkipsSpace(w: string, s: string)
    requires AllSpace(w)
    ensures TrimStart(w + s) == TrimStart(s)
    decreases |w|
  {
    if w == [] {
      assert w + s == s;
    } else {
      assert (w + s)[1..] == w[1..] + s;
      TrimStartSkipsSpace(w[1..], s);
    }
  }

  lemma {:induction false} TrimEndSkipsSpace(s: string, w: string)
    requires AllSpace(w)
    ensures TrimEnd(s + w) == TrimEnd(s)
    decreases |w|
  {
    if w == [] {
      assert s + w == s;
    } else {
      assert (s + w)[..|s + w| - 1] == s + w[..|w| - 1];
      TrimEndSkipsSpace(s, w[..|w| - 1]);
    }
  }

  lemma {:induction false} TrimStartKeepsTail(s: string, w: string)
    requires !AllSpace(s)
    ensures TrimStart(s + w) == TrimStart(s) + w
    decreases |s|
  {
    if IsSpace(s[0]) {
      assert (s + w)[1..] == s[1..] + w;
      assert !AllSpace(s[1..]) by {
        var i :| 0 <= i < |s| && !IsSpace(s[i]);
        assert s[1..][i - 1] == s[i];
      }
      TrimStartKeepsTail(s[1..], w);
    }
  }

  /** White space added around a text does not change what `trim()` gives. */
  lemma TrimIgnoresPadding(w1: string, s: string, w2: string)
    requires AllSpace(w1) && AllSpace(w2)
    ensures Trim(w1 + s + w2) == Trim(s)
  {
    assert w1 + s + w2 == w1 + (s + w2);
    TrimStartSkipsSpace(w1, s + w2);
    if AllSpace(s) {
      assert AllSpace(s + w2);
      assert TrimStart(s + w2) == [];
      assert TrimStart(s) == [];
    } else {
      TrimStartKeepsTail(s, w2);
      TrimEndSkipsSpace(TrimStart(s), w2);
    }
  }

  // ---------------------------------------------------------------------------
  // ASCII case and toUpperCase()

  function LowerAsciiChar(c: char): char {
    if 'A' <= c <= 'Z' then (c as int + 32) as char else c
  }

  /** Folds ASCII upper-case letters to lower case; two texts that agree
      after folding differ only in the case of ASCII letters. */
  function LowerAscii(s: string): (r: string)
    ensures |r| == |s|
    ensures forall i :: 0 <= i < |s| ==> r[i] == LowerAsciiChar(s[i])
  {
    if s == [] then [] else [LowerAsciiChar(s[0])] + LowerAscii(s[1..])
  }

  /** `toUpperCase()` of one code point, for every code point whose
      upper-case form begins with an ASCII letter; any other code point is
      kept as it is. */
  function UpperOf(c: char): string {
    if 'a' <= c <= 'z' then [(c as int - 32) as char]
    else if c == '\U{131}' then "I"                  // dotless i
    else if c == '\U{17F}' then "S"                  // long s
    else if c == '\U{DF}' then "SS"                  // sharp s
    else if c == '\U{1F0}' then "J\U{30C}"
    else if c == '\U{1E96}' then "H\U{331}"
    else if c == '\U{1E97}' then "T\U{308}"
    else if c == '\U{1E98}' then "W\U{30A}"
    else if c == '\U{1E99}' then "Y\U{30A}"
    else if c == '\U{1E9A}' then "A\U{2BE}"
    else if c == '\U{FB00}' then "FF"
    else if c == '\U{FB01}' then "FI"
    else if c == '\U{FB02}' then "FL"
    else if c == '\U{FB03}' then "FFI"
    else if c == '\U{FB04}' then "FFL"
    else if c == '\U{FB05}' || c == '\U{FB06}' then "ST"
    else [c]
  }

  function Upper(s: string): string {
    if s == [] then [] else UpperOf(s[0]) + Upper(s[1..])
  }

  lemma {:induction false} UpperConcat(a: string, b: string)
    ensures Upper(a + b) == Upper(a) + Upper(b)
    decreases |a|
  {
    if a == [] {
      assert a + b == b;
    } else {
      assert (a + b)[1..] == a[1..] + b;
      UpperConcat(a[1..], b);
    }
  }

  /** Upper-casing forgets the ASCII case of its input. */
  lemma {:induction false} UpperIgnoresAsciiCase(s: string)
    ensures Upper(LowerAscii(s)) == Upper(s)
    decreases |s|
  {
    if s != [] {
      assert LowerAscii(s)[1..] == LowerAscii(s[1..]);
      assert UpperOf(LowerAsciiChar(s[0])) == UpperOf(s[0]);
      UpperIgnoresAsciiCase(s[1..]);
    }
  }

  /** A text of ASCII capitals is its own upper case. */
  lemma {:induction false} UpperOfCapitals(s: string)
    requires forall i :: 0 <= i < |s| ==> 'A' <= s[i] <= 'Z'
    ensures Upper(s) == s
    decreases |s|
  {
    if s != [] {
      UpperOfCapitals(s[1..]);
    }
  }

  lemma LowerKeepsSpace(c: char)
    ensures IsSpace(LowerAsciiChar(c)) == IsSpace(c)
  {
    if 'A' <= c <= 'Z' {
      assert 'a' <= LowerAsciiChar(c) <= 'z';
    }
  }

  lemma {:induction false} TrimStartCommutesWithLower(s: string)
    ensures TrimStart(LowerAscii(s)) == LowerAscii(TrimStart(s))
    decreases |s|
  {
    if s != [] {
      var l := LowerAscii(s);
      assert l[1..] == LowerAscii(s[1..]);
      LowerKeepsSpace(s[0]);
      if IsSpace(s[0]) {
        assert TrimStart(l) == TrimStart(l[1..]);
        assert TrimStart(s) == TrimStart(s[1..]);
        TrimStartCommutesWithLower(s[1..]);
      } else {
        assert TrimStart(l) == l;
        assert TrimStart(s) == s;
      }
    }
  }

  lemma {:induction false} TrimEndCommutesWithLower(s: string)
    ensures TrimEnd(LowerAscii(s)) == LowerAscii(TrimEnd(s))
    decreases |s|
  {
    if s != [] {
      var l := LowerAscii(s);
      var n := |s| - 1;
      assert l[..n] == LowerAscii(s[..n]);
      LowerKeepsSpace(s[n]);
      if IsSpace(s[n]) {
        assert TrimEnd(l) == TrimEnd(l[..n]);
        assert TrimEnd(s) == TrimEnd(s[..n]);
        TrimEndCommutesWithLower(s[..n]);
      } else {
        assert TrimEnd(l) == l;
        assert TrimEnd(s) == s;
      }
    }
  }

  /** Folding ASCII case never turns white space into text or back, so it
      commutes with `trim()`. */
  lemma TrimCommutesWithLower(s: string)
    ensures Trim(LowerAscii(s)) == LowerAscii(Trim(s))
  {
    TrimStartCommutesWithLower(s);
    TrimEndCommutesWithLower(TrimStart(s));
  }

  // ---------------------------------------------------------------------------
  // includes()

  predicate OccursAt(p: string, s: string, i: int) {
    0 <= i && i + |p| <= |s| && s[i..i + |p|] == p
  }

  /** p occurs somewhere in s, with exact (case-sensitive) characters. */
  ghost predicate Occurs(p: string, s: string) {
    exists i :: OccursAt(p, s, i)
  }

  lemma OccursInTail(p: string, s: string)
    requires |p| <= |s| && s[..|p|] != p
    ensures Occurs(p, s) <==> Occurs(p, s[1..])
  {
    if Occurs(p, s) {
      var i :| OccursAt(p, s, i);
      assert i != 0;
      assert OccursAt(p, s[1..], i - 1) by {
        assert s[1..][i - 1..i - 1 + |p|] == s[i..i + |p|];
      }
    }
    if Occurs(p, s[1..]) {
      var i :| OccursAt(p, s[1..], i);
      assert OccursAt(p, s, i + 1) by {
        assert s[1..][i..i + |p|] == s[i + 1..i + 1 + |p|];
      }
    }
  }

  /** `s.includes(p)`. */
  function Contains(s: string, p: string): (r: bool)
    ensures r <==> Occurs(p, s)
    decreases |s|
  {
    if |p| > |s| then
      assert forall i :: !OccursAt(p, s, i);
      false
    else if s[..|p|] == p then
      assert OccursAt(p, s, 0);
      true
    else
      OccursInTail(p, s);
      Contains(s[1..], p)
  }

  // ---------------------------------------------------------------------------
  // Regular-expression pieces

  /** End of the longest run, starting at j, of characters satisfying p: a
      greedy `\s+`, `\w+` or `\d+` consumes exactly s[j..RunEnd(p, s, j)]. */
  function RunEnd(p: char -> bool, s: string, j: nat): (e: nat)
    requires j <= |s|
    ensures j <= e <= |s|
    ensures forall k :: j <= k < e ==> p(s[k])
    ensures e == |s| || !p(s[e])
    decreases |s| - j
  {
    if j < |s| && p(s[j]) then RunEnd(p, s, j + 1) else j
  }

  /** The greedy run is the only run that cannot be extended. */
  lemma RunEndUnique(p: char -> bool, s: string, j: nat, e: nat)
    requires j <= e <= |s|
    requires forall k :: j <= k < e ==> p(s[k])
    requires e == |s| || !p(s[e])
    ensures RunEnd(p, s, j) == e
  {
  }

  /** The text at position i spells kw up to ASCII case: an ASCII keyword
      under the `i` flag (no `u` flag) matches only its ASCII case variants. */
  predicate MatchesAt(s: string, i: nat, kw: string) {
    i + |kw| <= |s| && LowerAscii(s[i..i + |kw|]) == LowerAscii(kw)
  }

  /** `kw\s+` then a maximal run of p, as a pattern `kw\s+(p+)` under the
      `i` flag sees it at i: kw spelled at i, white space from its end up to
      k (at least one character), and the run of p from k to e, which the
      text does not continue. */
  ghost predicate ClauseAt(s: string, i: nat, kw: string, k: nat, e: nat, p: char -> bool) {
    && MatchesAt(s, i, kw)
    && i + |kw| < k < e <= |s|
    && (forall j :: i + |kw| <= j < k ==> IsSpace(s[j]))
    && (forall j :: k <= j < e ==> p(s[j]))
    && (e == |s| || !p(s[e]))
  }

  /** The leftmost position at or after i where matcher m succeeds, with what
      it captured: how `String.prototype.match` without the `g` flag scans. */
  function FirstMatch<T>(m: (string, nat) -> Option<T>, s: string, i: nat): (r: Option<(nat, T)>)
    requires i <= |s|
    ensures r.Some? ==> i <= r.value.0 <= |s| && m(s, r.value.0) == Some(r.value.1)
    ensures r.Some? ==> forall k :: i <= k < r.value.0 ==> m(s, k) == None
    ensures r.None? ==> forall k :: i <= k <= |s| ==> m(s, k) == None
    decreases |s| - i
  {
    match m(s, i)
    case Some(v) => Some((i, v))
    case None => if i == |s| then None else FirstMatch(m, s, i + 1)
  }

  /** A match at j with no match between i and j is the one the scan finds. */
  lemma FirstMatchAt<T>(m: (string, nat) -> Option<T>, s: string, i: nat, j: nat, v: T)
    requires i <= j <= |s|
    requires forall k :: i <= k < j ==> m(s, k) == None
    requires m(s, j) == Some(v)
    ensures FirstMatch(m, s, i) == Some((j, v))
  {
  }

  // ---------------------------------------------------------------------------
  // parseInt of a digit run

  function DigitValue(c: char): nat
    requires IsDigit(c)
  {
    c as int - '0' as int
  }

  /** `parseInt` of a non-empty run of decimal digits. */
  function DecimalValue(ds: string): nat
    requires AllDigits(ds)
  {
    if ds == [] then 0 else 10 * DecimalValue(ds[..|ds| - 1]) + DigitValue(ds[|ds| - 1])
  }

  /** The decimal numeral of n, as `String(n)` writes it. */
  function DecimalDigits(n: nat): (ds: string)
    ensures |ds| > 0 && AllDigits(ds)
  {
    if n < 10 then [('0' as int + n) as char]
    else DecimalDigits(n / 10) + [('0' as int + n % 10) as char]
  }

  lemma {:induction false} DecimalRoundTrip(n: nat)
    ensures DecimalValue(DecimalDigits(n)) == n
  {
    if n >= 10 {
      var ds := DecimalDigits(n);
      assert ds[..|ds| - 1] == DecimalDigits(n / 10);
      DecimalRoundTrip(n / 10);
    }
  }

  // ---------------------------------------------------------------------------
  // replace(/c/g, '')

  /** Every occurrence of c removed; all other characters kept. */
  function RemoveAll(s: string, c: char): (r: string)
    ensures c !in r
    ensures forall d :: d != c ==> multiset(r)[d] == multiset(s)[d]
  {
    if s == [] then []
    else
      assert s == [s[0]] + s[1..];
      (if s[0] == c then [] else [s[0]]) + RemoveAll(s[1..], c)
  }

  /** a can be obtained from b by deleting characters. */
  predicate IsSubsequence(a: string, b: string)
    decreases |b|
  {
    if a == [] then true
    else if b == [] then false
    else if a[0] == b[0] then IsSubsequence(a[1..], b[1..])
    else IsSubsequence(a, b[1..])
  }

  /** Removing c keeps the remaining characters in their order. */
  lemma {:induction false} RemoveAllKeepsOrder(s: string, c: char)
    ensures IsSubsequence(RemoveAll(s, c), s)
    decreases |s|
  {
    if s != [] {
      RemoveAllKeepsOrder(s[1..], c);
      if s[0] != c {
        assert RemoveAll(s, c) == [s[0]] + RemoveAll(s[1..], c);
        assert RemoveAll(s, c)[1..] == RemoveAll(s[1..], c);
      } else {
        var r := RemoveAll(s[1..], c);
        assert RemoveAll(s, c) == r;
        if r != [] {
          assert r[0] != s[0] by { assert r[0] in r; }
        }
      }
    }
  }

  // ---------------------------------------------------------------------------
  // Splitting a text at a separator (how a comma-separated filter list reads)

  function SplitOn(s: string, c: char): (parts: seq<string>)
    ensures |parts| > 0
    ensures forall k :: 0 <= k < |parts| ==> c !in parts[k]
  {
    if s == [] then [[]]
    else
      var rest := SplitOn(s[1..], c);
      if s[0] == c then [[]] + rest
      else [[s[0]] + rest[0]] + rest[1..]
  }

  /** There is one part more than there are separators. */
  lemma {:induction false} SplitOnCount(s: string, c: char)
    ensures |SplitOn(s, c)| == multiset(s)[c] + 1
    decreases |s|
  {
    if s != [] {
      SplitOnCount(s[1..], c);
      assert s == [s[0]] + s[1..];
    }
  }

  function Join(parts: seq<string>, c: char): string
    requires |parts| > 0
  {
    if |parts| == 1 then parts[0] else parts[0] + [c] + Join(parts[1..], c)
  }

  /** Prepending a character to the first part prepends it to the join. */
  lemma JoinPrepend(x: char, parts: seq<string>, c: char)
    requires |parts| > 0
    ensures Join([[x] + parts[0]] + parts[1..], c) == [x] + Join(parts, c)
  {
    var q := [[x] + parts[0]] + parts[1..];
    if |parts| > 1 {
      assert q[1..] == parts[1..];
    }
  }

  /** Splitting loses nothing: joining the parts back gives the text. */
  lemma {:induction false} JoinSplitOn(s: string, c: char)
    ensures Join(SplitOn(s, c), c) == s
    decreases |s|
  {
    if s != [] {
      JoinSplitOn(s[1..], c);
      var rest := SplitOn(s[1..], c);
      if s[0] == c {
        assert ([[]] + rest)[1..] == rest;
      } else {
        JoinPrepend(s[0], rest, c);
      }
      assert [s[0]] + s[1..] == s;
    }
  }

  /** A separator-free head is split off as one part. */
  lemma {:induction false} SplitOnAfterHead(a: string, c: char, b: string)
    requires c !in a
    ensures SplitOn(a + [c] + b, c) == [a] + SplitOn(b, c)
    decreases |a|
  {
    if a == [] {
      assert a + [c] + b == [c] + b;
      assert ([c] + b)[1..] == b;
    } else {
      var t := a[1..] + [c] + b;
      assert a + [c] + b == [a[0]] + t;
      SplitOnAfterHead(a[1..], c, b);
      SplitOnCons(a[0], t, c);
      assert [a[0]] + a[1..] == a;
    }
  }

  /** A character other than the separator joins the first part. */
  lemma SplitOnCons(x: char, t: string, c: char)
    requires x != c
    ensures SplitOn([x] + t, c) == [[x] + SplitOn(t, c)[0]] + SplitOn(t, c)[1..]
  {
    assert ([x] + t)[1..] == t;
  }

  lemma {:induction false} SplitOnWithout(a: string, c: char)
    requires c !in a
    ensures SplitOn(a, c) == [a]
    decreases |a|
  {
    if a != [] {
      SplitOnWithout(a[1..], c);
      assert [a[0]] + a[1..] == a;
    }
  }
}
