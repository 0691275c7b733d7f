/**
 * The few Python `str` operations the command-line client relies on:
 * `isspace`/`strip`, ASCII `lower`, substring search (`in`, `index`,
 * `split(sep, 1)`), `split(sep)` and `endswith`.
 */
module Strings {
  import opened Wrappers

  /** `c.isspace()`: the characters CPython's Py_UNICODE_ISSPACE accepts.
      The same set is used by `str.strip()` and by `\s` in a `str` regex. */
  predicate IsSpace(c: char) {
    c == ' ' || ('\t' <= c <= '\r') || ('\U{1C}' <= c <= '\U{1F}')
    || c == '\U{85}' || c == '\U{A0}' || c == '\U{1680}'
    || ('\U{2000}' <= c <= '\U{200A}') || c == '\U{2028}' || c == '\U{2029}'
    || c == '\U{202F}' || c == '\U{205F}' || c == '\U{3000}'
  }

  /** Neither the first nor the last character of `s` is whitespace. */
  predicate NoOuterSpace(s: string) {
    s == [] || (!IsSpace(s[0]) && !IsSpace(s[|s| - 1]))
  }

  /** Number of leading whitespace characters. */
  function LeadingSpace(s: string): (n: nat)
    ensures n <= |s|
    ensures forall i :: 0 <= i < n ==> IsSpace(s[i])
    ensures n < |s| ==> !IsSpace(s[n])
  {
    if s == [] || !IsSpace(s[0]) then 0 else 1 + LeadingSpace(s[1..])
  }

  /** Number of trailing whitespace characters. */
  function TrailingSpace(s: string): (n: nat)
    ensures n <= |s|
    ensures forall i :: |s| - n <= i < |s| ==> IsSpace(s[i])
    ensures n < |s| ==> !IsSpace(s[|s| - 1 - n])
  {
    if s == [] || !IsSpace(s[|s| - 1]) then 0 else 1 + TrailingSpace(s[..|s| - 1])
  }

  /** `s.strip()`: drops leading, then trailing whitespace. */
  function Strip(s: string): (r: string)
    ensures NoOuterSpace(r)
    ensures |r| <= |s|
  {
    var t := s[LeadingSpace(s)..];
    t[..|t| - TrailingSpace(t)]
  }

  /** `strip()` keeps a slice of `s` with only whitespace outside it; with
      `NoOuterSpace` of the result, the removed runs are the longest ones. */
  lemma StripOuter(s: string) returns (i: nat)
    ensures i + |Strip(s)| <= |s| && Strip(s) == s[i..i + |Strip(s)|]
    ensures forall k :: 0 <= k < i ==> IsSpace(s[k])
    ensures forall k :: i + |Strip(s)| <= k < |s| ==> IsSpace(s[k])
  {
    i := LeadingSpace(s);
    var t := s[i..];
    var n := TrailingSpace(t);
    var r := Strip(s);
    assert r == t[..|t| - n];
    SliceOfSuffix(s, i, |t| - n);
    assert forall k :: i + |r| <= k < |s| ==> s[k] == t[k - i];
  }

  /** A prefix of a suffix is a slice. */
  lemma SliceOfSuffix(s: string, i: nat, m: nat)
    requires i + m <= |s|
    ensures s[i..][..m] == s[i..i + m]
  {
  }

  /** A string without outer whitespace is its own `strip()`. */
  lemma StripUnchanged(s: string)
    requires NoOuterSpace(s)
    ensures Strip(s) == s
  {
    assert LeadingSpace(s) == 0;
    assert s[0..] == s;
    assert TrailingSpace(s) == 0;
  }

  /** `strip()` is idempotent. */
  lemma StripIdempotent(s: string)
    ensures Strip(Strip(s)) == Strip(s)
  {
    StripUnchanged(Strip(s));
  }

  /** ASCII case folding of one character. */
  function LowerChar(c: char): (d: char)
    ensures 'A' <= c <= 'Z' ==> 'a' <= d <= 'z'
    ensures !('A' <= c <= 'Z') ==> d == c
  {
    if 'A' <= c <= 'Z' then (c as int - 'A' as int + 'a' as int) as char else c
  }

  /** `s.lower()`, restricted to ASCII letters. */
  function Lower(s: string): (r: string)
    ensures |r| == |s|
    ensures forall i :: 0 <= i < |s| ==> r[i] == LowerChar(s[i])
  {
    seq(|s|, i requires 0 <= i < |s| => LowerChar(s[i]))
  }

  /** Lower-casing twice is lower-casing once. */
  lemma LowerIdempotent(s: string)
    ensures Lower(Lower(s)) == Lower(s)
  {
  }

  /** `pat` occurs in `s` starting at index `i`. */
  predicate OccursAt(s: string, pat: string, i: int) {
    0 <= i <= |s| && pat <= s[i..]
  }

  /** `s.find(pat)`: the first index at which `pat` occurs, if any
      (`FindFirst` states that it is the first). */
  function Find(s: string, pat: string): (r: Option<nat>)
    ensures r.Some? ==> r.value + |pat| <= |s| && OccursAt(s, pat, r.value)
    decreases |s|
  {
    if pat <= s then Some(0)
    else if s == [] then None
    else
      match Find(s[1..], pat)
      case None => None
      case Some(i) =>
        assert s[i + 1..] == s[1..][i..];
        Some(i + 1)
  }

  /** `Find` answers the first occurrence, and `None` only when there is
      none. */
  lemma {:induction false} FindFirst(s: string, pat: string)
    ensures Find(s, pat).Some? ==> forall j :: 0 <= j < Find(s, pat).value ==> !OccursAt(s, pat, j)
    ensures Find(s, pat).None? ==> forall j :: 0 <= j <= |s| ==> !OccursAt(s, pat, j)
    decreases |s|
  {
    if !(pat <= s) && s != [] {
      FindFirst(s[1..], pat);
      forall j | 1 <= j <= |s|
        ensures OccursAt(s, pat, j) <==> OccursAt(s[1..], pat, j - 1)
      {
        assert s[j..] == s[1..][j - 1..];
      }
    }
  }

  /** `pat in s`. */
  predicate Contains(s: string, pat: string) {
    Find(s, pat).Some?
  }

  /** `s.split(sep, 1)[0]` when `sep in s`. */
  function Before(s: string, sep: string): (r: string)
    requires Contains(s, sep)
    ensures r + sep <= s
    ensures sep != [] ==> !Contains(r, sep)
  {
    var i := Find(s, sep).value;
    NothingBeforeFirst(s, sep, i);
    s[..i]
  }

  /** The text before the first occurrence of `sep` does not contain it. */
  lemma NothingBeforeFirst(s: string, sep: string, i: nat)
    requires Find(s, sep) == Some(i)
    ensures sep != [] ==> !Contains(s[..i], sep)
  {
    var r := s[..i];
    FindFirst(s, sep);
    if sep != [] && Contains(r, sep) {
      var j := Find(r, sep).value;
      OccursInPrefix(s, i, sep, j);
    }
  }

  /** An occurrence in a prefix of `s` is an occurrence in `s`. */
  lemma OccursInPrefix(s: string, n: nat, pat: string, j: int)
    requires n <= |s| && OccursAt(s[..n], pat, j) && j + |pat| <= n
    ensures OccursAt(s, pat, j)
  {
    assert s[..n][j..][..|pat|] == s[j..][..|pat|];
  }

  /** `s.split(sep, 1)[1]` when `sep in s`. */
  function After(s: string, sep: string): (r: string)
    requires Contains(s, sep)
    ensures Before(s, sep) + sep + r == s
  {
    var i := Find(s, sep).value;
    assert s[..i] + sep == s[..i + |sep|];
    s[i + |sep|..]
  }

  /** `c in s` for a single character. */
  lemma ContainsChar(s: string, c: char)
    ensures Contains(s, [c]) <==> c in s
  {
    FindFirst(s, [c]);
    if c in s {
      var i :| 0 <= i < |s| && s[i] == c;
      assert OccursAt(s, [c], i);
    }
    if Contains(s, [c]) {
      var i := Find(s, [c]).value;
      assert s[i] == c;
    }
  }

  /** Searching for `pat` in `a + b` when `a` holds no copy of `pat`'s
      first character: the search runs on into `b`. */
  lemma {:induction false} FindSkips(a: string, b: string, pat: string)
    requires pat != [] && pat[0] !in a
    ensures Find(a + b, pat).Some? <==> Find(b, pat).Some?
    ensures Find(b, pat).Some? ==> Find(a + b, pat).value == |a| + Find(b, pat).value
    decreases |a|
  {
    if a == [] {
      assert a + b == b;
    } else {
      var s := a + b;
      var t := a[1..] + b;
      assert s[0] == a[0];
      assert s[1..] == t;
      FindStep(s, pat);
      FindSkips(a[1..], b, pat);
      assert Find(s, pat).Some? <==> Find(t, pat).Some?;
    }
  }

  /** One step of the search: `pat` is not at the front of `s`. */
  lemma FindStep(s: string, pat: string)
    requires s != [] && pat != [] && s[0] != pat[0]
    ensures Find(s, pat).None? <==> Find(s[1..], pat).None?
    ensures Find(s, pat).Some? ==> Find(s, pat).value == Find(s[1..], pat).value + 1
  {
  }

  /** A string that holds `pat` is searched no further than itself. */
  lemma {:induction false} FindWithin(a: string, b: string, pat: string)
    requires Contains(a, pat)
    ensures Find(a + b, pat) == Find(a, pat)
    decreases |a|
  {
    if !(pat <= a) {
      var i := Find(a, pat).value;
      assert i != 0;
      assert !(pat <= a + b);
      assert (a + b)[1..] == a[1..] + b;
      FindWithin(a[1..], b, pat);
    }
  }

  /** Lower-casing works piece by piece. */
  lemma LowerConcat(a: string, b: string)
    ensures Lower(a + b) == Lower(a) + Lower(b)
  {
  }

  /** `pat` occurs in any `a + pat + b`. */
  lemma ContainsMiddle(s: string, a: string, pat: string, b: string)
    requires s == a + pat + b
    ensures Contains(s, pat)
  {
    FindFirst(s, pat);
    assert s[|a|..] == pat + b;
    assert OccursAt(s, pat, |a|);
  }

  /** A string that contains `a + b` contains `b`. */
  lemma ContainsPart(s: string, a: string, b: string)
    requires Contains(s, a + b)
    ensures Contains(s, b)
  {
    var i := Find(s, a + b).value;
    FindFirst(s, b);
    assert s[i + |a|..][..|b|] == (a + b)[|a|..];
    assert OccursAt(s, b, i + |a|);
  }

  /** A string without the first character of `pat` does not contain it. */
  lemma NotContains(s: string, pat: string)
    requires pat != [] && pat[0] !in s
    ensures !Contains(s, pat)
  {
    FindSkips(s, [], pat);
    assert s + [] == s;
  }

  /** `s.split(c)` for a one-character separator. */
  function Split(s: string, c: char): (r: seq<string>)
    ensures |r| >= 1
    ensures forall k :: 0 <= k < |r| ==> c !in r[k]
    decreases |s|
  {
    match Find(s, [c])
    case None =>
      ContainsChar(s, c);
      [s]
    case Some(i) =>
      ContainsChar(s[..i], c);
      assert !Contains(s[..i], [c]) by { assert s[..i] == Before(s, [c]); }
      [s[..i]] + Split(s[i + 1..], c)
  }

  /** `c.join(parts)`. */
  function Join(parts: seq<string>, c: char): (r: string)
    requires |parts| >= 1
    decreases |parts|
  {
    if |parts| == 1 then parts[0] else parts[0] + [c] + Join(parts[1..], c)
  }

  /** Splitting and joining again gives back the string. */
  lemma {:induction false} JoinSplit(s: string, c: char)
    ensures Join(Split(s, c), c) == s
    decreases |s|
  {
    match Find(s, [c])
    case None =>
      assert Split(s, c) == [s];
    case Some(i) =>
      var rest := s[i + 1..];
      var parts := Split(s, c);
      var tail := Split(rest, c);
      SplitStep(s, c, i);
      assert parts[0] == s[..i] && parts[1..] == tail;
      assert Join(parts, c) == s[..i] + [c] + Join(tail, c);
      JoinSplit(rest, c);
      assert s[..i] + [c] + rest == s;
  }

  /** Joining pieces that do not contain the separator and splitting again
      gives back the pieces. */
  lemma {:induction false} SplitJoin(parts: seq<string>, c: char)
    requires |parts| >= 1
    requires forall k :: 0 <= k < |parts| ==> c !in parts[k]
    ensures Split(Join(parts, c), c) == parts
    decreases |parts|
  {
    var s := Join(parts, c);
    if |parts| == 1 {
      ContainsChar(s, c);
    } else {
      var tail := Join(parts[1..], c);
      assert s == parts[0] + ([c] + tail);
      FindSkips(parts[0], [c] + tail, [c]);
      assert [c] <= [c] + tail;
      assert Find(s, [c]) == Some(|parts[0]|);
      assert s[..|parts[0]|] == parts[0];
      assert s[|parts[0]| + 1..] == tail;
      SplitJoin(parts[1..], c);
    }
  }

  /** `s.split(c)[-1]`, the text after the last `c` (`LastPieceOfSplit`). */
  function LastPiece(s: string, c: char): (r: string)
    decreases |s|
  {
    match Find(s, [c])
    case None => s
    case Some(i) => LastPiece(s[i + 1..], c)
  }

  /** `LastPiece` is the last element of `Split`. */
  lemma {:induction false} LastPieceOfSplit(s: string, c: char)
    ensures LastPiece(s, c) == Split(s, c)[|Split(s, c)| - 1]
    decreases |s|
  {
    match Find(s, [c])
    case None =>
    case Some(i) =>
      SplitLastStep(s, c, i);
      LastPieceOfSplit(s[i + 1..], c);
  }

  /** The last piece never holds the separator. */
  lemma LastPieceFree(s: string, c: char)
    ensures c !in LastPiece(s, c)
  {
    LastPieceOfSplit(s, c);
  }

  /** Past the first `c`, the last piece of the split is that of the rest. */
  lemma SplitLastStep(s: string, c: char, i: nat)
    requires Find(s, [c]) == Some(i)
    ensures Split(s, c)[|Split(s, c)| - 1] == Split(s[i + 1..], c)[|Split(s[i + 1..], c)| - 1]
  {
    SplitStep(s, c, i);
    var tail := Split(s[i + 1..], c);
    assert ([s[..i]] + tail)[|tail|] == tail[|tail| - 1];
  }

  /** The last piece of `s.split(c)` is the longest suffix of `s` free of
      `c`: it ends `s`, and whatever precedes it ends with `c`. */
  lemma {:induction false} SplitLast(s: string, c: char)
    ensures EndsWith(s, LastPiece(s, c))
    ensures |LastPiece(s, c)| < |s| ==> s[|s| - |LastPiece(s, c)| - 1] == c
    decreases |s|
  {
    match Find(s, [c])
    case None =>
      assert LastPiece(s, c) == s;
    case Some(i) =>
      var rest := s[i + 1..];
      FoundChar(s, c, i);
      SplitLast(rest, c);
      var last := LastPiece(rest, c);
      assert LastPiece(s, c) == last;
      SuffixOfRest(s, i + 1, last);
  }

  /** The index `Find` answers for a one-character pattern holds that
      character. */
  lemma FoundChar(s: string, c: char, i: nat)
    requires Find(s, [c]) == Some(i)
    ensures i < |s| && s[i] == c
  {
    assert [c] <= s[i..];
  }

  /** At the first `c`, the split is the piece before it followed by the
      split of the rest. */
  lemma SplitStep(s: string, c: char, i: nat)
    requires Find(s, [c]) == Some(i)
    ensures i < |s| && s[i] == c
    ensures Split(s, c) == [s[..i]] + Split(s[i + 1..], c)
  {
    assert [c] <= s[i..];
  }

  /** A suffix of `s[k..]` is a suffix of `s`, and what precedes it in
      `s[k..]` precedes it in `s` (or is `s[k - 1]` when it is all of
      `s[k..]`). */
  lemma SuffixOfRest(s: string, k: nat, t: string)
    requires 0 < k <= |s| && EndsWith(s[k..], t)
    ensures EndsWith(s, t)
    ensures |t| < |s| - k ==> s[|s| - |t| - 1] == s[k..][|s| - k - |t| - 1]
    ensures |t| == |s| - k ==> s[|s| - |t| - 1] == s[k - 1]
  {
    assert s[|s| - |t|..] == s[k..][|s| - k - |t|..];
  }



  /** `s.endswith(suffix)`. */
  predicate EndsWith(s: string, suffix: string) {
    |suffix| <= |s| && s[|s| - |suffix|..] == suffix
  }
}
