/**
 * String helpers with the JavaScript semantics the dashboard relies on:
 * `trim`, `toLowerCase` (ASCII part), `startsWith`, `includes`,
 * `split(',')`, `join`, `localeCompare` (as plain code-point order) and
 * the regular-expression word-character class `\w`.
 */
module Text {

  /** A code point that `String.prototype.trim` removes: the WhiteSpace and
      LineTerminator productions of ECMA-262 (sections 12.2 and 12.3). */
  predicate IsSpace(c: char) {
    || c == '\t' || c == '\n' || c == '\U{B}' || c == '\U{C}' || c == '\r' || c == ' '
    || c == '\U{A0}' || c == '\U{1680}' || ('\U{2000}' <= c <= '\U{200A}')
    || c == '\U{2028}' || c == '\U{2029}' || c == '\U{202F}' || c == '\U{205F}'
    || c == '\U{3000}' || c == '\U{FEFF}'
  }

  predicate AllSpace(s: string) {
    forall i :: 0 <= i < |s| ==> IsSpace(s[i])
  }

  /** Neither end of `s` is whitespace: what `trim` returns. */
  predicate IsTrimmed(s: string) {
    s == [] || (!IsSpace(s[0]) && !IsSpace(s[|s| - 1]))
  }

  /** Number of leading whitespace code points. */
  function LeadingSpaces(s: string): (n: nat)
    ensures n <= |s|
    ensures forall i :: 0 <= i < n ==> IsSpace(s[i])
    ensures n == |s| || !IsSpace(s[n])
    decreases |s|
  {
    if s != [] && IsSpace(s[0]) then 1 + LeadingSpaces(s[1..]) else 0
  }

  /** Length of `s` without its trailing whitespace. */
  function EndOfText(s: string): (n: nat)
    ensures n <= |s|
    ensures forall i :: n <= i < |s| ==> IsSpace(s[i])
    ensures n == 0 || !IsSpace(s[n - 1])
    decreases |s|
  {
    if s != [] && IsSpace(s[|s| - 1]) then EndOfText(s[..|s| - 1]) else |s|
  }

  /** `String.prototype.trim`: the slice of `s` that is trimmed and is
      surrounded only by whitespace. */
  function Trim(s: string): (r: string)
    ensures IsTrimmed(r)
    ensures exists i :: 0 <= i <= |s| - |r| && r == s[i..i + |r|] && AllSpace(s[..i]) && AllSpace(s[i + |r|..])
  {
    var i := LeadingSpaces(s);
    var j := i + EndOfText(s[i..]);
    var r := s[i..j];
    assert AllSpace(s[..i]);
    assert AllSpace(s[j..]) by {
      forall k | j <= k < |s| ensures IsSpace(s[k]) {
        assert s[k] == s[i..][k - i];
      }
    }
    assert r != [] ==> r[0] == s[i] && r[|r| - 1] == s[i..][j - i - 1];
    assert r == s[i..i + |r|];
    r
  }

  lemma {:induction false} TrimOfTrimmed(s: string)
    requires IsTrimmed(s)
    ensures Trim(s) == s
  {
    assert LeadingSpaces(s) == 0;
    assert s[0..] == s;
    assert EndOfText(s) == |s|;
  }

  lemma {:induction false} LeadingSpacesPadded(w: string, t: string)
    requires AllSpace(w)
    ensures LeadingSpaces(w + t) == |w| + LeadingSpaces(t)
    decreases |w|
  {
    if w != [] {
      assert (w + t)[1..] == w[1..] + t;
      LeadingSpacesPadded(w[1..], t);
    } else {
      assert w + t == t;
    }
  }

  /** `trim` keeps the slice between the leading and the trailing whitespace. */
  lemma TrimSlice(s: string)
    ensures var i := LeadingSpaces(s); Trim(s) == s[i..i + EndOfText(s[i..])]
  {
  }

  /** Padding a trimmed string with whitespace on the left is undone by `trim`. */
  lemma {:induction false} TrimPadded(w: string, t: string)
    requires AllSpace(w) && IsTrimmed(t)
    ensures Trim(w + t) == t
  {
    var s := w + t;
    assert LeadingSpaces(s) == |w| by {
      LeadingSpacesPadded(w, t);
      assert LeadingSpaces(t) == 0;
    }
    assert EndOfText(s[|w|..]) == |t| by {
      assert s[|w|..] == t;
    }
    TrimSlice(s);
    assert s[|w|..|w| + |t|] == t;
  }

  /** ASCII part of `toLowerCase`; other code points are left as they are. */
  function LowerChar(c: char): char {
    if 'A' <= c <= 'Z' then (c as int + 32) as char else c
  }

  function Lower(s: string): (r: string)
    ensures |r| == |s|
    ensures forall i :: 0 <= i < |s| ==> r[i] == LowerChar(s[i])
  {
    seq(|s|, i requires 0 <= i < |s| => LowerChar(s[i]))
  }

  /** The character class `\w` of a regular expression without the `u` flag. */
  predicate IsWordChar(c: char) {
    ('a' <= c <= 'z') || ('A' <= c <= 'Z') || ('0' <= c <= '9') || c == '_'
  }

  predicate StartsWith(s: string, p: string) {
    |p| <= |s| && s[..|p|] == p
  }

  predicate EndsWith(s: string, p: string) {
    |p| <= |s| && s[|s| - |p|..] == p
  }

  /** `needle` occurs in `hay` starting at index `k`. */
  ghost predicate OccursAt(hay: string, needle: string, k: int) {
    0 <= k && k + |needle| <= |hay| && hay[k..k + |needle|] == needle
  }

  ghost predicate Contains(hay: string, needle: string) {
    exists k :: OccursAt(hay, needle, k)
  }

  /** Scans for an occurrence at index `k` or later. */
  function IncludesFrom(hay: string, needle: string, k: nat): (r: bool)
    ensures r <==> exists j :: k <= j && OccursAt(hay, needle, j)
    decreases |hay| - k
  {
    if k + |needle| > |hay| then false
    else if hay[k..k + |needle|] == needle then
      assert OccursAt(hay, needle, k);
      true
    else
      var r := IncludesFrom(hay, needle, k + 1);
      assert !OccursAt(hay, needle, k);
      assert (exists j :: k <= j && OccursAt(hay, needle, j)) ==> (exists j :: k + 1 <= j && OccursAt(hay, needle, j));
      r
  }

  /** `String.prototype.includes`. */
  function Includes(hay: string, needle: string): (r: bool)
    ensures r <==> Contains(hay, needle)
  {
    IncludesFrom(hay, needle, 0)
  }

  /** Lexicographic code-point order, standing in for `localeCompare`:
      negative, zero or positive as `a` sorts before, with or after `b`. */
  function StrCompare(a: string, b: string): (r: int)
    ensures -1 <= r <= 1
    ensures r == 0 <==> a == b
    ensures StartsWith(b, a) && a != b ==> r < 0
    decreases |a|
  {
    if a == [] && b == [] then 0
    else if a == [] then -1
    else if b == [] then 1
    else if a[0] < b[0] then -1
    else if a[0] > b[0] then 1
    else StrCompare(a[1..], b[1..])
  }

  lemma {:induction false} StrCompareAntisymmetric(a: string, b: string)
    ensures StrCompare(a, b) == -StrCompare(b, a)
    ensures StrCompare(a, b) == 0 ==> a == b
    decreases |a|
  {
    if a != [] && b != [] && a[0] == b[0] {
      StrCompareAntisymmetric(a[1..], b[1..]);
      if StrCompare(a, b) == 0 {
        assert a == [a[0]] + a[1..];
        assert b == [b[0]] + b[1..];
      }
    }
  }

  lemma {:induction false} StrCompareTransitive(a: string, b: string, c: string)
    requires StrCompare(a, b) <= 0 && StrCompare(b, c) <= 0
    ensures StrCompare(a, c) <= 0
    decreases |a|
  {
    if a != [] && b != [] && c != [] && a[0] == b[0] == c[0] {
      StrCompareTransitive(a[1..], b[1..], c[1..]);
    }
  }

  /** `s.split(',')`: the pieces between commas, in order; there is always at
      least one piece, and none contains a comma. */
  function SplitComma(s: string): (r: seq<string>)
    ensures |r| >= 1
    ensures forall i :: 0 <= i < |r| ==> ',' !in r[i]
    decreases |s|
  {
    if s == [] then [""]
    else
      var rest := SplitComma(s[1..]);
      if s[0] == ',' then [""] + rest
      else [[s[0]] + rest[0]] + rest[1..]
  }

  /** `parts.join(sep)`. */
  function Join(parts: seq<string>, sep: string): string
    decreases |parts|
  {
    if parts == [] then ""
    else if |parts| == 1 then parts[0]
    else parts[0] + sep + Join(parts[1..], sep)
  }

  /** A join of no parts is empty; otherwise it starts with the first part
      and ends with the last. */
  lemma {:induction false} JoinEnds(parts: seq<string>, sep: string)
    ensures parts == [] ==> Join(parts, sep) == ""
    ensures |parts| >= 1 ==> StartsWith(Join(parts, sep), parts[0])
    ensures |parts| >= 1 ==> EndsWith(Join(parts, sep), parts[|parts| - 1])
    decreases |parts|
  {
    if |parts| >= 2 {
      JoinEnds(parts[1..], sep);
      var j := Join(parts[1..], sep);
      var last := parts[|parts| - 1];
      assert parts[1..][|parts[1..]| - 1] == last;
      assert (parts[0] + sep + j)[..|parts[0]|] == parts[0];
      assert (parts[0] + sep + j)[|parts[0] + sep + j| - |last|..] == j[|j| - |last|..];
    }
  }

  /** Splitting on commas and joining with a comma give back the input. */
  lemma {:induction false} JoinSplitComma(s: string)
    ensures Join(SplitComma(s), ",") == s
    decreases |s|
  {
    if s != [] {
      var rest := SplitComma(s[1..]);
      JoinSplitComma(s[1..]);
      if s[0] == ',' {
        assert s == "," + s[1..];
      } else {
        assert s == [s[0]] + s[1..];
        if |rest| > 1 {
          assert rest == [rest[0]] + rest[1..];
        }
      }
    }
  }

  lemma {:induction false} SplitNoComma(a: string)
    requires ',' !in a
    ensures SplitComma(a) == [a]
    decreases |a|
  {
    if a != [] {
      assert a[0] != ',' && a == [a[0]] + a[1..];
      SplitNoComma(a[1..]);
    }
  }

  lemma {:induction false} SplitAfterPiece(a: string, rest: string)
    requires ',' !in a
    ensures SplitComma(a + "," + rest) == [a] + SplitComma(rest)
    decreases |a|
  {
    if a == [] {
      assert a + "," + rest == "," + rest;
      assert ("," + rest)[1..] == rest;
    } else {
      assert a[0] != ',';
      assert (a + "," + rest)[1..] == a[1..] + "," + rest;
      SplitAfterPiece(a[1..], rest);
      assert [a[0]] + a[1..] == a;
    }
  }

  /** Prefixes every piece after the first with `w`: how the pieces of a
      string joined with `"," + w` come back from `split(',')`. */
  function PadTail(parts: seq<string>, w: string): (r: seq<string>)
    requires |parts| >= 1
    ensures |r| == |parts| && r[0] == parts[0]
    ensures forall i :: 1 <= i < |parts| ==> r[i] == w + parts[i]
  {
    [parts[0]] + seq(|parts| - 1, i requires 0 <= i < |parts| - 1 => w + parts[i + 1])
  }

  /** Splitting a string joined with a separator `"," + w` gives back each
      piece, the later ones preceded by `w`. */
  lemma {:induction false} SplitJoin(parts: seq<string>, w: string)
    requires |parts| >= 1
    requires ',' !in w
    requires forall i :: 0 <= i < |parts| ==> ',' !in parts[i]
    ensures SplitComma(Join(parts, "," + w)) == PadTail(parts, w)
    decreases |parts|
  {
    if |parts| == 1 {
      SplitNoComma(parts[0]);
    } else {
      SplitJoin(parts[1..], w);
      SplitJoinStep(parts, w);
    }
  }

  /** The step of `SplitJoin`: from the split of the tail to that of the whole. */
  lemma SplitJoinStep(parts: seq<string>, w: string)
    requires |parts| >= 2
    requires ',' !in w && ',' !in parts[0]
    requires SplitComma(Join(parts[1..], "," + w)) == PadTail(parts[1..], w)
    ensures SplitComma(Join(parts, "," + w)) == PadTail(parts, w)
  {
    var tail := parts[1..];
    var j := Join(tail, "," + w);
    var pt := PadTail(tail, w);
    assert Join(parts, "," + w) == parts[0] + "," + (w + j);
    SplitAfterPadded(parts[0], w, j);
    PadTailCons(parts, w);
  }

  /** A comma-free piece, a comma and a comma-free pad in front of `j`
      split into the piece and the pieces of `j`, the first one padded. */
  lemma SplitAfterPadded(a: string, w: string, j: string)
    requires ',' !in a && ',' !in w
    ensures SplitComma(a + "," + (w + j)) == [a] + ([w + SplitComma(j)[0]] + SplitComma(j)[1..])
  {
    SplitAfterPiece(a, w + j);
    PrefixFirstPiece(w, j);
  }

  lemma PadTailCons(parts: seq<string>, w: string)
    requires |parts| >= 2
    ensures var pt := PadTail(parts[1..], w); PadTail(parts, w) == [parts[0]] + ([w + pt[0]] + pt[1..])
  {
    var pt := PadTail(parts[1..], w);
    var a, b := PadTail(parts, w), [parts[0]] + ([w + pt[0]] + pt[1..]);
    assert |a| == |b|;
    forall k | 0 <= k < |a| ensures a[k] == b[k] {
      if k == 1 {
        assert b[1] == w + pt[0] && pt[0] == parts[1..][0];
      } else if k >= 2 {
        assert b[k] == pt[k - 1] == w + parts[1..][k - 1];
      }
    }
  }

  lemma {:induction false} PrefixFirstPiece(w: string, s: string)
    requires ',' !in w
    ensures SplitComma(w + s) == [w + SplitComma(s)[0]] + SplitComma(s)[1..]
    decreases |w|
  {
    if w != [] {
      assert (w + s)[1..] == w[1..] + s;
      PrefixFirstPiece(w[1..], s);
      assert w[0] != ',';
      assert [w[0]] + (w[1..] + SplitComma(s)[0]) == w + SplitComma(s)[0];
    } else {
      var p := SplitComma(s);
      assert w + s == s;
      assert w + p[0] == p[0];
      assert p == [p[0]] + p[1..];
    }
  }
}
