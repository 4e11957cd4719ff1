/**
 * The few JavaScript built-ins the site's validators and helpers rely on:
 * `undefined`/`null` as an option, `slice(0, n)`/`substring(0, n)`,
 * `String.prototype.trim`, `toLowerCase`, `toUpperCase` and `join('')`.
 */
module Js {

  /** A request field or lookup that may be `undefined` or `null` (None). */
  datatype Option<+T> = None | Some(value: T)

  function Min(a: int, b: int): int { if a <= b then a else b }

  /** `xs.slice(0, n)` on arrays and `s.substring(0, n)` on strings: the first n elements, or all of them. */
  function Take<T>(xs: seq<T>, n: nat): (r: seq<T>)
    ensures |r| == Min(|xs|, n)
    ensures forall i :: 0 <= i < |r| ==> r[i] == xs[i]
  {
    if |xs| <= n then xs else xs[..n]
  }

  /**
   * The characters `trim` removes: ECMAScript's WhiteSpace (tab, vertical tab,
   * form feed, space, no-break space, byte order mark and the other Zs
   * characters) and LineTerminator (line feed, carriage return, U+2028, U+2029).
   */
  predicate IsWhiteSpace(c: char) {
    ('\t' <= c <= '\r') || c == ' ' || c == '\U{A0}' || c == '\U{1680}'
    || ('\U{2000}' <= c <= '\U{200A}') || c == '\U{2028}' || c == '\U{2029}'
    || c == '\U{202F}' || c == '\U{205F}' || c == '\U{3000}' || c == '\U{FEFF}'
  }

  predicate AllWhiteSpace(s: string) {
    forall k :: 0 <= k < |s| ==> IsWhiteSpace(s[k])
  }

  /** No white space at either end (what `trim` leaves behind). */
  predicate Unpadded(s: string) {
    s == [] || (!IsWhiteSpace(s[0]) && !IsWhiteSpace(s[|s| - 1]))
  }

  /** How many white-space characters `s` starts with. */
  function LeadingWhiteSpace(s: string): (n: nat)
    ensures n <= |s|
    ensures forall k :: 0 <= k < n ==> IsWhiteSpace(s[k])
    ensures n == |s| || !IsWhiteSpace(s[n])
    decreases |s|
  {
    if |s| > 0 && IsWhiteSpace(s[0]) then 1 + LeadingWhiteSpace(s[1..]) else 0
  }

  /** How many white-space characters `s` ends with. */
  function TrailingWhiteSpace(s: string): (n: nat)
    ensures n <= |s|
    ensures forall k :: |s| - n <= k < |s| ==> IsWhiteSpace(s[k])
    ensures n == |s| || !IsWhiteSpace(s[|s| - 1 - n])
    decreases |s|
  {
    if |s| > 0 && IsWhiteSpace(s[|s| - 1]) then 1 + TrailingWhiteSpace(s[..|s| - 1]) else 0
  }

  /** `s` is `r` with only white space before it (the first `i` characters) and after it. */
  predicate IsPaddedBy(s: string, i: int, r: string) {
    && 0 <= i <= |s| - |r| && r == s[i..i + |r|]
    && (forall k :: 0 <= k < i ==> IsWhiteSpace(s[k]))
    && (forall k :: i + |r| <= k < |s| ==> IsWhiteSpace(s[k]))
  }

  /** `s.trim()`: `s` without its leading and trailing white space. */
  function Trim(s: string): (r: string)
    ensures IsPaddedBy(s, LeadingWhiteSpace(s), r)
    ensures Unpadded(r)
    ensures r == [] <==> AllWhiteSpace(s)
  {
    var i := LeadingWhiteSpace(s);
    if i == |s| then []
    else
      var n := TrailingWhiteSpace(s);
      assert i < |s| - n;
      s[i..|s| - n]
  }

  /** At most one non-empty infix with no white space at its ends has only white space around it. */
  lemma PaddedUnique(s: string, i: int, r: string, j: int, q: string)
    requires IsPaddedBy(s, i, r) && Unpadded(r) && r != []
    requires IsPaddedBy(s, j, q) && Unpadded(q) && q != []
    ensures r == q
  {
    assert s[i] == r[0] && s[j] == q[0];
    assert i == j;
    assert s[i + |r| - 1] == r[|r| - 1] && s[j + |q| - 1] == q[|q| - 1];
  }

  /** A string that already has no white space at its ends is left as it is by `trim`. */
  lemma TrimUnpadded(s: string)
    requires Unpadded(s)
    ensures Trim(s) == s
  {
    if s != [] {
      assert !AllWhiteSpace(s);
      assert IsPaddedBy(s, 0, s);
      PaddedUnique(s, LeadingWhiteSpace(s), Trim(s), 0, s);
    }
  }

  /** White space added on both sides keeps what was inside padded. */
  lemma PaddedByShift(front: string, s: string, back: string, i: int, r: string)
    requires AllWhiteSpace(front) && AllWhiteSpace(back) && IsPaddedBy(s, i, r)
    ensures IsPaddedBy(front + s + back, |front| + i, r)
  {
    var padded := front + s + back;
    forall k | |front| <= k < |front| + |s| ensures padded[k] == s[k - |front|] {}
    assert padded[|front| + i..|front| + i + |r|] == s[i..i + |r|];
  }

  /** Padding `s` with white space on either side does not change what `trim` returns. */
  lemma TrimIgnoresPadding(front: string, s: string, back: string)
    requires AllWhiteSpace(front) && AllWhiteSpace(back)
    ensures Trim(front + s + back) == Trim(s)
  {
    var padded := front + s + back;
    var r, i := Trim(s), LeadingWhiteSpace(s);
    if r == [] {
      forall k | 0 <= k < |padded| ensures IsWhiteSpace(padded[k]) {
        if |front| <= k < |front| + |s| { assert padded[k] == s[k - |front|]; }
      }
    } else {
      PaddedByShift(front, s, back, i, r);
      assert padded[|front| + i] == r[0];
      PaddedUnique(padded, LeadingWhiteSpace(padded), Trim(padded), |front| + i, r);
    }
  }

  /** Every string is its trimmed core with white space on either side. */
  lemma TrimSplit(s: string) returns (front: string, back: string)
    ensures AllWhiteSpace(front) && AllWhiteSpace(back)
    ensures s == front + Trim(s) + back
  {
    var i, t := LeadingWhiteSpace(s), Trim(s);
    front, back := s[..i], s[i + |t|..];
    assert s == front + t + back;
  }

  predicate IsUpperAscii(c: char) { 'A' <= c <= 'Z' }
  predicate IsLowerAscii(c: char) { 'a' <= c <= 'z' }

  function LowerChar(c: char): (d: char)
    ensures !IsUpperAscii(d)
    ensures IsWhiteSpace(d) <==> IsWhiteSpace(c)
  {
    if IsUpperAscii(c) then (c as int + 32) as char else c
  }

  function UpperChar(c: char): (d: char)
    ensures !IsLowerAscii(d)
    ensures IsWhiteSpace(d) <==> IsWhiteSpace(c)
  {
    if IsLowerAscii(c) then (c as int - 32) as char else c
  }

  /** `s.toLowerCase()`, character by character (the ASCII letters only). */
  function ToLowerCase(s: string): (r: string)
    ensures |r| == |s|
    ensures forall k :: 0 <= k < |s| ==> r[k] == LowerChar(s[k])
  {
    seq(|s|, k requires 0 <= k < |s| => LowerChar(s[k]))
  }

  /** `s.toUpperCase()`, character by character (the ASCII letters only). */
  function ToUpperCase(s: string): (r: string)
    ensures |r| == |s|
    ensures forall k :: 0 <= k < |s| ==> r[k] == UpperChar(s[k])
  {
    seq(|s|, k requires 0 <= k < |s| => UpperChar(s[k]))
  }

  /** Lower-casing leaves nothing to lower-case, and keeps both ends free of white space. */
  lemma ToLowerCaseNormal(s: string)
    ensures forall k :: 0 <= k < |s| ==> !IsUpperAscii(ToLowerCase(s)[k])
    ensures ToLowerCase(ToLowerCase(s)) == ToLowerCase(s)
    ensures Unpadded(s) ==> Unpadded(ToLowerCase(s))
  {
  }

  lemma ToLowerCaseAppend(a: string, b: string)
    ensures ToLowerCase(a + b) == ToLowerCase(a) + ToLowerCase(b)
  {
    assert forall k :: |a| <= k < |a + b| ==> (a + b)[k] == b[k - |a|];
  }

  lemma ToLowerCaseKeepsWhiteSpace(s: string)
    requires AllWhiteSpace(s)
    ensures AllWhiteSpace(ToLowerCase(s))
  {
  }

  /** `parts.join('')`. */
  function Join(parts: seq<string>): (r: string)
    ensures parts == [] ==> r == []
    ensures |parts| == 1 ==> r == parts[0]
    decreases |parts|
  {
    if parts == [] then [] else parts[0] + Join(parts[1..])
  }

  /** Joining two arrays one after the other is joining each and concatenating. */
  lemma {:induction false} JoinAppend(a: seq<string>, b: seq<string>)
    ensures Join(a + b) == Join(a) + Join(b)
    decreases |a|
  {
    if a == [] {
      assert a + b == b;
    } else {
      assert (a + b)[1..] == a[1..] + b;
      JoinAppend(a[1..], b);
    }
  }
}
