/** String helpers shared by both scripts: JavaScript's notion of white space,
    `trim`, prefix tests (exact and ASCII case-insensitive, as a regex with the
    `i` flag compares), character replacement, searching and decimal rendering. */
module Text {

  datatype Option<T> = None | Some(value: T)

  /** The characters that JavaScript's `\s` class and `String.prototype.trim` treat as white space. */
  predicate IsSpace(c: char) {
    c in SpaceChars
  }

  const SpaceChars: set<char> := {
    '\t', '\n', '\U{000B}', '\U{000C}', '\r', ' ', '\U{00A0}', '\U{1680}',
    '\U{2000}', '\U{2001}', '\U{2002}', '\U{2003}', '\U{2004}', '\U{2005}',
    '\U{2006}', '\U{2007}', '\U{2008}', '\U{2009}', '\U{200A}',
    '\U{2028}', '\U{2029}', '\U{202F}', '\U{205F}', '\U{3000}', '\U{FEFF}'
  }

  /** The characters a regex `.` refuses to match. */
  predicate IsLineTerminator(c: char) {
    c == '\n' || c == '\r' || c == '\U{2028}' || c == '\U{2029}'
  }

  /** `[0-9]`, the class that `\d` stands for. */
  predicate IsDigit(c: char) {
    '0' <= c <= '9'
  }

  predicate AllSpace(s: string) {
    forall i :: 0 <= i < |s| ==> IsSpace(s[i])
  }

  predicate AllDigits(s: string) {
    forall i :: 0 <= i < |s| ==> IsDigit(s[i])
  }

  /** Neither end of `s` is white space. */
  predicate IsTrimmed(s: string) {
    s == [] || (!IsSpace(s[0]) && !IsSpace(s[|s| - 1]))
  }

  /** The end of the run of white space that starts at `from`. */
  function SpaceRunEnd(s: string, from: nat): (k: nat)
    requires from <= |s|
    ensures from <= k <= |s|
    ensures forall i :: from <= i < k ==> IsSpace(s[i])
    ensures k < |s| ==> !IsSpace(s[k])
    decreases |s| - from
  {
    if from == |s| || !IsSpace(s[from]) then from else SpaceRunEnd(s, from + 1)
  }

  /** The start of the run of white space that ends just before `to`. */
  function SpaceRunStart(s: string, to: nat): (j: nat)
    requires to <= |s|
    ensures j <= to
    ensures forall i :: j <= i < to ==> IsSpace(s[i])
    ensures j > 0 ==> !IsSpace(s[j - 1])
  {
    if to == 0 || !IsSpace(s[to - 1]) then to else SpaceRunStart(s, to - 1)
  }

  /** Length of the longest all-space prefix of `s`. */
  function LeadingSpaces(s: string): (k: nat)
    ensures k <= |s| && forall i :: 0 <= i < k ==> IsSpace(s[i])
    ensures k < |s| ==> !IsSpace(s[k])
  {
    SpaceRunEnd(s, 0)
  }

  /** `s.trimStart()`. */
  function TrimStart(s: string): (r: string)
    ensures r == s[LeadingSpaces(s)..]
    ensures r == [] || !IsSpace(r[0])
  {
    s[LeadingSpaces(s)..]
  }

  /** `s.trimEnd()`. */
  function TrimEnd(s: string): (r: string)
    ensures r == s[..SpaceRunStart(s, |s|)]
    ensures r == [] || !IsSpace(r[|r| - 1])
  {
    s[..SpaceRunStart(s, |s|)]
  }

  /** `s.trim()`: the infix of `s` left after removing white space at both ends. */
  function Trim(s: string): (r: string)
    ensures IsTrimmed(r)
    ensures LeadingSpaces(s) + |r| <= |s|
    ensures r == s[LeadingSpaces(s)..LeadingSpaces(s) + |r|]
    ensures forall i :: LeadingSpaces(s) + |r| <= i < |s| ==> IsSpace(s[i])
    ensures r == [] <==> AllSpace(s)
  {
    var k := LeadingSpaces(s);
    var j := SpaceRunStart(s, |s|);
    if j <= k then [] else s[k..j]
  }

  /** Trimming a trimmed text changes nothing. */
  lemma {:induction false} TrimOfTrimmed(s: string)
    requires IsTrimmed(s)
    ensures Trim(s) == s
  {
    assert LeadingSpaces(s) == 0;
    assert SpaceRunStart(s, |s|) == |s|;
  }

  function Min(a: int, b: int): int {
    if a <= b then a else b
  }

  /** `s.slice(0, n)` for a non-negative `n`. */
  function Take<T>(s: seq<T>, n: nat): (r: seq<T>)
    ensures |r| == Min(n, |s|) && r == s[..|r|]
  {
    if n < |s| then s[..n] else s
  }

  function LowerAscii(c: char): char {
    if 'A' <= c <= 'Z' then (c as int + 32) as char else c
  }

  predicate StartsWith(s: string, p: string) {
    |p| <= |s| && s[..|p|] == p
  }

  predicate EndsWith(s: string, p: string) {
    |p| <= |s| && s[|s| - |p|..] == p
  }

  /** `s` starts with `p` when ASCII letters are compared without regard to case,
      which is how a JavaScript regex with the `i` flag (and no `u` flag) compares
      the ASCII patterns used by these scripts. */
  predicate StartsWithCI(s: string, p: string) {
    |p| <= |s| && forall i :: 0 <= i < |p| ==> LowerAscii(s[i]) == LowerAscii(p[i])
  }

  predicate EndsWithCI(s: string, p: string) {
    |p| <= |s| && StartsWithCI(s[|s| - |p|..], p)
  }

  /** The first index at or after `from` where `c` occurs. */
  function IndexOfChar(s: string, c: char, from: nat): (r: Option<nat>)
    ensures r.Some? ==> from <= r.value < |s| && s[r.value] == c
    ensures r.Some? ==> forall j :: from <= j < r.value ==> s[j] != c
    ensures r.None? ==> forall j :: from <= j < |s| ==> s[j] != c
    decreases |s| - from
  {
    if from >= |s| then None
    else if s[from] == c then Some(from)
    else IndexOfChar(s, c, from + 1)
  }

  /** The first index at or after `from` where `p` occurs, case-insensitively. */
  function IndexOfCI(s: string, p: string, from: nat): (r: Option<nat>)
    ensures r.Some? ==> from <= r.value <= |s| && StartsWithCI(s[r.value..], p)
    decreases |s| - from
  {
    if from > |s| then None
    else if StartsWithCI(s[from..], p) then Some(from)
    else IndexOfCI(s, p, from + 1)
  }

  /** IndexOfCI finds the first occurrence, and finds none only when there is none. */
  lemma {:induction false} IndexOfCIFirst(s: string, p: string, from: nat, j: nat)
    requires from <= j <= |s| && StartsWithCI(s[j..], p)
    ensures IndexOfCI(s, p, from).Some? && IndexOfCI(s, p, from).value <= j
    decreases |s| - from
  {
    if !StartsWithCI(s[from..], p) {
      IndexOfCIFirst(s, p, from + 1, j);
    }
  }

  /** `s.includes(p)`, or equally `/p/.test(s)` for a pattern without special characters. */
  predicate Contains(s: string, p: string)
    decreases |s|
  {
    StartsWith(s, p) || (s != [] && Contains(s[1..], p))
  }

  /** `s.replace(/c/g, rep)`: every occurrence of the character `c` becomes `rep`. */
  function ReplaceChar(s: string, c: char, rep: string): string {
    if s == [] then [] else (if s[0] == c then rep else [s[0]]) + ReplaceChar(s[1..], c, rep)
  }

  /** `s.replace(/p/g, rep)` for a literal pattern: occurrences are replaced left
      to right, and scanning resumes after each replaced occurrence. */
  function ReplaceText(s: string, p: string, rep: string): string
    requires p != []
    decreases |s|
  {
    if s == [] then []
    else if StartsWith(s, p) then rep + ReplaceText(s[|p|..], p, rep)
    else [s[0]] + ReplaceText(s[1..], p, rep)
  }

  /** `lines.join("\n")`. */
  function JoinLines(lines: seq<string>): string {
    if lines == [] then ""
    else if |lines| == 1 then lines[0]
    else lines[0] + "\n" + JoinLines(lines[1..])
  }

  function DigitChar(d: nat): char
    requires d < 10
  {
    ('0' as int + d) as char
  }

  /** `String(n)` for a non-negative integer: its decimal digits, without leading zeros. */
  function NatToString(n: nat): (r: string)
    ensures |r| >= 1 && AllDigits(r)
    ensures |r| > 1 ==> r[0] != '0'
  {
    if n < 10 then [DigitChar(n)]
    else
      var r := NatToString(n / 10) + [DigitChar(n % 10)];
      assert r[0] == NatToString(n / 10)[0];
      r
  }

  /** The value of a string of decimal digits; the inverse of NatToString. */
  function DigitsValue(s: string): nat
    requires AllDigits(s)
  {
    if s == [] then 0 else DigitsValue(s[..|s| - 1]) * 10 + (s[|s| - 1] as int - '0' as int)
  }

  lemma {:induction false} NatToStringRoundTrip(n: nat)
    ensures DigitsValue(NatToString(n)) == n
  {
    if n >= 10 {
      var r := NatToString(n);
      assert r[..|r| - 1] == NatToString(n / 10);
      NatToStringRoundTrip(n / 10);
    }
  }

  /** Distinct numbers render as distinct strings. */
  lemma {:induction false} NatToStringInjective(m: nat, n: nat)
    requires m != n
    ensures NatToString(m) != NatToString(n)
  {
    NatToStringRoundTrip(m);
    NatToStringRoundTrip(n);
  }
}
