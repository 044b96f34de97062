/**
 * Character classes and string helpers shared by every module: the ASCII
 * case mapping of `toUpperCase`/`toLowerCase`, JavaScript's white space,
 * `trim`, `includes`, `startsWith` and `join`.
 */
module Strings {

  predicate IsDigit(c: char) { '0' <= c <= '9' }
  predicate IsUpper(c: char) { 'A' <= c <= 'Z' }
  predicate IsLower(c: char) { 'a' <= c <= 'z' }
  predicate IsAlnum(c: char) { IsDigit(c) || IsUpper(c) || IsLower(c) }

  /** Characters of the regular-expression class `\w`, used by `\b`. */
  predicate IsWordChar(c: char) { IsAlnum(c) || c == '_' }

  /** JavaScript white space and line terminators: what `\s` matches and `trim` removes. */
  predicate IsSpace(c: char) {
    || c == ' ' || c == '\t' || c == '\n' || c == '\r' || c == '\U{000B}' || c == '\U{000C}'
    || c == '\U{00A0}' || c == '\U{1680}' || ('\U{2000}' <= c <= '\U{200A}')
    || c == '\U{2028}' || c == '\U{2029}' || c == '\U{202F}' || c == '\U{205F}'
    || c == '\U{3000}' || c == '\U{FEFF}'
  }

  /** Characters that the regular-expression `.` does not match. */
  predicate IsLineTerminator(c: char) {
    c == '\n' || c == '\r' || c == '\U{2028}' || c == '\U{2029}'
  }

  /** `a || b` on text. */
  function Or(a: string, b: string): string {
    if a != "" then a else b
  }

  /** `String(e?.message || e || fallback)`. */
  function ErrorText(message: string, fallback: string): string {
    if message != "" then message else fallback
  }

  function UpperChar(c: char): char {
    if IsLower(c) then (c as int - 32) as char else c
  }

  function LowerChar(c: char): char {
    if IsUpper(c) then (c as int + 32) as char else c
  }

  /** `toUpperCase`, on the ASCII letters. */
  function Upper(s: string): (r: string)
    ensures |r| == |s|
    ensures forall i :: 0 <= i < |s| ==> r[i] == UpperChar(s[i])
  {
    seq(|s|, i requires 0 <= i < |s| => UpperChar(s[i]))
  }

  /** `toLowerCase`, on the ASCII letters. */
  function Lower(s: string): (r: string)
    ensures |r| == |s|
    ensures forall i :: 0 <= i < |s| ==> r[i] == LowerChar(s[i])
  {
    seq(|s|, i requires 0 <= i < |s| => LowerChar(s[i]))
  }

  function TrimStart(s: string): string {
    if s != [] && IsSpace(s[0]) then TrimStart(s[1..]) else s
  }

  /** `TrimStart` cuts white space, and only white space, off the front. */
  lemma {:induction false} TrimStartFacts(s: string)
    ensures |TrimStart(s)| <= |s| && TrimStart(s) == s[|s| - |TrimStart(s)|..]
    ensures TrimStart(s) == [] || !IsSpace(TrimStart(s)[0])
    ensures forall i :: 0 <= i < |s| - |TrimStart(s)| ==> IsSpace(s[i])
  {
    if s != [] && IsSpace(s[0]) {
      TrimStartFacts(s[1..]);
    }
  }

  function TrimEnd(s: string): string {
    if s != [] && IsSpace(s[|s| - 1]) then TrimEnd(s[..|s| - 1]) else s
  }

  /** `TrimEnd` cuts white space, and only white space, off the back. */
  lemma {:induction false} TrimEndFacts(s: string)
    ensures |TrimEnd(s)| <= |s| && TrimEnd(s) == s[..|TrimEnd(s)|]
    ensures TrimEnd(s) == [] || !IsSpace(TrimEnd(s)[|TrimEnd(s)| - 1])
    ensures forall i :: |TrimEnd(s)| <= i < |s| ==> IsSpace(s[i])
  {
    if s != [] && IsSpace(s[|s| - 1]) {
      TrimEndFacts(s[..|s| - 1]);
    }
  }

  /** `String.prototype.trim`. */
  function Trim(s: string): string {
    TrimEnd(TrimStart(s))
  }

  /** What `trim` keeps: a slice of the input with no white space at either
      end, and only white space cut off around it. */
  lemma TrimSlice(s: string) returns (i: nat, j: nat)
    ensures i <= j <= |s| && Trim(s) == s[i..j]
    ensures Trim(s) == [] || (!IsSpace(Trim(s)[0]) && !IsSpace(Trim(s)[|Trim(s)| - 1]))
    ensures forall k :: 0 <= k < i || j <= k < |s| ==> IsSpace(s[k])
  {
    var t := TrimStart(s);
    TrimStartFacts(s);
    TrimEndFacts(t);
    i := |s| - |t|;
    j := i + |TrimEnd(t)|;
    assert s[i..j] == t[..|TrimEnd(t)|];
    if Trim(s) != [] {
      assert Trim(s)[0] == t[0];
    }
  }

  lemma TrimStartOfTrimmed(s: string)
    requires s == [] || !IsSpace(s[0])
    ensures TrimStart(s) == s
  {
  }

  lemma TrimEndOfTrimmed(s: string)
    requires s == [] || !IsSpace(s[|s| - 1])
    ensures TrimEnd(s) == s
  {
  }

  /** Trimming twice is trimming once. */
  lemma TrimIdempotent(s: string)
    ensures Trim(Trim(s)) == Trim(s)
  {
    var t := Trim(s);
    var i, j := TrimSlice(s);
    TrimStartOfTrimmed(t);
    TrimEndOfTrimmed(t);
  }

  /** The trimmed string is blank exactly when the input is all white space. */
  lemma TrimBlank(s: string)
    ensures Trim(s) == [] <==> forall k :: 0 <= k < |s| ==> IsSpace(s[k])
  {
    var i, j := TrimSlice(s);
    if Trim(s) != [] {
      assert !IsSpace(s[i]);
    }
  }

  predicate StartsWith(s: string, p: string) {
    |p| <= |s| && s[..|p|] == p
  }

  /** `startsWith` under the `i` flag of a regular expression: ASCII letters
      compare without case, every other character exactly. */
  predicate StartsWithNoCase(s: string, p: string) {
    |p| <= |s| && forall i :: 0 <= i < |p| ==> UpperChar(s[i]) == UpperChar(p[i])
  }

  lemma NoCasePrefixOf(s: string, p: string)
    requires |p| <= |s| && s[..|p|] == p
    ensures StartsWithNoCase(s, p)
  {
    forall i | 0 <= i < |p| ensures UpperChar(s[i]) == UpperChar(p[i]) {
      assert s[..|p|][i] == s[i];
    }
  }

  /** `String.prototype.includes`. */
  predicate Contains(s: string, p: string)
    decreases |s|
  {
    StartsWith(s, p) || (s != [] && Contains(s[1..], p))
  }

  lemma {:induction false} ContainsAt(s: string, p: string, i: nat)
    requires i + |p| <= |s| && s[i..i + |p|] == p
    ensures Contains(s, p)
    decreases i
  {
    if i > 0 {
      assert s[1..][i - 1..i - 1 + |p|] == s[i..i + |p|];
      ContainsAt(s[1..], p, i - 1);
    }
  }

  /** `Contains` holds exactly when the pattern occurs at some position. */
  lemma {:induction false} ContainsWitness(s: string, p: string) returns (i: nat)
    requires Contains(s, p)
    ensures i + |p| <= |s| && s[i..i + |p|] == p
    decreases |s|
  {
    if StartsWith(s, p) {
      i := 0;
    } else {
      var k := ContainsWitness(s[1..], p);
      i := k + 1;
      assert s[i..i + |p|] == s[1..][k..k + |p|];
    }
  }

  lemma ContainsLeft(a: string, b: string, p: string)
    requires Contains(a, p)
    ensures Contains(a + b, p)
  {
    var i := ContainsWitness(a, p);
    assert (a + b)[i..i + |p|] == a[i..i + |p|];
    ContainsAt(a + b, p, i);
  }

  lemma ContainsRight(a: string, b: string, p: string)
    requires Contains(b, p)
    ensures Contains(a + b, p)
  {
    var i := ContainsWitness(b, p);
    assert (a + b)[|a| + i..|a| + i + |p|] == b[i..i + |p|];
    ContainsAt(a + b, p, |a| + i);
  }

  /** `Array.prototype.join`. */
  function Join(parts: seq<string>, sep: string): string {
    if |parts| == 0 then ""
    else if |parts| == 1 then parts[0]
    else parts[0] + sep + Join(parts[1..], sep)
  }

  /** Whatever one part contains, the joined string contains. */
  lemma {:induction false} ContainsInJoin(parts: seq<string>, sep: string, k: nat, p: string)
    requires k < |parts| && Contains(parts[k], p)
    ensures Contains(Join(parts, sep), p)
  {
    if |parts| > 1 {
      if k == 0 {
        ContainsLeft(parts[0], sep + Join(parts[1..], sep), p);
        assert parts[0] + sep + Join(parts[1..], sep) == parts[0] + (sep + Join(parts[1..], sep));
      } else {
        ContainsInJoin(parts[1..], sep, k - 1, p);
        ContainsRight(parts[0] + sep, Join(parts[1..], sep), p);
      }
    }
  }

  /** `s.replace(/\D/g, "")`: the ASCII digits of `s`, in order. */
  function Digits(s: string): (r: string)
    ensures |r| <= |s|
    ensures forall i :: 0 <= i < |r| ==> IsDigit(r[i])
  {
    if s == [] then []
    else (if IsDigit(s[0]) then [s[0]] else []) + Digits(s[1..])
  }

  lemma {:induction false} DigitsOfDigits(s: string)
    requires forall i :: 0 <= i < |s| ==> IsDigit(s[i])
    ensures Digits(s) == s
  {
    if s != [] {
      DigitsOfDigits(s[1..]);
    }
  }

  /** Decimal digits of a natural number, as `String(n)` writes it. */
  function NatToString(n: nat): (r: string)
    ensures r != [] && forall i :: 0 <= i < |r| ==> IsDigit(r[i])
  {
    if n < 10 then [('0' as int + n) as char]
    else NatToString(n / 10) + [('0' as int + n % 10) as char]
  }

  /** The maximal run of characters from `j` on that `stop` does not reject:
      what a greedy `[^…]+` or `.+` captures. */
  function Run(s: string, j: nat, stop: char -> bool): (r: string)
    requires j <= |s|
    ensures j + |r| <= |s| && r == s[j..j + |r|]
    ensures forall k :: 0 <= k < |r| ==> !stop(r[k])
    ensures j + |r| == |s| || stop(s[j + |r|])
    decreases |s| - j
  {
    if j == |s| || stop(s[j]) then [] else [s[j]] + Run(s, j + 1, stop)
  }

  /** A run ends exactly where the first stopping character (or the end) is. */
  lemma {:induction false} RunStopsAt(s: string, j: nat, n: nat, stop: char -> bool)
    requires j + n <= |s|
    requires forall k :: j <= k < j + n ==> !stop(s[k])
    requires j + n == |s| || stop(s[j + n])
    ensures Run(s, j, stop) == s[j..j + n]
    decreases n
  {
    if n > 0 {
      RunStopsAt(s, j + 1, n - 1, stop);
      assert s[j..j + n] == [s[j]] + s[j + 1..j + n];
    }
  }

  /** The first position of `c` in `s`. */
  function IndexOf(s: string, c: char): (i: nat)
    requires c in s
    ensures i < |s| && s[i] == c && c !in s[..i]
  {
    if s[0] == c then 0 else 1 + IndexOf(s[1..], c)
  }

  /** `s.split("/")`. */
  function SplitSlash(s: string): (parts: seq<string>)
    ensures |parts| >= 1
    ensures forall i :: 0 <= i < |parts| ==> '/' !in parts[i]
    decreases |s|
  {
    if '/' !in s then [s]
    else
      var i := IndexOf(s, '/');
      [s[..i]] + SplitSlash(s[i + 1..])
  }

  /** Splitting on `/` and joining with `/` gives the text back. */
  lemma {:induction false} SplitSlashJoin(s: string)
    ensures Join(SplitSlash(s), "/") == s
    decreases |s|
  {
    if '/' in s {
      var i := IndexOf(s, '/');
      var rest := SplitSlash(s[i + 1..]);
      SplitSlashJoin(s[i + 1..]);
      var parts := [s[..i]] + rest;
      assert SplitSlash(s) == parts;
      assert parts[0] == s[..i] && parts[1..] == rest;
      assert Join(parts, "/") == s[..i] + "/" + Join(rest, "/");
      assert s == s[..i] + "/" + s[i + 1..];
    }
  }
}
