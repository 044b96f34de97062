/**
 * The file name of a downloaded receipt, read from a `Content-Disposition`
 * header. The extended parameter `filename*=UTF-8''…` (RFC 8187 section
 * 3.2.1) is preferred over a plain `filename=…`, the precedence of RFC 6266
 * section 4.3, and characters that file systems reject are replaced.
 *
 * A missing header (`null`) reads as the empty string, as `String(x || "")`
 * makes it.
 */
module ReceiptPdf {
  import opened Wrappers
  import opened Strings
  import Uri

  const DefaultFileName: string := "EVegah_Receipt.pdf"

  /** The literal before the extended value; letters match in either case. */
  const ExtKey: string := "filename*=UTF-8''"

  /** The literal before the plain value. */
  const PlainKey: string := "filename="

  /** `/filename\*=UTF-8''([^;]+)/i` can match at `i`. */
  predicate ExtMatchAt(s: string, i: nat) {
    i + |ExtKey| < |s| && StartsWithNoCase(s[i..], ExtKey) && s[i + |ExtKey|] != ';'
  }

  /** Where the value of `/filename="?([^";]+)"?/i` starts when the pattern
      can match at `i`: after the opening quote when one is there and a value
      follows it, otherwise right after `=`. */
  function PlainStart(s: string, i: nat): Option<nat> {
    if !(i + |PlainKey| <= |s| && StartsWithNoCase(s[i..], PlainKey)) then None
    else
      var j := i + |PlainKey|;
      if j < |s| && s[j] == '"' then
        (if j + 1 < |s| && s[j + 1] != '"' && s[j + 1] != ';' then Some(j + 1) else None)
      else if j < |s| && s[j] != ';' then Some(j)
      else None
  }

  /** The leftmost match position of the extended form at or after `i`. */
  function FirstExtMatch(s: string, i: nat): (r: Option<nat>)
    requires i <= |s|
    ensures r.Some? ==> i <= r.value && ExtMatchAt(s, r.value)
    ensures forall k :: i <= k && (r.None? || k < r.value) ==> !ExtMatchAt(s, k)
    decreases |s| - i
  {
    if i == |s| then None
    else if ExtMatchAt(s, i) then Some(i)
    else FirstExtMatch(s, i + 1)
  }

  /** The leftmost match of the plain form at or after `i`: where it starts
      and where its value starts. */
  function FirstPlainMatch(s: string, i: nat): (r: Option<(nat, nat)>)
    requires i <= |s|
    ensures r.Some? ==> i <= r.value.0 && PlainStart(s, r.value.0) == Some(r.value.1)
    ensures forall k :: i <= k && (r.None? || k < r.value.0) ==> PlainStart(s, k).None?
    decreases |s| - i
  {
    if i == |s| then None
    else
      match PlainStart(s, i)
      case Some(j) => Some((i, j))
      case None => FirstPlainMatch(s, i + 1)
  }

  /** `v` is the whole of the text from `j` up to the first character that
      `stop` rejects, or up to the end. */
  predicate RunFrom(s: string, j: nat, v: string, stop: char -> bool) {
    j + |v| <= |s| && v == s[j..j + |v|]
    && (forall k :: 0 <= k < |v| ==> !stop(v[k]))
    && (j + |v| == |s| || stop(s[j + |v|]))
  }

  /** The captured extended value, still percent-encoded: the whole run after
      the leftmost `filename*=UTF-8''`, up to the first `;` or the end. */
  function ExtendedValue(s: string): (r: Option<string>)
    ensures r.Some? ==> r.value != [] && forall k :: 0 <= k < |r.value| ==> r.value[k] != ';'
    ensures r.None? <==> forall k :: 0 <= k ==> !ExtMatchAt(s, k)
    ensures r.Some? ==> (exists i: nat ::
      ExtMatchAt(s, i) && (forall k: nat :: k < i ==> !ExtMatchAt(s, k))
      && RunFrom(s, i + |ExtKey|, r.value, c => c == ';'))
  {
    match FirstExtMatch(s, 0)
    case Some(i) =>
      var v := Run(s, i + |ExtKey|, c => c == ';');
      assert RunFrom(s, i + |ExtKey|, v, c => c == ';');
      Some(v)
    case None => None
  }

  /** The captured plain value: the whole run from where the leftmost
      `filename=` match's value starts (after an opening quote), up to the
      first `"` or `;` or the end, so surrounding quotes are dropped. */
  function PlainValue(s: string): (r: Option<string>)
    ensures r.Some? ==> r.value != [] && forall k :: 0 <= k < |r.value| ==> r.value[k] != '"' && r.value[k] != ';'
    ensures r.None? <==> forall k :: 0 <= k ==> PlainStart(s, k).None?
    ensures r.Some? ==> (exists i: nat ::
      PlainStart(s, i).Some? && (forall k: nat :: k < i ==> PlainStart(s, k).None?)
      && RunFrom(s, PlainStart(s, i).value, r.value, c => c == '"' || c == ';'))
  {
    match FirstPlainMatch(s, 0)
    case Some((i, j)) =>
      var v := Run(s, j, c => c == '"' || c == ';');
      assert PlainStart(s, i) == Some(j);
      assert RunFrom(s, j, v, c => c == '"' || c == ';');
      Some(v)
    case None => None
  }

  /** Characters replaced in file names: `\ / : * ? " < > |`. */
  predicate IsForbidden(c: char) {
    c == '\\' || c == '/' || c == ':' || c == '*' || c == '?' || c == '"' || c == '<' || c == '>' || c == '|'
  }

  /** What is left after the leading run of forbidden characters. */
  function SkipForbidden(s: string): (r: string)
    ensures |r| <= |s| && r == s[|s| - |r|..]
    ensures r == [] || !IsForbidden(r[0])
    ensures forall k :: 0 <= k < |s| - |r| ==> IsForbidden(s[k])
  {
    if s != [] && IsForbidden(s[0]) then SkipForbidden(s[1..]) else s
  }

  /** `.replace(/[\\/:*?"<>|]+/g, "_")`: every run of forbidden characters
      becomes one `_`. */
  function Sanitize(s: string): (r: string)
    ensures forall k :: 0 <= k < |r| ==> !IsForbidden(r[k])
    ensures |r| <= |s|
    ensures r == [] <==> s == []
    decreases |s|
  {
    if s == [] then []
    else if IsForbidden(s[0]) then "_" + Sanitize(SkipForbidden(s))
    else [s[0]] + Sanitize(s[1..])
  }

  /** A name without forbidden characters is left as it is, so sanitising
      twice is sanitising once. */
  lemma {:induction false} SanitizeClean(s: string)
    requires forall k :: 0 <= k < |s| ==> !IsForbidden(s[k])
    ensures Sanitize(s) == s
  {
    if s != [] {
      SanitizeClean(s[1..]);
      assert s == [s[0]] + s[1..];
    }
  }

  /** A run of forbidden characters collapses to a single `_`. */
  lemma SanitizeRun(run: string, rest: string)
    requires run != [] && forall k :: 0 <= k < |run| ==> IsForbidden(run[k])
    requires rest == [] || !IsForbidden(rest[0])
    ensures Sanitize(run + rest) == "_" + Sanitize(rest)
  {
    SkipRun(run, rest);
  }

  lemma {:induction false} SkipRun(run: string, rest: string)
    requires forall k :: 0 <= k < |run| ==> IsForbidden(run[k])
    requires rest == [] || !IsForbidden(rest[0])
    ensures SkipForbidden(run + rest) == rest
  {
    if run != [] {
      assert (run + rest)[1..] == run[1..] + rest;
      SkipRun(run[1..], rest);
    } else {
      assert run + rest == rest;
    }
  }

  lemma DefaultIsClean()
    ensures DefaultFileName != [] && forall k :: 0 <= k < |DefaultFileName| ==> !IsForbidden(DefaultFileName[k])
  {
  }

  /** `getFileNameFromContentDisposition`. */
  function FileNameFromContentDisposition(contentDisposition: string): (r: string)
    // a blank header gives the default name
    ensures Trim(contentDisposition) == "" ==> r == DefaultFileName
    // the extended parameter wins; its value is percent-decoded, or used raw when decoding fails
    ensures Trim(contentDisposition) != "" && ExtendedValue(Trim(contentDisposition)).Some? ==>
      var v := ExtendedValue(Trim(contentDisposition)).value;
      r == Sanitize(Uri.Decode(v).GetOr(v))
    // then the plain parameter
    ensures Trim(contentDisposition) != "" && ExtendedValue(Trim(contentDisposition)).None? && PlainValue(Trim(contentDisposition)).Some? ==>
      r == Sanitize(PlainValue(Trim(contentDisposition)).value)
    // and with neither, the default name
    ensures Trim(contentDisposition) != "" && ExtendedValue(Trim(contentDisposition)).None? && PlainValue(Trim(contentDisposition)).None? ==>
      r == DefaultFileName
    // the name is never empty and never holds a forbidden character
    ensures r != [] && forall k :: 0 <= k < |r| ==> !IsForbidden(r[k])
  {
    DefaultIsClean();
    var header := Trim(contentDisposition);
    if header == "" then DefaultFileName
    else
      match ExtendedValue(header)
      case Some(v) =>
        (match Uri.Decode(v)
         case Some(d) => Sanitize(d)
         case None => Sanitize(v))
      case None =>
        match PlainValue(header)
        case Some(v) => Sanitize(v)
        case None => DefaultFileName
  }
}
