/**
 * The public invoice page: from the route's receipt id and wildcard path it
 * derives a readable receipt label and the URL of the receipt PDF. A route
 * parameter that is absent reads as the empty string.
 */
module Invoice {
  import opened Wrappers
  import opened Strings
  import opened Seqs
  import Uri

  /** `decodeSafe`: trim, keep blank as `""`, percent-decode, and fall back
      to the trimmed text when decoding throws. */
  function DecodeSafe(value: string): (r: string)
    ensures r == "" <==> Trim(value) == ""
    // a value that decodes comes back decoded
    ensures Trim(value) != "" && Uri.Decode(Trim(value)).Some? ==> r == Uri.Decode(Trim(value)).value
    // one that does not comes back trimmed, as typed
    ensures Uri.Decode(Trim(value)).None? ==> r == Trim(value)
  {
    var raw := Trim(value);
    if raw == "" then ""
    else
      match Uri.Decode(raw)
      case Some(d) => d
      case None => raw
  }

  /** A decoded value that has no `%` and no surrounding white space is its
      own `decodeSafe`. */
  lemma DecodeSafePlain(value: string)
    requires Trim(value) == value
    requires forall i :: 0 <= i < |value| ==> value[i] != '%'
    ensures DecodeSafe(value) == value
  {
    Uri.DecodeWithoutPercent(value);
  }

  /** The last non-empty `/`-separated segment: `parts.filter(Boolean)` and its last element. */
  function LastSegment(s: string): Option<string> {
    var parts := Filter(SplitSlash(s), (p: string) => p != "");
    if parts == [] then None else Some(parts[|parts| - 1])
  }

  /** The last segment is a non-empty piece of the text without `/`, and
      there is none only when the text is made of slashes alone. */
  lemma LastSegmentFacts(s: string)
    ensures LastSegment(s).Some? ==> (LastSegment(s).value != "" && '/' !in LastSegment(s).value
      && LastSegment(s).value in SplitSlash(s) && Contains(s, LastSegment(s).value))
    ensures LastSegment(s).None? <==> forall i :: 0 <= i < |s| ==> s[i] == '/'
  {
    if LastSegment(s).Some? {
      SomeSegmentFacts(s);
    } else {
      forall i | 0 <= i < |s| ensures s[i] == '/' {
        AllSlashesWhenNoSegment(s, i);
      }
    }
    if forall i :: 0 <= i < |s| ==> s[i] == '/' {
      OnlySlashesHaveNoSegment(s);
    }
  }

  lemma SomeSegmentFacts(s: string)
    requires LastSegment(s).Some?
    ensures LastSegment(s).value != "" && '/' !in LastSegment(s).value
    ensures LastSegment(s).value in SplitSlash(s) && Contains(s, LastSegment(s).value)
  {
    var parts := SplitSlash(s);
    var kept := Filter(parts, (p: string) => p != "");
    var v := kept[|kept| - 1];
    assert v in kept;
    var k :| 0 <= k < |parts| && parts[k] == v;
    ContainsAt(v, v, 0);
    ContainsInJoin(parts, "/", k, v);
    SplitSlashJoin(s);
  }

  lemma {:induction false} AllSlashesWhenNoSegment(s: string, i: nat)
    requires i < |s|
    requires Filter(SplitSlash(s), (p: string) => p != "") == []
    ensures s[i] == '/'
    decreases |s|
  {
    var parts := SplitSlash(s);
    if '/' !in s {
      assert false;
    } else {
      var j := IndexOf(s, '/');
      FilterConcat([s[..j]], SplitSlash(s[j + 1..]), (p: string) => p != "");
      assert s[..j] == [];
      if i > j {
        AllSlashesWhenNoSegment(s[j + 1..], i - j - 1);
      }
    }
  }

  lemma {:induction false} OnlySlashesHaveNoSegment(s: string)
    requires forall i :: 0 <= i < |s| ==> s[i] == '/'
    ensures Filter(SplitSlash(s), (p: string) => p != "") == []
    decreases |s|
  {
    if s == [] {
    } else {
      assert s[0] == '/';
      assert IndexOf(s, '/') == 0;
      OnlySlashesHaveNoSegment(s[1..]);
      FilterConcat([s[..0]], SplitSlash(s[1..]), (p: string) => p != "");
    }
  }

  /** `normalizedId`: the receipt label. */
  function NormalizedId(receiptId: string, invoicePath: string): (r: Option<string>)
    // an id without a path is shown decoded
    ensures DecodeSafe(receiptId) != "" && DecodeSafe(invoicePath) == "" ==> r == Some(DecodeSafe(receiptId))
    // neither gives no label
    ensures DecodeSafe(receiptId) == "" && DecodeSafe(invoicePath) == "" ==> r.None?
    // the path wins over the id; a value with `/` is shown by its last segment
    ensures DecodeSafe(invoicePath) != "" && '/' !in DecodeSafe(invoicePath) ==> r == Some(DecodeSafe(invoicePath))
    ensures DecodeSafe(invoicePath) != "" && '/' in DecodeSafe(invoicePath) ==> r == LastSegment(DecodeSafe(invoicePath))
    // a label is never empty
    ensures r.Some? ==> r.value != ""
  {
    var fromId := DecodeSafe(receiptId);
    var fromPath := DecodeSafe(invoicePath);
    if fromId != "" && fromPath == "" then Some(fromId)
    else
      var candidate := if fromPath != "" then fromPath else fromId;
      if candidate == "" then None
      else if '/' in candidate then
        LastSegmentFacts(candidate);
        LastSegment(candidate)
      else Some(candidate)
  }

  /** `/^https?:\/\/[^/]+/i` removed: a scheme and a non-empty host. */
  function StripOrigin(s: string): (r: string)
    ensures |r| <= |s| && r == s[|s| - |r|..]
  {
    if StartsWithNoCase(s, "https://") && |s| > 8 && s[8] != '/' then s[8 + |Run(s, 8, c => c == '/')|..]
    else if StartsWithNoCase(s, "http://") && |s| > 7 && s[7] != '/' then s[7 + |Run(s, 7, c => c == '/')|..]
    else s
  }

  /** An origin in front of a path is removed and the path kept. */
  lemma StripOriginOfUrl(host: string, tail: string)
    requires host != [] && '/' !in host
    requires tail == [] || tail[0] == '/'
    ensures StripOrigin("https://" + host + tail) == tail
  {
    var s := "https://" + host + tail;
    assert s[..8] == "https://";
    NoCasePrefixOf(s, "https://");
    assert s[8..] == host + tail;
    RunOverHost(s, 8, host, tail);
    assert s[8 + |host|..] == tail;
  }

  lemma RunOverHost(s: string, j: nat, host: string, tail: string)
    requires j <= |s| && s[j..] == host + tail
    requires '/' !in host
    requires tail == [] || tail[0] == '/'
    ensures Run(s, j, c => c == '/') == host
  {
    forall k | j <= k < j + |host| ensures s[k] != '/' {
      assert s[k] == s[j..][k - j] == host[k - j];
    }
    if j + |host| < |s| {
      assert s[j + |host|] == s[j..][|host|] == tail[0];
    }
    RunStopsAt(s, j, |host|, c => c == '/');
    assert s[j..j + |host|] == host;
  }

  /** `/^\{\{1\}\}/` removed. */
  function StripPlaceholder(s: string): string {
    if StartsWith(s, "{{1}}") then s[5..] else s
  }

  /** `/^%7B%7B1%7D%7D/i` removed. */
  function StripEncodedPlaceholder(s: string): string {
    if StartsWithNoCase(s, "%7B%7B1%7D%7D") then s[13..] else s
  }

  /** `/^\/+/` removed. */
  function StripLeadingSlashes(s: string): (r: string)
    ensures |r| <= |s| && r == s[|s| - |r|..]
    ensures r == [] || r[0] != '/'
    ensures forall i :: 0 <= i < |s| - |r| ==> s[i] == '/'
  {
    if s != [] && s[0] == '/' then StripLeadingSlashes(s[1..]) else s
  }

  /** The cleaned value that is searched for an uploads path. */
  function Cleaned(raw: string): string {
    StripLeadingSlashes(StripEncodedPlaceholder(StripPlaceholder(StripOrigin(raw))))
  }

  /** One alternative of the capture group: the literal `lit` (either case)
      followed by `.+`, greedy up to the first line terminator. */
  function GroupAlternative(s: string, g: nat, lit: string): (r: Option<string>)
    requires g <= |s|
    ensures r.Some? ==> g + |r.value| <= |s| && r.value == s[g..g + |r.value|]
    ensures r.Some? ==> |r.value| > |lit| && StartsWithNoCase(r.value, lit)
  {
    if StartsWithNoCase(s[g..], lit) && g + |lit| < |s| && !IsLineTerminator(s[g + |lit|]) then
      var n := |lit| + |Run(s, g + |lit|, c => IsLineTerminator(c))|;
      var v := s[g..g + n];
      assert forall i :: 0 <= i < |lit| ==> v[i] == s[g..][i];
      Some(v)
    else None
  }

  /** The capture group `(api\/uploads\/.+|uploads\/.+)` starting at `g`. */
  function UploadsGroupAt(s: string, g: nat): (r: Option<string>)
    ensures r.Some? ==> g + |r.value| <= |s| && r.value == s[g..g + |r.value|]
    ensures r.Some? ==> StartsWithNoCase(r.value, "api/uploads/") || StartsWithNoCase(r.value, "uploads/")
  {
    if g > |s| then None
    else
      var api := GroupAlternative(s, g, "api/uploads/");
      if api.Some? then api else GroupAlternative(s, g, "uploads/")
  }

  /** A capture starts with a letter, so removing leading slashes from it
      changes nothing. */
  lemma CaptureHasNoLeadingSlash(capture: string)
    requires StartsWithNoCase(capture, "api/uploads/") || StartsWithNoCase(capture, "uploads/")
    ensures StripLeadingSlashes(capture) == capture
  {
    assert UpperChar(capture[0]) == 'A' || UpperChar(capture[0]) == 'U';
  }

  /** `/(?:^|\/)(…)/i` tried at `i`: at the start of the text, or after a
      `/`. Gives where the capture starts and the capture. */
  function UploadsMatchAt(s: string, i: nat): (r: Option<(nat, string)>)
    ensures r.Some? ==> UploadsGroupAt(s, r.value.0) == Some(r.value.1)
  {
    if i == 0 && UploadsGroupAt(s, 0).Some? then Some((0, UploadsGroupAt(s, 0).value))
    else if i < |s| && s[i] == '/' && UploadsGroupAt(s, i + 1).Some? then Some((i + 1, UploadsGroupAt(s, i + 1).value))
    else None
  }

  /** The leftmost uploads match at or after `i`. */
  function FirstUploadsMatch(s: string, i: nat): (r: Option<(nat, string)>)
    requires i <= |s|
    ensures r.Some? ==> UploadsGroupAt(s, r.value.0) == Some(r.value.1)
    ensures r.None? ==> forall k :: i <= k <= |s| ==> UploadsMatchAt(s, k).None?
    decreases |s| - i
  {
    if UploadsMatchAt(s, i).Some? then UploadsMatchAt(s, i)
    else if i == |s| then None
    else FirstUploadsMatch(s, i + 1)
  }

  /** The match `FirstUploadsMatch` returns is the one at the leftmost
      position, at or after `i`, where the pattern matches. */
  lemma {:induction false} FirstUploadsMatchLeftmost(s: string, i: nat) returns (m: nat)
    requires i <= |s| && FirstUploadsMatch(s, i).Some?
    ensures i <= m <= |s| && UploadsMatchAt(s, m) == FirstUploadsMatch(s, i)
    ensures forall k: nat :: i <= k < m ==> UploadsMatchAt(s, k).None?
    decreases |s| - i
  {
    var here := UploadsMatchAt(s, i);
    if here.Some? {
      m := i;
    } else {
      assert i < |s| && FirstUploadsMatch(s, i) == FirstUploadsMatch(s, i + 1);
      m := FirstUploadsMatchLeftmost(s, i + 1);
      forall k: nat | i <= k < m ensures UploadsMatchAt(s, k).None? {
        if k == i {
          assert UploadsMatchAt(s, k) == here;
        }
      }
    }
  }

  /** The legacy link for a bare receipt id. */
  function LegacyUrl(raw: string): string {
    "/api/uploads/" + Uri.Encode("receipt_" + raw + ".pdf")
  }

  /** The link built from a non-blank decoded value. */
  function LinkFor(raw: string): (r: string)
    ensures |r| > 1 && r[0] == '/'
  {
    match FirstUploadsMatch(Cleaned(raw), 0)
    case Some((_, capture)) =>
      CaptureHasNoLeadingSlash(capture);
      "/" + StripLeadingSlashes(capture)
    case None => LegacyUrl(raw)
  }

  /** The value the link is built from: the decoded path, else the decoded id. */
  function RawValue(receiptId: string, invoicePath: string): string {
    if DecodeSafe(invoicePath) != "" then DecodeSafe(invoicePath) else DecodeSafe(receiptId)
  }

  /** `pdfUrl`. */
  function PdfUrl(receiptId: string, invoicePath: string): (r: Option<string>)
    // no link exactly when both parameters decode to nothing
    ensures r.None? <==> DecodeSafe(invoicePath) == "" && DecodeSafe(receiptId) == ""
    // every link is site-relative
    ensures r.Some? ==> |r.value| > 1 && r.value[0] == '/'
  {
    var raw := RawValue(receiptId, invoicePath);
    if raw == "" then None else Some(LinkFor(raw))
  }

  /** A value with no uploads path becomes the legacy receipt link, whose
      file name percent-decodes back to `receipt_<raw>.pdf`. */
  lemma LegacyLinkRoundTrip(raw: string)
    requires FirstUploadsMatch(Cleaned(raw), 0).None?
    ensures LinkFor(raw) == LegacyUrl(raw)
    ensures Uri.Decode(LinkFor(raw)[|"/api/uploads/"|..]) == Some("receipt_" + raw + ".pdf")
  {
    Uri.DecodeEncode("receipt_" + raw + ".pdf");
    assert LegacyUrl(raw)[|"/api/uploads/"|..] == Uri.Encode("receipt_" + raw + ".pdf");
  }

  /** The link for a value whose cleaned form holds an uploads match. */
  lemma LinkOfMatch(raw: string, g: nat, capture: string)
    requires FirstUploadsMatch(Cleaned(raw), 0) == Some((g, capture))
    ensures LinkFor(raw) == "/" + capture
  {
    CaptureHasNoLeadingSlash(capture);
  }

  /** A value carrying an uploads path is linked as that path, made
      site-relative: the link is `/` followed by a piece of the cleaned value
      that starts with `api/uploads/` or `uploads/`. */
  lemma UploadsLink(raw: string) returns (g: nat, capture: string)
    requires FirstUploadsMatch(Cleaned(raw), 0).Some?
    ensures LinkFor(raw) == "/" + capture
    ensures Contains(Cleaned(raw), capture)
    ensures StartsWithNoCase(capture, "api/uploads/") || StartsWithNoCase(capture, "uploads/")
  {
    var cleaned := Cleaned(raw);
    g, capture := FirstUploadsMatch(cleaned, 0).value.0, FirstUploadsMatch(cleaned, 0).value.1;
    LinkOfMatch(raw, g, capture);
    MatchOccurs(cleaned, g, capture);
  }

  /** What the uploads pattern captures occurs in the text it was found in. */
  lemma MatchOccurs(s: string, g: nat, capture: string)
    requires FirstUploadsMatch(s, 0) == Some((g, capture))
    ensures Contains(s, capture)
  {
    ContainsAt(s, capture, g);
  }

  /** Stripping an absolute upload link leaves its path without the slash. */
  lemma CleanedAbsolute(host: string, rest: string)
    requires host != [] && '/' !in host
    requires rest != [] && rest[0] == 'a'
    ensures Cleaned("https://" + host + "/" + rest) == rest
  {
    var url := "https://" + host + "/" + rest;
    assert url == "https://" + host + ("/" + rest);
    StripOriginOfUrl(host, "/" + rest);
    var t := "/" + rest;
    assert !StartsWith(t, "{{1}}") by {
      assert t[0] != "{{1}}"[0];
    }
    assert !StartsWithNoCase(t, "%7B%7B1%7D%7D") by {
      assert UpperChar(t[0]) != UpperChar('%');
    }
    assert t[1..] == rest;
  }

  /** A cleaned value that is an uploads path is matched whole, at its start. */
  lemma UploadsPathMatchesWhole(file: string)
    requires file != [] && forall k :: 0 <= k < |file| ==> !IsLineTerminator(file[k])
    ensures FirstUploadsMatch("api/uploads/" + file, 0) == Some((0, "api/uploads/" + file))
  {
    var rest := "api/uploads/" + file;
    assert rest[..12] == "api/uploads/";
    NoCasePrefixOf(rest, "api/uploads/");
    assert rest[0..] == rest;
    forall k | 12 <= k < |rest| ensures !IsLineTerminator(rest[k]) {
      assert rest[k] == file[k - 12];
    }
    RunStopsAt(rest, 12, |file|, c => IsLineTerminator(c));
    assert rest[0..12 + |file|] == rest;
  }

  /** A WhatsApp-style absolute link to an upload keeps just its path. */
  lemma AbsoluteUploadsLink(host: string, file: string)
    requires host != [] && '/' !in host
    requires file != [] && forall k :: 0 <= k < |file| ==> !IsLineTerminator(file[k])
    ensures LinkFor("https://" + host + "/" + "api/uploads/" + file) == "/" + "api/uploads/" + file
  {
    var rest := "api/uploads/" + file;
    var url := "https://" + host + "/" + rest;
    assert "https://" + host + "/" + "api/uploads/" + file == url;
    CleanedAbsolute(host, rest);
    UploadsPathMatchesWhole(file);
    assert FirstUploadsMatch(Cleaned(url), 0) == Some((0, rest));
    LinkOfMatch(url, 0, rest);
    assert "/" + rest == "/" + "api/uploads/" + file;
  }
}
