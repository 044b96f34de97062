/**
 * `decodeURIComponent` and `encodeURIComponent` over UTF-8, as the browser
 * runs them. Decoding is partial: a malformed `%` escape or an invalid UTF-8
 * sequence throws `URIError`, modelled as `None`.
 */
module Uri {
  import opened Wrappers

  predicate IsHexDigit(c: char) {
    ('0' <= c <= '9') || ('a' <= c <= 'f') || ('A' <= c <= 'F')
  }

  function HexValue(c: char): (r: nat)
    requires IsHexDigit(c)
    ensures r < 16
  {
    if '0' <= c <= '9' then c as int - '0' as int
    else if 'a' <= c <= 'f' then c as int - 'a' as int + 10
    else c as int - 'A' as int + 10
  }

  /** The upper-case hex digit `encodeURIComponent` writes. */
  function HexDigit(d: nat): (c: char)
    requires d < 16
    ensures IsHexDigit(c) && HexValue(c) == d
  {
    if d < 10 then ('0' as int + d) as char else ('A' as int + d - 10) as char
  }

  /** The byte written by the escape `%XY` that starts at `i`, if there is one. */
  function EscapedByte(s: string, i: nat): Option<nat> {
    if i + 3 <= |s| && s[i] == '%' && IsHexDigit(s[i + 1]) && IsHexDigit(s[i + 2])
    then Some(HexValue(s[i + 1]) * 16 + HexValue(s[i + 2]))
    else None
  }

  predicate IsContinuation(b: Option<nat>) {
    b.Some? && 0x80 <= b.value <= 0xBF
  }

  /** A Unicode scalar value: what a Dafny `char` holds. */
  predicate IsScalar(cp: int) {
    0 <= cp < 0xD800 || 0xE000 <= cp < 0x11_0000
  }

  /** One escape sequence at the head of `s` (which starts with `%`): the
      decoded character and the number of input characters it used. Lead
      bytes announce 1 to 4 bytes; continuation bytes must be `10xxxxxx`;
      overlong forms, surrogates and values past U+10FFFF are rejected. */
  function DecodeEscape(s: string): (r: Option<(char, nat)>)
    requires s != [] && s[0] == '%'
    ensures r.Some? ==> 3 <= r.value.1 <= |s|
  {
    var b0 := EscapedByte(s, 0);
    if b0.None? then None
    else if b0.value < 0x80 then Some((b0.value as char, 3))
    else if 0xC0 <= b0.value <= 0xDF then
      var b1 := EscapedByte(s, 3);
      if !IsContinuation(b1) then None
      else
        var cp := (b0.value - 0xC0) * 64 + (b1.value - 0x80);
        if cp < 0x80 then None else Some((cp as char, 6))
    else if 0xE0 <= b0.value <= 0xEF then
      var b1 := EscapedByte(s, 3);
      var b2 := EscapedByte(s, 6);
      if !IsContinuation(b1) || !IsContinuation(b2) then None
      else
        var cp := (b0.value - 0xE0) * 4096 + (b1.value - 0x80) * 64 + (b2.value - 0x80);
        if cp < 0x800 || (0xD800 <= cp <= 0xDFFF) then None else Some((cp as char, 9))
    else if 0xF0 <= b0.value <= 0xF7 then
      var b1 := EscapedByte(s, 3);
      var b2 := EscapedByte(s, 6);
      var b3 := EscapedByte(s, 9);
      if !IsContinuation(b1) || !IsContinuation(b2) || !IsContinuation(b3) then None
      else
        var cp := (b0.value - 0xF0) * 262144 + (b1.value - 0x80) * 4096 + (b2.value - 0x80) * 64 + (b3.value - 0x80);
        if cp < 0x1_0000 || cp > 0x10_FFFF then None else Some((cp as char, 12))
    else None
  }

  function Prepend(c: char, rest: Option<string>): Option<string> {
    if rest.Some? then Some([c] + rest.value) else None
  }

  /** `decodeURIComponent`. */
  function Decode(s: string): (r: Option<string>)
    ensures r.Some? ==> |r.value| <= |s|
    ensures r.Some? ==> (r.value == [] <==> s == [])
    decreases |s|
  {
    if s == [] then Some([])
    else if s[0] != '%' then Prepend(s[0], Decode(s[1..]))
    else
      match DecodeEscape(s)
      case None => None
      case Some((c, n)) => Prepend(c, Decode(s[n..]))
  }

  /** Decoding fails, whatever precedes it, at the first `%` that is not
      followed by two hex digits. */
  lemma {:induction false} DecodeFailsAtBadEscape(s: string, i: nat)
    requires i < |s| && s[i] == '%' && EscapedByte(s, i).None?
    requires forall k :: 0 <= k < i ==> s[k] != '%'
    ensures Decode(s) == None
    decreases i
  {
    if i > 0 {
      assert EscapedByte(s[1..], i - 1) == EscapedByte(s, i);
      DecodeFailsAtBadEscape(s[1..], i - 1);
    }
  }

  /** A lone `%` at the end of the text, as in `50%`, is malformed. */
  lemma TrailingPercentFails(s: string)
    requires forall k :: 0 <= k < |s| ==> s[k] != '%'
    ensures Decode(s + "%") == None
  {
    DecodeFailsAtBadEscape(s + "%", |s|);
  }

  /** An escape of a byte that cannot start a UTF-8 sequence, such as `%FF`,
      is rejected. */
  lemma InvalidLeadByteFails(t: string)
    ensures Decode("%FF" + t) == None
  {
    assert EscapedByte("%FF" + t, 0) == Some(255);
  }

  /** Text without `%` decodes to itself. */
  lemma {:induction false} DecodeWithoutPercent(s: string)
    requires forall i :: 0 <= i < |s| ==> s[i] != '%'
    ensures Decode(s) == Some(s)
  {
    if s != [] {
      DecodeWithoutPercent(s[1..]);
      assert s == [s[0]] + s[1..];
    }
  }

  /** The characters `encodeURIComponent` leaves alone. */
  predicate IsUnreserved(c: char) {
    ('A' <= c <= 'Z') || ('a' <= c <= 'z') || ('0' <= c <= '9')
    || c == '-' || c == '_' || c == '.' || c == '!' || c == '~' || c == '*' || c == '\'' || c == '(' || c == ')'
  }

  /** The UTF-8 bytes of a character. */
  function Utf8(c: char): (r: seq<nat>)
    ensures 1 <= |r| <= 4
    ensures forall i :: 0 <= i < |r| ==> r[i] < 256
  {
    var cp := c as int;
    if cp < 0x80 then [cp]
    else if cp < 0x800 then [0xC0 + cp / 64, 0x80 + cp % 64]
    else if cp < 0x1_0000 then [0xE0 + cp / 4096, 0x80 + (cp / 64) % 64, 0x80 + cp % 64]
    else [0xF0 + cp / 262144, 0x80 + (cp / 4096) % 64, 0x80 + (cp / 64) % 64, 0x80 + cp % 64]
  }

  function Escape(b: nat): (r: string)
    requires b < 256
    ensures |r| == 3 && r[0] == '%'
  {
    ['%', HexDigit(b / 16), HexDigit(b % 16)]
  }

  function EscapeAll(bs: seq<nat>): (r: string)
    requires forall i :: 0 <= i < |bs| ==> bs[i] < 256
    ensures |r| == 3 * |bs|
  {
    if bs == [] then [] else Escape(bs[0]) + EscapeAll(bs[1..])
  }

  function EncodeChar(c: char): string {
    if IsUnreserved(c) then [c] else EscapeAll(Utf8(c))
  }

  /** `encodeURIComponent`. */
  function Encode(s: string): string {
    if s == [] then [] else EncodeChar(s[0]) + Encode(s[1..])
  }

  /** Whatever `encodeURIComponent` writes contains only unreserved characters,
      `%` and upper-case hex digits. */
  lemma {:induction false} EncodeAlphabet(s: string)
    ensures forall i :: 0 <= i < |Encode(s)| ==> IsUnreserved(Encode(s)[i]) || Encode(s)[i] == '%'
    decreases |s|
  {
    if s != [] {
      EncodeAlphabet(s[1..]);
      var e := EncodeChar(s[0]);
      if !IsUnreserved(s[0]) {
        EscapeAllAlphabet(Utf8(s[0]));
      }
      assert Encode(s) == e + Encode(s[1..]);
    }
  }

  lemma {:induction false} EscapeAllAlphabet(bs: seq<nat>)
    requires forall i :: 0 <= i < |bs| ==> bs[i] < 256
    ensures forall i :: 0 <= i < |EscapeAll(bs)| ==> IsUnreserved(EscapeAll(bs)[i]) || EscapeAll(bs)[i] == '%'
  {
    if bs != [] {
      EscapeAllAlphabet(bs[1..]);
    }
  }

  lemma EscapedByteOfEscape(b: nat, t: string)
    requires b < 256
    ensures EscapedByte(Escape(b) + t, 0) == Some(b)
  {
  }

  /** Reading the escape at offset `3k` of escaped bytes gives byte `k` back. */
  lemma {:induction false} EscapedByteAt(bs: seq<nat>, t: string, k: nat)
    requires forall i :: 0 <= i < |bs| ==> bs[i] < 256
    requires k < |bs|
    ensures EscapedByte(EscapeAll(bs) + t, 3 * k) == Some(bs[k])
  {
    var s := EscapeAll(bs) + t;
    if k == 0 {
      assert s == Escape(bs[0]) + (EscapeAll(bs[1..]) + t);
      EscapedByteOfEscape(bs[0], EscapeAll(bs[1..]) + t);
    } else {
      EscapedByteAt(bs[1..], t, k - 1);
      var s' := EscapeAll(bs[1..]) + t;
      assert s == Escape(bs[0]) + s';
      assert s[3 * k..3 * k + 3] == s'[3 * (k - 1)..3 * (k - 1) + 3];
    }
  }

  lemma Split2(cp: int)
    requires 0x80 <= cp < 0x800
    ensures 0xC0 <= 0xC0 + cp / 64 <= 0xDF
    ensures (cp / 64) * 64 + cp % 64 == cp
  {
  }

  lemma Split3(cp: int)
    requires 0x800 <= cp < 0x1_0000
    ensures 0xE0 <= 0xE0 + cp / 4096 <= 0xEF
    ensures (cp / 4096) * 4096 + ((cp / 64) % 64) * 64 + cp % 64 == cp
  {
    assert cp / 64 == (cp / 4096) * 64 + (cp / 64) % 64;
  }

  lemma Split4(cp: int)
    requires 0x1_0000 <= cp < 0x11_0000
    ensures 0xF0 <= 0xF0 + cp / 262144 <= 0xF7
    ensures (cp / 262144) * 262144 + ((cp / 4096) % 64) * 4096 + ((cp / 64) % 64) * 64 + cp % 64 == cp
  {
    assert cp / 64 == (cp / 4096) * 64 + (cp / 64) % 64;
    assert cp / 4096 == (cp / 262144) * 64 + (cp / 4096) % 64;
  }

  /** An escaped non-unreserved character decodes back to itself. */
  lemma DecodeEscapeOfChar(c: char, t: string)
    requires !IsUnreserved(c)
    ensures EscapeAll(Utf8(c)) + t != [] && (EscapeAll(Utf8(c)) + t)[0] == '%'
    ensures DecodeEscape(EscapeAll(Utf8(c)) + t) == Some((c, |EscapeAll(Utf8(c))|))
  {
    EscapedByteAt(Utf8(c), t, 0);
    var cp := c as int;
    if cp < 0x80 {
    } else if cp < 0x800 {
      DecodeEscapeOfChar2(c, t);
    } else if cp < 0x1_0000 {
      DecodeEscapeOfChar3(c, t);
    } else {
      DecodeEscapeOfChar4(c, t);
    }
  }

  lemma DecodeEscapeOfChar2(c: char, t: string)
    requires 0x80 <= c as int < 0x800
    ensures DecodeEscape(EscapeAll(Utf8(c)) + t) == Some((c, |EscapeAll(Utf8(c))|))
  {
    var bs := Utf8(c);
    EscapedByteAt(bs, t, 0);
    Split2(c as int);
    EscapedByteAt(bs, t, 1);
  }

  lemma DecodeEscapeOfChar3(c: char, t: string)
    requires 0x800 <= c as int < 0x1_0000
    ensures DecodeEscape(EscapeAll(Utf8(c)) + t) == Some((c, |EscapeAll(Utf8(c))|))
  {
    var bs := Utf8(c);
    EscapedByteAt(bs, t, 0);
    Split3(c as int);
    EscapedByteAt(bs, t, 1);
    EscapedByteAt(bs, t, 2);
  }

  lemma DecodeEscapeOfChar4(c: char, t: string)
    requires 0x1_0000 <= c as int
    ensures DecodeEscape(EscapeAll(Utf8(c)) + t) == Some((c, |EscapeAll(Utf8(c))|))
  {
    var bs := Utf8(c);
    EscapedByteAt(bs, t, 0);
    Split4(c as int);
    EscapedByteAt(bs, t, 1);
    EscapedByteAt(bs, t, 2);
    EscapedByteAt(bs, t, 3);
  }

  /** Round trip: decoding what `encodeURIComponent` wrote gives the text back. */
  lemma {:induction false} DecodeEncode(s: string)
    ensures Decode(Encode(s)) == Some(s)
    decreases |s|
  {
    if s != [] {
      var c := s[0];
      var t := Encode(s[1..]);
      DecodeEncode(s[1..]);
      assert Encode(s) == EncodeChar(c) + t;
      if IsUnreserved(c) {
        assert (EncodeChar(c) + t)[1..] == t;
      } else {
        DecodeEscapeOfChar(c, t);
        var e := EscapeAll(Utf8(c));
        assert (e + t)[|e|..] == t;
      }
      assert s == [c] + s[1..];
    }
  }
}
