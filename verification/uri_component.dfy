/** `encodeURIComponent`, with which the client builds the vCard data URL, and
    `decodeURIComponent`, its inverse, as ECMAScript defines them (the Encode
    and Decode abstract operations with an empty reserved set). Strings are
    sequences of Unicode scalar values; each is written as its UTF-8 octets,
    every octet escaped as `%` and two upper-case hex digits, except the
    unreserved marks and alphanumerics, which are copied. */
module UriComponent {
  import opened Wrappers

  /** The characters `encodeURIComponent` leaves alone: ASCII letters and
      digits and `- _ . ! ~ * ' ( )`. */
  predicate IsUnreserved(c: char) {
    || ('A' <= c <= 'Z') || ('a' <= c <= 'z') || ('0' <= c <= '9')
    || c == '-' || c == '_' || c == '.' || c == '!' || c == '~'
    || c == '*' || c == '\'' || c == '(' || c == ')'
  }

  predicate IsUpperHex(c: char) {
    ('0' <= c <= '9') || ('A' <= c <= 'F')
  }

  /** The characters that can appear in an encoded component. */
  predicate IsEncodedChar(c: char) {
    IsUnreserved(c) || c == '%'
  }

  predicate IsOctet(b: int) {
    0 <= b < 256
  }

  function HexDigit(n: int): (c: char)
    requires 0 <= n < 16
    ensures IsUpperHex(c)
  {
    "0123456789ABCDEF"[n]
  }

  /** The value of a hex digit of either case. */
  function HexValue(c: char): (v: Option<int>)
    ensures v.Some? ==> 0 <= v.value < 16
    ensures v.Some? <==> ('0' <= c <= '9' || 'A' <= c <= 'F' || 'a' <= c <= 'f')
  {
    if '0' <= c <= '9' then Some(c as int - '0' as int)
    else if 'A' <= c <= 'F' then Some(c as int - 'A' as int + 10)
    else if 'a' <= c <= 'f' then Some(c as int - 'a' as int + 10)
    else None
  }

  /** `%HH` for one octet. */
  function EscapeOctet(b: int): (r: string)
    requires IsOctet(b)
  {
    ['%', HexDigit(b / 16), HexDigit(b % 16)]
  }

  function EscapeOctets(bs: seq<int>): string
    requires forall i :: 0 <= i < |bs| ==> IsOctet(bs[i])
  {
    if bs == [] then "" else EscapeOctet(bs[0]) + EscapeOctets(bs[1..])
  }

  /** The UTF-8 octets of a Unicode scalar value (RFC 3629, section 3). */
  function Utf8(c: char): (bs: seq<int>)
    ensures 1 <= |bs| <= 4
    ensures forall i :: 0 <= i < |bs| ==> IsOctet(bs[i])
  {
    var v := c as int;
    if v < 0x80 then [v]
    else if v < 0x800 then [0xC0 + v / 0x40, 0x80 + v % 0x40]
    else if v < 0x1_0000 then [0xE0 + v / 0x1000, 0x80 + (v / 0x40) % 0x40, 0x80 + v % 0x40]
    else [0xF0 + v / 0x4_0000, 0x80 + (v / 0x1000) % 0x40, 0x80 + (v / 0x40) % 0x40, 0x80 + v % 0x40]
  }

  function EncodeChar(c: char): string {
    if IsUnreserved(c) then [c] else EscapeOctets(Utf8(c))
  }

  /** `encodeURIComponent(s)`. */
  function Encode(s: string): (r: string)
    ensures forall i :: 0 <= i < |r| ==> IsEncodedChar(r[i])
  {
    if s == [] then "" else
      EncodedCharsSafe(s[0]);
      EncodeChar(s[0]) + Encode(s[1..])
  }

  lemma EncodedCharsSafe(c: char)
    ensures forall i :: 0 <= i < |EncodeChar(c)| ==> IsEncodedChar(EncodeChar(c)[i])
  {
    if !IsUnreserved(c) {
      EscapedOctetsSafe(Utf8(c));
    }
  }

  lemma {:induction false} EscapedOctetsSafe(bs: seq<int>)
    requires forall i :: 0 <= i < |bs| ==> IsOctet(bs[i])
    ensures forall i :: 0 <= i < |EscapeOctets(bs)| ==> IsEncodedChar(EscapeOctets(bs)[i])
  {
    if bs != [] {
      EscapedOctetsSafe(bs[1..]);
    }
  }

  // ---------------------------------------------------------------------
  // Decoding

  /** The octet that the escape `%HH` at the head of `s` stands for, if the
      head of `s` is such an escape. */
  function OctetAt(s: string): (b: Option<int>)
    ensures b.Some? ==> IsOctet(b.value)
  {
    if |s| < 3 || s[0] != '%' then None
    else match (HexValue(s[1]), HexValue(s[2]))
      case (Some(hi), Some(lo)) => Some(hi * 16 + lo)
      case _ => None
  }

  /** `n` escapes read from the head of `s`. */
  function OctetsAt(s: string, n: nat): (r: Option<seq<int>>)
    ensures r.Some? ==> |r.value| == n && |s| >= 3 * n
    ensures r.Some? ==> forall i :: 0 <= i < n ==> IsOctet(r.value[i])
  {
    if n == 0 then Some([])
    else match OctetAt(s)
      case None => None
      case Some(b) =>
        match OctetsAt(s[3..], n - 1)
        case None => None
        case Some(bs) => Some([b] + bs)
  }

  /** The length of the UTF-8 sequence that a lead octet begins; 0 when the
      octet cannot begin one (a continuation octet, or more than four leading
      one bits). */
  function SequenceLength(lead: int): (n: nat)
    requires IsOctet(lead)
    ensures n <= 4
  {
    if lead < 0x80 then 1
    else if lead < 0xC0 then 0
    else if lead < 0xE0 then 2
    else if lead < 0xF0 then 3
    else if lead < 0xF8 then 4
    else 0
  }

  predicate IsContinuation(b: int) {
    0x80 <= b < 0xC0
  }

  /** The scalar value that a complete UTF-8 sequence encodes; None for an
      overlong form, a surrogate or a value beyond U+10FFFF. */
  function DecodeUtf8(bs: seq<int>): Option<char>
    requires 1 <= |bs| <= 4 && forall i :: 0 <= i < |bs| ==> IsOctet(bs[i])
  {
    if |bs| == 1 then
      if 0 <= bs[0] < 0x80 then Some(bs[0] as char) else None
    else if exists i :: 1 <= i < |bs| && !IsContinuation(bs[i]) then None
    else if |bs| == 2 then
      var v := (bs[0] - 0xC0) * 0x40 + (bs[1] - 0x80);
      if 0xC0 <= bs[0] < 0xE0 && 0x80 <= v then Some(v as char) else None
    else if |bs| == 3 then
      var v := (bs[0] - 0xE0) * 0x1000 + (bs[1] - 0x80) * 0x40 + (bs[2] - 0x80);
      if 0xE0 <= bs[0] < 0xF0 && 0x800 <= v && !(0xD800 <= v < 0xE000) then Some(v as char) else None
    else
      var v := (bs[0] - 0xF0) * 0x4_0000 + (bs[1] - 0x80) * 0x1000 + (bs[2] - 0x80) * 0x40 + (bs[3] - 0x80);
      if 0xF0 <= bs[0] < 0xF8 && 0x1_0000 <= v < 0x11_0000 then Some(v as char) else None
  }

  /** `decodeURIComponent(s)`; None where it throws a URIError. */
  function Decode(s: string): Option<string>
    decreases |s|
  {
    if s == [] then Some("")
    else if s[0] != '%' then
      match Decode(s[1..])
      case None => None
      case Some(t) => Some([s[0]] + t)
    else
      match OctetAt(s)
      case None => None
      case Some(lead) =>
        var n := SequenceLength(lead);
        if n == 0 then None
        else match OctetsAt(s[3..], n - 1)
          case None => None
          case Some(more) =>
            match DecodeUtf8([lead] + more)
            case None => None
            case Some(c) =>
              match Decode(s[3 * n..])
              case None => None
              case Some(t) => Some([c] + t)
  }

  // ---------------------------------------------------------------------
  // Round trip

  lemma HexRoundTrip(b: int)
    requires IsOctet(b)
    ensures HexValue(HexDigit(b / 16)) == Some(b / 16)
    ensures HexValue(HexDigit(b % 16)) == Some(b % 16)
  {
  }

  lemma OctetAtEscape(b: int, rest: string)
    requires IsOctet(b)
    ensures OctetAt(EscapeOctet(b) + rest) == Some(b)
  {
    HexRoundTrip(b);
  }

  lemma {:induction false} EscapeOctetsLength(bs: seq<int>)
    requires forall i :: 0 <= i < |bs| ==> IsOctet(bs[i])
    ensures |EscapeOctets(bs)| == 3 * |bs|
    decreases |bs|
  {
    if bs != [] {
      EscapeOctetsLength(bs[1..]);
    }
  }

  lemma OctetsAtStep(s: string, n: nat, b: int, bs: seq<int>)
    requires n >= 1 && |s| >= 3 && OctetAt(s) == Some(b)
    requires OctetsAt(s[3..], n - 1) == Some(bs)
    ensures OctetsAt(s, n) == Some([b] + bs)
  {
  }

  lemma {:induction false} OctetsAtEscapes(bs: seq<int>, rest: string)
    requires forall i :: 0 <= i < |bs| ==> IsOctet(bs[i])
    ensures OctetsAt(EscapeOctets(bs) + rest, |bs|) == Some(bs)
    ensures |EscapeOctets(bs)| == 3 * |bs|
    decreases |bs|
  {
    EscapeOctetsLength(bs);
    if bs != [] {
      var tail := EscapeOctets(bs[1..]) + rest;
      var s := EscapeOctets(bs) + rest;
      assert s == EscapeOctet(bs[0]) + tail;
      OctetAtEscape(bs[0], tail);
      assert s[3..] == tail;
      OctetsAtEscapes(bs[1..], rest);
      OctetsAtStep(s, |bs|, bs[0], bs[1..]);
      assert [bs[0]] + bs[1..] == bs;
    }
  }

  lemma Utf8TwoOctets(c: char)
    requires 0x80 <= c as int < 0x800
    ensures SequenceLength(Utf8(c)[0]) == 2
    ensures DecodeUtf8(Utf8(c)) == Some(c)
  {
    var v := c as int;
    var hi, lo := v / 0x40, v % 0x40;
    assert v == hi * 0x40 + lo;
    var bs := Utf8(c);
    assert bs == [0xC0 + hi, 0x80 + lo];
    assert forall i :: 1 <= i < |bs| ==> IsContinuation(bs[i]);
  }

  lemma Utf8ThreeOctets(c: char)
    requires 0x800 <= c as int < 0x1_0000
    ensures SequenceLength(Utf8(c)[0]) == 3
    ensures DecodeUtf8(Utf8(c)) == Some(c)
  {
    var v := c as int;
    var hi, mid, lo := v / 0x1000, (v / 0x40) % 0x40, v % 0x40;
    assert v == hi * 0x1000 + mid * 0x40 + lo;
    var bs := Utf8(c);
    assert bs == [0xE0 + hi, 0x80 + mid, 0x80 + lo];
    assert forall i :: 1 <= i < |bs| ==> IsContinuation(bs[i]);
  }

  lemma FourOctetParts(v: int)
    requires 0 <= v
    ensures v == (v / 0x4_0000) * 0x4_0000 + ((v / 0x1000) % 0x40) * 0x1000 + ((v / 0x40) % 0x40) * 0x40 + v % 0x40
  {
    var a, b := v / 0x40, v % 0x40;
    var c, d := a / 0x40, a % 0x40;
    var e, f := c / 0x40, c % 0x40;
    assert v == a * 0x40 + b && a == c * 0x40 + d && c == e * 0x40 + f;
    assert c == v / 0x1000 && e == v / 0x4_0000;
  }

  lemma Utf8FourOctets(c: char)
    requires 0x1_0000 <= c as int
    ensures SequenceLength(Utf8(c)[0]) == 4
    ensures DecodeUtf8(Utf8(c)) == Some(c)
  {
    var v := c as int;
    var hi, upper, lower, lo := v / 0x4_0000, (v / 0x1000) % 0x40, (v / 0x40) % 0x40, v % 0x40;
    FourOctetParts(v);
    var bs := Utf8(c);
    assert bs == [0xF0 + hi, 0x80 + upper, 0x80 + lower, 0x80 + lo];
    assert forall i :: 1 <= i < |bs| ==> IsContinuation(bs[i]);
  }

  /** The UTF-8 octets of a scalar value decode back to it, and its lead
      octet announces their number. */
  lemma Utf8RoundTrip(c: char)
    ensures SequenceLength(Utf8(c)[0]) == |Utf8(c)|
    ensures DecodeUtf8(Utf8(c)) == Some(c)
  {
    var v := c as int;
    if v < 0x80 {
    } else if v < 0x800 {
      Utf8TwoOctets(c);
    } else if v < 0x1_0000 {
      Utf8ThreeOctets(c);
    } else {
      Utf8FourOctets(c);
    }
  }

  lemma DecodeAfterChar(c: char, rest: string)
    ensures Decode(EncodeChar(c) + rest) ==
      match Decode(rest) case None => None case Some(t) => Some([c] + t)
  {
    var s := EncodeChar(c) + rest;
    if IsUnreserved(c) {
      assert s[0] == c && s[1..] == rest;
    } else {
      DecodeAfterEscapes(c, rest);
    }
  }

  /** One step of Decode at an escape that starts a well-formed sequence. */
  lemma DecodeEscapeStep(s: string, lead: int, more: seq<int>, c: char)
    requires s != [] && s[0] == '%' && OctetAt(s) == Some(lead)
    requires SequenceLength(lead) == |more| + 1
    requires OctetsAt(s[3..], |more|) == Some(more)
    requires DecodeUtf8([lead] + more) == Some(c)
    ensures Decode(s) ==
      match Decode(s[3 * (|more| + 1)..]) case None => None case Some(t) => Some([c] + t)
  {
  }

  /** Escaped octets read back one by one from the head of the text. */
  lemma EscapesHead(bs: seq<int>, rest: string)
    requires |bs| >= 1 && forall i :: 0 <= i < |bs| ==> IsOctet(bs[i])
    ensures var s := EscapeOctets(bs) + rest;
      && |s| >= 3 * |bs| && s[0] == '%' && OctetAt(s) == Some(bs[0])
      && OctetsAt(s[3..], |bs| - 1) == Some(bs[1..]) && s[3 * |bs|..] == rest
  {
    var s := EscapeOctets(bs) + rest;
    var tail := EscapeOctets(bs[1..]) + rest;
    assert s == EscapeOctet(bs[0]) + tail;
    OctetAtEscape(bs[0], tail);
    assert s[3..] == tail;
    OctetsAtEscapes(bs[1..], rest);
    OctetsAtEscapes(bs, rest);
  }

  lemma DecodeAfterEscapes(c: char, rest: string)
    ensures Decode(EscapeOctets(Utf8(c)) + rest) ==
      match Decode(rest) case None => None case Some(t) => Some([c] + t)
  {
    var bs := Utf8(c);
    EscapesHead(bs, rest);
    Utf8RoundTrip(c);
    assert [bs[0]] + bs[1..] == bs;
    DecodeEscapeStep(EscapeOctets(bs) + rest, bs[0], bs[1..], c);
  }

  /** `decodeURIComponent(encodeURIComponent(s)) == s`, for every string of
      scalar values. */
  lemma {:induction false} DecodeEncode(s: string)
    ensures Decode(Encode(s)) == Some(s)
    decreases |s|
  {
    if s != [] {
      DecodeAfterChar(s[0], Encode(s[1..]));
      DecodeEncode(s[1..]);
      assert [s[0]] + s[1..] == s;
    }
  }
}
