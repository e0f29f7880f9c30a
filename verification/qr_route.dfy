/** The `GET /api/qr` handler: the request's query parameters and forwarding
    headers are normalised into a target URL, an image format and a width,
    and the QR code library renders the URL as an SVG document or a PNG
    image, served with a long-lived cache header. The two library calls are
    parameters of the model. */
module QrRoute {
  import opened Wrappers
  import opened Strings

  /** What the handler reads from the request: the `x-forwarded-proto` and
      `host` headers and the `url`, `format` and `size` query parameters,
      each None when absent. */
  datatype Request = Request(
    forwardedProto: Option<string>, host: Option<string>,
    url: Option<string>, format: Option<string>, size: Option<string>)

  /** A string that is present and truthy, that is non-empty. */
  predicate Given(value: Option<string>) {
    value.Some? && value.value != ""
  }

  /** `value || fallback`: an absent or empty string gives the fallback. */
  function OrDefault(value: Option<string>, fallback: string): (r: string)
    ensures Given(value) ==> r == value.value
    ensures !Given(value) ==> r == fallback
  {
    if value.Some? && value.value != "" then value.value else fallback
  }

  /** The address of the site itself, from the forwarding headers. */
  function DefaultUrl(req: Request): (u: string)
    ensures u == (if Given(req.forwardedProto) then req.forwardedProto.value else "https")
      + "://" + (if Given(req.host) then req.host.value else "localhost:3000")
  {
    OrDefault(req.forwardedProto, "https") + "://" + OrDefault(req.host, "localhost:3000")
  }

  /** The URL the code will encode. */
  function TargetUrl(req: Request): (u: string)
    ensures Given(req.url) ==> u == req.url.value
    ensures !Given(req.url) ==> u == DefaultUrl(req)
  {
    OrDefault(req.url, DefaultUrl(req))
  }

  /** The lower-cased format, `png` when none is given. */
  function Format(req: Request): (f: string)
    ensures !Given(req.format) ==> f == "png"
    ensures Given(req.format) ==> |f| == |req.format.value|
    ensures Given(req.format) ==> forall i :: 0 <= i < |f| ==> f[i] == LowerAsciiChar(req.format.value[i])
  {
    ToLowerAscii(OrDefault(req.format, "png"))
  }

  /** The SVG branch is taken exactly when the format is `svg`. */
  predicate IsSvg(req: Request)
    ensures IsSvg(req) ==> Given(req.format) && |req.format.value| == 3
  {
    Format(req) == "svg"
  }

  // ---------------------------------------------------------------------
  // parseInt(s, 10)

  /** The value of a decimal digit. */
  function DigitValue(c: char): (v: nat)
    requires IsDigit(c)
    ensures v < 10
  {
    c as int - '0' as int
  }

  /** The digit of a value below ten. */
  function DigitChar(v: nat): (c: char)
    requires v < 10
    ensures IsDigit(c) && DigitValue(c) == v
  {
    (v + '0' as int) as char
  }

  /** The longest prefix of `s` made of decimal digits. */
  function DigitPrefix(s: string): (d: string)
    ensures |d| <= |s| && d == s[..|d|]
    ensures forall i :: 0 <= i < |d| ==> IsDigit(d[i])
    ensures |d| == |s| || !IsDigit(s[|d|])
  {
    if s != [] && IsDigit(s[0]) then [s[0]] + DigitPrefix(s[1..]) else []
  }

  /** The value of a string of decimal digits, most significant first. */
  function DigitsValue(d: string): nat
    requires forall i :: 0 <= i < |d| ==> IsDigit(d[i])
  {
    if d == [] then 0 else DigitsValue(d[..|d| - 1]) * 10 + DigitValue(d[|d| - 1])
  }

  /** `parseInt(s, 10)` as an exact integer, None for NaN: leading whitespace
      is skipped, one `+` or `-` is taken as the sign, and the longest run of
      decimal digits after it is read; anything after the run is ignored,
      and without a digit the result is NaN. */
  function ParseInt(s: string): (r: Option<int>)
    ensures var u := Unsigned(DropWhiteSpace(s)); r.None? <==> u == [] || !IsDigit(u[0])
  {
    ParseSigned(DropWhiteSpace(s))
  }

  /** The text after one leading sign, if there is one. */
  function Unsigned(t: string): string {
    if t != [] && (t[0] == '-' || t[0] == '+') then t[1..] else t
  }

  /** An optional sign, then digits: NaN exactly when no digit follows the
      sign, and negative only after a `-`. */
  function ParseSigned(t: string): (r: Option<int>)
    ensures r.None? <==> Unsigned(t) == [] || !IsDigit(Unsigned(t)[0])
    ensures r.Some? && r.value < 0 ==> t != [] && t[0] == '-'
  {
    if t != [] && t[0] == '-' then
      match ParseDigits(t[1..])
      case None => None
      case Some(v) => Some(-v)
    else if t != [] && t[0] == '+' then ParseDigits(t[1..])
    else ParseDigits(t)
  }

  /** The value of the leading digits; None when there are none. */
  function ParseDigits(t: string): (r: Option<int>)
    ensures r.None? <==> t == [] || !IsDigit(t[0])
    ensures r.Some? ==> r.value >= 0
  {
    var d := DigitPrefix(t);
    if d == [] then None else Some(DigitsValue(d))
  }

  /** `String(n)` for a non-negative integer: its decimal numeral. */
  function Decimal(n: nat): (d: string)
    ensures d != [] && forall i :: 0 <= i < |d| ==> IsDigit(d[i])
  {
    if n < 10 then [DigitChar(n)] else Decimal(n / 10) + [DigitChar(n % 10)]
  }

  /** `String(n)` for any integer. */
  function Numeral(n: int): string {
    if n < 0 then "-" + Decimal(-n) else Decimal(n)
  }

  /** Integers of at least this magnitude round to an infinite double, so
      `Number.isFinite` is false for them: 2^1024 - 2^970, halfway between the
      largest finite double and 2^1024, where ties round to even. */
  const FiniteBound: int := 0xFFFFFFFFFFFFFC00_0000000000000000_0000000000000000_0000000000000000_0000000000000000_0000000000000000_0000000000000000_0000000000000000_0000000000000000_0000000000000000_0000000000000000_0000000000000000_0000000000000000_0000000000000000_0000000000000000_0000000000000000

  /** `Number.isFinite` of the double nearest to `n`. */
  predicate IsFiniteNumber(n: int) {
    -FiniteBound < n < FiniteBound
  }

  /** `Number.isFinite(p) ? Math.max(128, Math.min(p, 2048)) : 512`. */
  function Width(parsed: Option<int>): (w: int)
    ensures 128 <= w <= 2048
  {
    if parsed.Some? && IsFiniteNumber(parsed.value) then
      var p := parsed.value;
      var low := if p < 2048 then p else 2048;
      if 128 < low then low else 128
    else 512
  }

  /** The width the handler renders at. */
  function RequestWidth(req: Request): (w: int)
    ensures 128 <= w <= 2048
  {
    Width(ParseInt(OrDefault(req.size, "512")))
  }

  // ---------------------------------------------------------------------
  // Rendering and the response

  datatype ImageType = Svg | Png

  /** The options handed to the QR code library. */
  datatype Options = Options(width: int, margin: int, dark: string, light: string, imageType: ImageType)

  function RenderOptions(req: Request, imageType: ImageType): (o: Options)
    ensures 128 <= o.width <= 2048 && o.margin == 1
    ensures o.dark == "#0F172A" && o.light == "#F4F1EA" && o.imageType == imageType
  {
    Options(RequestWidth(req), 1, "#0F172A", "#F4F1EA", imageType)
  }

  const CacheControl: string := "public, max-age=31536000, immutable"

  /** The handler; `toSvg` and `toPng` stand for the library's `toString`
      and `toBuffer`. */
  function Get(req: Request, toSvg: (string, Options) -> string, toPng: (string, Options) -> seq<byte>): (r: Response)
    ensures r.status == 200 && (r.body.Text? <==> IsSvg(req))
  {
    if IsSvg(req) then
      Response(200, Text(toSvg(TargetUrl(req), RenderOptions(req, Svg))),
        map["Content-Type" := "image/svg+xml", "Cache-Control" := CacheControl])
    else
      Response(200, Bytes(toPng(TargetUrl(req), RenderOptions(req, Png))),
        map["Content-Type" := "image/png", "Cache-Control" := CacheControl])
  }

  // ---------------------------------------------------------------------
  // Properties

  lemma {:induction false} DecimalValue(n: nat)
    ensures DigitsValue(Decimal(n)) == n
    decreases n
  {
    if n >= 10 {
      var d := Decimal(n);
      assert d[..|d| - 1] == Decimal(n / 10);
      DecimalValue(n / 10);
    }
  }

  lemma {:induction false} DigitPrefixOf(d: string, rest: string)
    requires forall i :: 0 <= i < |d| ==> IsDigit(d[i])
    requires rest == [] || !IsDigit(rest[0])
    ensures DigitPrefix(d + rest) == d
    decreases |d|
  {
    if d == [] {
      assert d + rest == rest;
    } else {
      assert (d + rest)[0] == d[0];
      assert (d + rest)[1..] == d[1..] + rest;
      DigitPrefixOf(d[1..], rest);
      assert [d[0]] + d[1..] == d;
    }
  }

  /** Whitespace in front of the string does not change what parseInt reads. */
  lemma {:induction false} ParseAfterWhiteSpace(ws: string, s: string)
    requires forall i :: 0 <= i < |ws| ==> IsWhiteSpace(ws[i])
    ensures ParseInt(ws + s) == ParseInt(s)
    decreases |ws|
  {
    if ws != [] {
      assert (ws + s)[0] == ws[0];
      assert (ws + s)[1..] == ws[1..] + s;
      ParseAfterWhiteSpace(ws[1..], s);
    } else {
      assert ws + s == s;
    }
  }

  lemma NoLeadingWhiteSpace(t: string)
    requires t != [] && !IsWhiteSpace(t[0])
    ensures DropWhiteSpace(t) == t
  {
  }

  lemma ParseDigitsOf(n: nat, rest: string)
    requires rest == [] || !IsDigit(rest[0])
    ensures ParseDigits(Decimal(n) + rest) == Some(n)
  {
    DecimalValue(n);
    DigitPrefixOf(Decimal(n), rest);
  }

  /** A leading minus negates the digits after it. */
  lemma MinusStep(t: string)
    ensures ParseSigned("-" + t) == match ParseDigits(t)
      case None => None
      case Some(v) => Some(-v)
  {
    assert ("-" + t)[0] == '-' && ("-" + t)[1..] == t;
  }

  lemma NegativeNumeral(m: nat, rest: string)
    requires m > 0
    ensures Numeral(-(m as int)) + rest == "-" + (Decimal(m) + rest)
  {
    assert Numeral(-(m as int)) == "-" + Decimal(m);
  }

  lemma ParseSignedNegative(m: nat, rest: string)
    requires rest == [] || !IsDigit(rest[0])
    ensures ParseSigned("-" + (Decimal(m) + rest)) == Some(-(m as int))
  {
    ParseDigitsOf(m, rest);
    MinusStep(Decimal(m) + rest);
  }

  lemma ParseSignedDigits(m: nat, rest: string)
    requires rest == [] || !IsDigit(rest[0])
    ensures ParseSigned(Decimal(m) + rest) == Some(m)
  {
    ParseDigitsOf(m, rest);
    assert (Decimal(m) + rest)[0] == Decimal(m)[0];
  }

  lemma ParseSignedNumeral(n: int, rest: string)
    requires rest == [] || !IsDigit(rest[0])
    ensures ParseSigned(Numeral(n) + rest) == Some(n)
  {
    if n < 0 {
      var m: nat := -n;
      NegativeNumeral(m, rest);
      ParseSignedNegative(m, rest);
    } else {
      ParseSignedDigits(n, rest);
    }
  }

  lemma NumeralStart(n: int, rest: string)
    ensures Numeral(n) + rest != [] && !IsWhiteSpace((Numeral(n) + rest)[0])
  {
    if n < 0 {
      assert (Numeral(n) + rest)[0] == '-';
    } else {
      assert (Numeral(n) + rest)[0] == Decimal(n)[0];
    }
  }

  /** parseInt reads back the numeral of any integer, whatever non-digit text
      follows it. */
  lemma ParseNumeral(n: int, rest: string)
    requires rest == [] || !IsDigit(rest[0])
    ensures ParseInt(Numeral(n) + rest) == Some(n)
  {
    NumeralStart(n, rest);
    NoLeadingWhiteSpace(Numeral(n) + rest);
    ParseSignedNumeral(n, rest);
  }

  lemma ParseDigitsRun(d: string, rest: string)
    requires d != [] && forall i :: 0 <= i < |d| ==> IsDigit(d[i])
    requires rest == [] || !IsDigit(rest[0])
    ensures ParseDigits(d + rest) == Some(DigitsValue(d))
  {
    DigitPrefixOf(d, rest);
  }

  lemma PlusStep(t: string)
    ensures ParseSigned("+" + t) == ParseDigits(t)
  {
    assert ("+" + t)[0] == '+' && ("+" + t)[1..] == t;
  }

  lemma ParseMinusRun(d: string, rest: string)
    requires d != [] && forall i :: 0 <= i < |d| ==> IsDigit(d[i])
    requires rest == [] || !IsDigit(rest[0])
    ensures ParseSigned("-" + (d + rest)) == Some(-(DigitsValue(d) as int))
  {
    ParseDigitsRun(d, rest);
    MinusStep(d + rest);
  }

  lemma ParsePlusRun(d: string, rest: string)
    requires d != [] && forall i :: 0 <= i < |d| ==> IsDigit(d[i])
    requires rest == [] || !IsDigit(rest[0])
    ensures ParseSigned("+" + (d + rest)) == Some(DigitsValue(d))
  {
    ParseDigitsRun(d, rest);
    PlusStep(d + rest);
  }

  lemma ParseBareRun(d: string, rest: string)
    requires d != [] && forall i :: 0 <= i < |d| ==> IsDigit(d[i])
    requires rest == [] || !IsDigit(rest[0])
    ensures ParseSigned(d + rest) == Some(DigitsValue(d))
  {
    ParseDigitsRun(d, rest);
    assert (d + rest)[0] == d[0];
  }

  /** A sign (or none) before a run of digits: the run's value, negated
      after `-`. */
  lemma ParseSignedOf(sign: string, d: string, rest: string)
    requires sign == "" || sign == "-" || sign == "+"
    requires d != [] && forall i :: 0 <= i < |d| ==> IsDigit(d[i])
    requires rest == [] || !IsDigit(rest[0])
    ensures ParseSigned(sign + (d + rest)) == Some(if sign == "-" then -(DigitsValue(d) as int) else DigitsValue(d))
  {
    if sign == "-" {
      ParseMinusRun(d, rest);
    } else if sign == "+" {
      ParsePlusRun(d, rest);
    } else {
      ParseBareRun(d, rest);
      assert sign + (d + rest) == d + rest;
    }
  }

  lemma RunStart(sign: string, d: string, rest: string)
    requires sign == "" || sign == "-" || sign == "+"
    requires d != [] && forall i :: 0 <= i < |d| ==> IsDigit(d[i])
    ensures ParseInt(sign + (d + rest)) == ParseSigned(sign + (d + rest))
  {
    assert (d + rest)[0] == d[0];
    SignedStart(sign, d + rest);
  }

  /** parseInt of any text that has a digit after the whitespace and the
      sign: leading zeros and a `+` included, whatever follows the digits.
      With `NoDigitIsNaN` this covers every input. */
  lemma ParseWritten(ws: string, sign: string, d: string, rest: string)
    requires forall i :: 0 <= i < |ws| ==> IsWhiteSpace(ws[i])
    requires sign == "" || sign == "-" || sign == "+"
    requires d != [] && forall i :: 0 <= i < |d| ==> IsDigit(d[i])
    requires rest == [] || !IsDigit(rest[0])
    ensures ParseInt(ws + (sign + (d + rest))) == Some(if sign == "-" then -(DigitsValue(d) as int) else DigitsValue(d))
  {
    RunStart(sign, d, rest);
    ParseAfterWhiteSpace(ws, sign + (d + rest));
    ParseSignedOf(sign, d, rest);
  }

  lemma ParseSignedNoDigit(sign: string, rest: string)
    requires sign == "" || sign == "-" || sign == "+"
    requires rest == [] || (!IsDigit(rest[0]) && (sign != "" || (rest[0] != '-' && rest[0] != '+')))
    ensures ParseSigned(sign + rest) == None
  {
    DigitPrefixOf([], rest);
    assert [] + rest == rest;
    if sign != "" {
      assert (sign + rest)[0] == sign[0] && (sign + rest)[1..] == rest;
    } else {
      assert sign + rest == rest;
    }
  }

  lemma SignedStart(sign: string, rest: string)
    requires sign == "" || sign == "-" || sign == "+"
    requires rest == [] || sign != "" || !IsWhiteSpace(rest[0])
    ensures DropWhiteSpace(sign + rest) == sign + rest
  {
    if sign != "" {
      assert (sign + rest)[0] == sign[0];
      NoLeadingWhiteSpace(sign + rest);
    } else {
      assert sign + rest == rest;
    }
  }

  /** Without a digit after the whitespace and the sign, parseInt gives NaN. */
  lemma NoDigitIsNaN(ws: string, sign: string, rest: string)
    requires forall i :: 0 <= i < |ws| ==> IsWhiteSpace(ws[i])
    requires sign == "" || sign == "-" || sign == "+"
    requires rest == [] || (!IsDigit(rest[0]) && (sign != "" || (!IsWhiteSpace(rest[0]) && rest[0] != '-' && rest[0] != '+')))
    ensures ParseInt(ws + (sign + rest)) == None
  {
    SignedStart(sign, rest);
    ParseSignedNoDigit(sign, rest);
    ParseAfterWhiteSpace(ws, sign + rest);
  }

  /** A size given as the numeral of a finite integer, possibly followed by
      other text, is clamped to [128, 2048]; inside the range it is kept. */
  lemma SizeWidth(req: Request, n: int, rest: string)
    requires req.size == Some(Numeral(n) + rest)
    requires rest == [] || !IsDigit(rest[0])
    requires IsFiniteNumber(n)
    ensures RequestWidth(req) == if n < 128 then 128 else if n > 2048 then 2048 else n
  {
    ParseNumeral(n, rest);
  }

  /** The width for any size with digits after the whitespace and sign: the
      value clamped to 128..2048, or 512 when it is too large for a finite
      double. */
  lemma WrittenSizeWidth(req: Request, ws: string, sign: string, d: string, rest: string)
    requires req.size == Some(ws + (sign + (d + rest)))
    requires forall i :: 0 <= i < |ws| ==> IsWhiteSpace(ws[i])
    requires sign == "" || sign == "-" || sign == "+"
    requires d != [] && forall i :: 0 <= i < |d| ==> IsDigit(d[i])
    requires rest == [] || !IsDigit(rest[0])
    ensures var v := if sign == "-" then -(DigitsValue(d) as int) else DigitsValue(d);
      RequestWidth(req) == if !IsFiniteNumber(v) then 512 else if v < 128 then 128 else if v > 2048 then 2048 else v
  {
    ParseWritten(ws, sign, d, rest);
  }

  /** An integer too large for a double is parsed to an infinity, which is
      not finite, so the width falls back to 512 rather than 2048. */
  lemma HugeSizeFallsBack(req: Request, n: int)
    requires req.size == Some(Numeral(n))
    requires !IsFiniteNumber(n)
    ensures RequestWidth(req) == 512
  {
    ParseNumeral(n, "");
    assert Numeral(n) + "" == Numeral(n);
  }

  /** Text with no digit after the whitespace and sign gives 512. */
  lemma NonNumericSize(req: Request, ws: string, sign: string, rest: string)
    requires req.size == Some(ws + (sign + rest)) && ws + (sign + rest) != ""
    requires forall i :: 0 <= i < |ws| ==> IsWhiteSpace(ws[i])
    requires sign == "" || sign == "-" || sign == "+"
    requires rest == [] || (!IsDigit(rest[0]) && (sign != "" || (!IsWhiteSpace(rest[0]) && rest[0] != '-' && rest[0] != '+')))
    ensures RequestWidth(req) == 512
  {
    NoDigitIsNaN(ws, sign, rest);
  }

  /** An absent or empty size gives 512. */
  lemma DefaultNumeral()
    ensures Numeral(512) + "" == "512"
  {
    assert Decimal(512) == "512";
  }

  lemma DefaultSize(req: Request)
    requires req.size == None || req.size == Some("")
    ensures RequestWidth(req) == 512
  {
    DefaultNumeral();
    ParseNumeral(512, "");
  }

  lemma OversizeExample(req: Request)
    requires req.size == Some("99999")
    ensures RequestWidth(req) == 2048
  {
    assert Numeral(99999) + "" == "99999";
    SizeWidth(req, 99999, "");
  }

  lemma NegativeExample(req: Request)
    requires req.size == Some("-5")
    ensures RequestWidth(req) == 128
  {
    assert Numeral(-5) + "" == "-5";
    SizeWidth(req, -5, "");
  }

  lemma SuffixExample(req: Request)
    requires req.size == Some("12px")
    ensures RequestWidth(req) == 128
  {
    assert Numeral(12) + "px" == "12px";
    SizeWidth(req, 12, "px");
  }

  lemma NonNumericExample(req: Request)
    requires req.size == Some("abc")
    ensures RequestWidth(req) == 512
  {
    assert "" + ("" + "abc") == "abc";
    NonNumericSize(req, "", "", "abc");
  }

  /** The target is the `url` parameter when it is given and non-empty, and
      otherwise the site's own origin, `https://localhost:3000` when neither
      forwarding header is present. */
  lemma TargetUrlChoice(req: Request)
    ensures req.url.Some? && req.url.value != "" ==> TargetUrl(req) == req.url.value
    ensures req.url.None? || req.url.value == "" ==>
      TargetUrl(req) == OrDefault(req.forwardedProto, "https") + "://" + OrDefault(req.host, "localhost:3000")
    ensures (req.url.None? || req.url.value == "") && req.forwardedProto.None? && req.host.None? ==>
      TargetUrl(req) == "https://localhost:3000"
  {
  }

  /** The ASCII lower-casing of a string is `svg` exactly when the string
      spells `svg` in any mix of cases. */
  lemma LowerIsSvg(f: string)
    ensures ToLowerAscii(f) == "svg" <==>
      |f| == 3 && (f[0] == 's' || f[0] == 'S') && (f[1] == 'v' || f[1] == 'V') && (f[2] == 'g' || f[2] == 'G')
  {
    if |f| == 3 {
      var l := ToLowerAscii(f);
      LowerAsciiCharIs(f[0], 's');
      LowerAsciiCharIs(f[1], 'v');
      LowerAsciiCharIs(f[2], 'g');
      if l[0] == 's' && l[1] == 'v' && l[2] == 'g' {
        assert l == "svg";
      }
    }
  }

  /** The SVG branch is taken exactly for a format that spells `svg` in any
      mix of cases; a missing or empty format gives PNG. */
  lemma SvgSpellings(req: Request)
    ensures IsSvg(req) <==>
      && req.format.Some? && |req.format.value| == 3
      && (req.format.value[0] == 's' || req.format.value[0] == 'S')
      && (req.format.value[1] == 'v' || req.format.value[1] == 'V')
      && (req.format.value[2] == 'g' || req.format.value[2] == 'G')
  {
    LowerIsSvg(OrDefault(req.format, "png"));
  }

  /** Margin and colours never depend on the request, and the width depends
      on nothing but the size parameter. */
  lemma OptionsFixed(req: Request, other: Request, t: ImageType)
    ensures RenderOptions(req, t).margin == 1
    ensures RenderOptions(req, t).dark == "#0F172A" && RenderOptions(req, t).light == "#F4F1EA"
    ensures 128 <= RenderOptions(req, t).width <= 2048
    ensures req.size == other.size ==> RenderOptions(req, t) == RenderOptions(other, t)
  {
  }

  /** Status 200, the image media type of the chosen branch, a year-long
      immutable cache, and a body rendered from the target URL with the
      branch's image type. */
  lemma GetResponse(req: Request, toSvg: (string, Options) -> string, toPng: (string, Options) -> seq<byte>)
    ensures var r := Get(req, toSvg, toPng);
      && r.status == 200
      && r.headers.Keys == {"Content-Type", "Cache-Control"}
      && r.headers["Cache-Control"] == "public, max-age=31536000, immutable"
      && r.headers["Content-Type"] == (if IsSvg(req) then "image/svg+xml" else "image/png")
      && (IsSvg(req) ==> r.body == Text(toSvg(TargetUrl(req), RenderOptions(req, Svg))))
      && (!IsSvg(req) ==> r.body == Bytes(toPng(TargetUrl(req), RenderOptions(req, Png))))
  {
  }
}
