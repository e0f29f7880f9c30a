# Contact card and QR endpoints of a personal landing page

This project models the parts of a Next.js personal landing page that compute
something:

- the `GET /api/vcard` route handler, which serves a fixed vCard 3.0 record with
  CRLF line breaks and download headers;
- the `GET /api/qr` route handler, which picks a target URL, an image format and
  a clamped width from the request, renders a QR code through a library, and
  answers with an SVG or PNG body and caching headers;
- the browser-side `downloadVCard` of the two page components (`app/page.tsx`
  and the root `page.tsx`). Each builds a vCard from the page's `content`
  record, drops the empty optional lines and joins the rest with a bare LF. It
  then sets a `data:` URL with the percent-encoded text, and a file name made
  from the contact name, on a fresh anchor element.

The JavaScript built-ins these handlers rely on are modelled explicitly:

- `Array.prototype.filter(Boolean)` on strings and `join`;
- `parseInt(s, 10)`, `Number.isFinite`, `Math.max` and `Math.min`;
- `String.prototype.toLowerCase`, limited to ASCII;
- `replace(/\s+/g, '-')`;
- `encodeURIComponent`, over UTF-8.

Modules:

- `Wrappers` holds `Option`, the byte type and a `Response` value (status, body, header map).
- `Strings` holds joining and splitting, the `\s` character class, whitespace-run replacement, ASCII lower-casing and character counts.
- `VCardText` is a reader for vCard text. It splits the text into lines at a delimiter, each line at its first colon, and structured values at `;`. Both card generators are proved against it.
- `UriComponent` holds `encodeURIComponent`, and a decoder (`decodeURIComponent`) that serves as its inverse.
- `VCardRoute` is the server card route.
- `QrRoute` is the QR route.
- `ClientVCard` is the page-side `downloadVCard`. The DOM anchor is a class whose fields a method sets.

Main results:

- **Server card.** It reads back, at CRLF, as exactly its properties. It has one line break per line boundary. The TEL line is present exactly when a phone number is configured. N and ADR read back as their components.
- **QR route.**
  - The width always lies in 128..2048.
  - `parseInt` reads any integer numeral, with or without leading whitespace, a `+` or `-` sign and leading zeros, whatever non-digit text follows it.
  - Input without digits gives NaN and so the default width of 512.
  - The SVG branch is taken exactly for the case-insensitive spellings of `svg`.
- **Page card.** It reads back, at LF, as its properties. It contains no CR. Each optional property is present exactly when its field is non-empty.
- **Download link.** The `data:` payload decodes back to the card text. The file name contains no whitespace.
- **Pages against the server.** The two pages build identical cards and links. For the configured details, the page card's properties differ from the server's only in order (URL before ADR) and in how the LinkedIn address is marked (X-SOCIALPROFILE instead of item1.URL with item1.X-ABLabel); its lines are joined with LF instead of CRLF. The page writes EMAIL, URL and the LinkedIn line only when their fields are non-empty, and its N value is fixed text, where the server writes all of them from its constants. The server's hard-coded file name is the one the pages derive.

## Model

| member | source | states |
|---|---|---|
| VCardRoute.Candidates | app/api/vcard/route.ts:16-27 | the array literal has 11 entries; the TEL entry (the sixth) is empty exactly when the phone is empty, and every other entry is non-empty |
| VCardRoute.CardLines | app/api/vcard/route.ts:16-28 | after `filter(Boolean)` no line is empty and there are at most 11 |
| VCardRoute.Serialize | app/api/vcard/route.ts:16-28 | the served text starts with `BEGIN:VCARD` and ends with `END:VCARD` |
| VCardRoute.CardLinesAreProperties | app/api/vcard/route.ts:16-28 | after `filter(Boolean)` the lines are exactly the property lines; 11 lines with a phone and 10 without; none empty; BEGIN first and END last |
| VCardRoute.OpeningLines | app/api/vcard/route.ts:17-21 | the first five array entries are the lines of the BEGIN, VERSION, N, FN and EMAIL properties |
| VCardRoute.ClosingLines | app/api/vcard/route.ts:23-27 | the entries after TEL are the lines of ADR, URL, item1.URL, item1.X-ABLabel and END |
| VCardRoute.TelLineIffPhone | app/api/vcard/route.ts:22 | the TEL line is in the card if and only if the phone is non-empty |
| VCardRoute.PropertiesFit | app/api/vcard/route.ts:16-28 | when no configured value holds CR or LF, no property line contains CRLF and no name part contains a colon |
| VCardRoute.ReadBack | app/api/vcard/route.ts:28 | splitting the served text at CRLF gives back the card lines, and parsing it gives back exactly the properties |
| VCardRoute.LineBreakCounts | app/api/vcard/route.ts:28 | the text has one CR and one LF per line boundary, and no others |
| VCardRoute.StructuredValues | app/api/vcard/route.ts:19-23 | N reads back as the five components family, given, then three empty; ADR reads back as seven components with the location third |
| VCardRoute.ConfiguredPlain | app/api/vcard/route.ts:6-14 | none of the configured values holds a line break |
| VCardRoute.Headers | app/api/vcard/route.ts:31-36 | exactly three headers: Content-Type, Content-Disposition and Cache-Control |
| VCardRoute.Get | app/api/vcard/route.ts:30-38 | status 200, the three headers above and a text body |
| VCardRoute.GetResponse | app/api/vcard/route.ts:30-38 | status 200; exactly the three headers Content-Type `text/vcard; charset=utf-8`, Content-Disposition with `Sarthak-Mittal.vcf`, and Cache-Control `public, max-age=3600`; a text body that parses at CRLF into the configured card's 11 properties |
| QrRoute.OrDefault | app/api/qr/route.ts:5-10 | `x \|\| fallback` on a possibly missing string yields the given value if and only if it is present and non-empty, and the fallback otherwise |
| QrRoute.DefaultUrl | app/api/qr/route.ts:5-7 | the default target is the forwarded protocol (`https` when absent or empty), `://`, and the host (`localhost:3000` when absent or empty) |
| QrRoute.TargetUrl | app/api/qr/route.ts:9 | a present, non-empty `url` parameter is the target as given; otherwise the default target |
| QrRoute.Format | app/api/qr/route.ts:10 | a missing or empty format is `png`; a given one is lower-cased character by character, with its length kept |
| QrRoute.IsSvg | app/api/qr/route.ts:10-16 | the SVG branch requires a given format of exactly three characters |
| QrRoute.ParseInt | app/api/qr/route.ts:11 | NaN exactly when, after leading whitespace and one optional sign, no decimal digit follows |
| QrRoute.ParseSigned | app/api/qr/route.ts:11 | NaN exactly when no digit follows the optional sign; a negative result only after `-` |
| QrRoute.ParseDigits | app/api/qr/route.ts:11 | NaN exactly when the text does not start with a digit; otherwise a non-negative value |
| QrRoute.TargetUrlChoice | app/api/qr/route.ts:5-9 | a non-empty `url` parameter is used as given; otherwise the target is proto `://` host, with the defaults `https` and `localhost:3000` |
| QrRoute.DigitPrefix | app/api/qr/route.ts:11 | the digits parseInt reads are a prefix of the input, all decimal digits, and the longest such prefix |
| QrRoute.ParseNumeral | app/api/qr/route.ts:11 | parseInt reads back the decimal numeral of any integer, negative ones included, followed by any text that does not start with a digit |
| QrRoute.ParseWritten | app/api/qr/route.ts:11 | for any whitespace, an optional `-` or `+`, a non-empty digit string (leading zeros allowed) and a rest that does not start with a digit, parseInt gives the digits' value, negated after `-` |
| QrRoute.ParseAfterWhiteSpace | app/api/qr/route.ts:11 | leading whitespace does not change what parseInt reads |
| QrRoute.NoDigitIsNaN | app/api/qr/route.ts:11 | parseInt gives NaN for optional whitespace and an optional sign followed by anything that does not start with a digit |
| QrRoute.Width | app/api/qr/route.ts:12 | the width is always between 128 and 2048 |
| QrRoute.RequestWidth | app/api/qr/route.ts:11-12 | the width computed from the request is always between 128 and 2048 |
| QrRoute.SizeWidth | app/api/qr/route.ts:11-12 | a size numeral for a finite number n gives n clamped to 128..2048, whatever non-digit suffix follows |
| QrRoute.WrittenSizeWidth | app/api/qr/route.ts:11-12 | a size written as whitespace, optional sign, digits and a non-digit rest gives the value clamped to 128..2048, or 512 when it is not a finite double |
| QrRoute.HugeSizeFallsBack | app/api/qr/route.ts:12 | a numeral too large for a finite double gives the fallback width 512 |
| QrRoute.NonNumericSize | app/api/qr/route.ts:11-12 | a non-empty size without leading digits gives the fallback width 512 |
| QrRoute.DefaultSize | app/api/qr/route.ts:11 | a missing or empty size means `512`, so the width is 512 |
| QrRoute.OversizeExample | app/api/qr/route.ts:11-12 | size `99999` gives width 2048 |
| QrRoute.NegativeExample | app/api/qr/route.ts:11-12 | size `-5` gives width 128 |
| QrRoute.SuffixExample | app/api/qr/route.ts:11-12 | size `12px` is read as 12 and gives width 128 |
| QrRoute.NonNumericExample | app/api/qr/route.ts:11-12 | size `abc` gives the fallback width 512 |
| QrRoute.LowerIsSvg | app/api/qr/route.ts:10 | the lower-cased format equals `svg` if and only if the format spells s, v, g in any mix of cases |
| QrRoute.SvgSpellings | app/api/qr/route.ts:10-16 | the SVG branch is taken if and only if a format parameter is given that spells `svg` in any case; a missing or empty format gives PNG |
| QrRoute.OptionsFixed | app/api/qr/route.ts:14 | margin 1, dark `#0F172A` and light `#F4F1EA` for every request; the width lies in 128..2048; two requests with the same size get the same options |
| QrRoute.RenderOptions | app/api/qr/route.ts:14 | the options carry a width in 128..2048, margin 1, dark `#0F172A`, light `#F4F1EA` and the branch's image type |
| QrRoute.Get | app/api/qr/route.ts:3-33 | status 200, and a text body exactly in the SVG branch |
| QrRoute.GetResponse | app/api/qr/route.ts:16-32 | status 200; exactly Content-Type and Cache-Control headers; Cache-Control is the immutable one-year policy; the SVG branch gives `image/svg+xml` and the rendered SVG text, the other branch gives `image/png` and the rendered PNG bytes, both rendered from the target URL with that branch's image type |
| Strings.ToLowerAscii | app/api/qr/route.ts:10 | every character is lower-cased individually, and the length is unchanged |
| Strings.DropWhiteSpace | app/api/qr/route.ts:11 | the result is a suffix of the input; every character dropped is whitespace; the result does not start with whitespace, and is shorter whenever the input starts with whitespace |
| Strings.IsWhiteSpace | app/api/qr/route.ts:11 | no whitespace character is a digit or a sign, so skipping whitespace never eats part of a number |
| Strings.Join | app/api/vcard/route.ts:28 | joining no lines gives the empty string; otherwise the length is the lines' total length plus one separator per boundary |
| Strings.NonEmpty | app/page.tsx:201 | `filter(Boolean)` keeps no empty entry and never lengthens the list |
| Strings.NonEmptyMembers | app/page.tsx:201 | `filter(Boolean)` keeps exactly the non-empty entries: each kept entry is a non-empty input entry, and each non-empty input entry is kept |
| Strings.ReplaceWhiteSpaceRuns | app/page.tsx:204 | with a replacement of at most one character the result is no longer than the input |
| Strings.NonEmptyKeepsAll | app/page.tsx:201 | `filter(Boolean)` keeps a list with no empty entry unchanged |
| Strings.NonEmptyAppend | app/page.tsx:201 | `filter(Boolean)` distributes over concatenation |
| Strings.SplitJoin | app/api/vcard/route.ts:28 | lines that share no character with the separator, once joined, split back into the same lines |
| Strings.CountJoin | app/api/vcard/route.ts:28 | a character occurs in the joined text as often as in the lines plus once per separator occurrence per boundary |
| Strings.ReplaceIsSplitJoin | app/page.tsx:204 | replacing each whitespace run by `-` is joining the whitespace-separated pieces with `-` |
| Strings.ReplacedHasNoWhiteSpace | app/page.tsx:204 | after replacing the runs with a whitespace-free string, no whitespace is left |
| Strings.ReplaceWithoutWhiteSpace | app/page.tsx:204 | a string without whitespace is left unchanged |
| Strings.ReplaceRunAfterWord | app/page.tsx:204 | a word, a whitespace run and a rest starting with a non-space become the word, the replacement and the replaced rest |
| VCardText.ParseLine | app/api/vcard/route.ts:16-28 | the line is the name part, a colon and the value, and the name part has no colon; there is no result exactly when the line has no colon |
| VCardText.ParseJoined | app/api/vcard/route.ts:28 | properties that fit the delimiter, written as lines and joined by it, split back into the lines and parse back into the same properties |
| VCardText.LFJoinCounts | app/page.tsx:201 | lines without CR or LF, joined with LF, give text with no CR and one LF per boundary |
| VCardText.ComponentsOfJoin | app/api/vcard/route.ts:19-23 | `;`-joined components that contain no `;` read back as themselves |
| UriComponent.Encode | app/page.tsx:203 | every character of the result is an unreserved character, `%` or an upper-case hex digit |
| UriComponent.Utf8RoundTrip | app/page.tsx:203 | the UTF-8 octets of a character decode back to it, and the lead octet announces the sequence length |
| UriComponent.DecodeEncode | app/page.tsx:203 | decoding the percent-encoding of any string gives back the string |
| ClientVCard.Candidates | app/page.tsx:194-200 | the array literal has 10 entries; the EMAIL, TEL, URL and LinkedIn entries are empty exactly when their field is, and every other entry is non-empty |
| ClientVCard.CardLines | app/page.tsx:201 | after `filter(Boolean)` no line is empty and there are at most 10 |
| ClientVCard.CardText | app/page.tsx:201 | the joined text has at least 20 characters, starts with `BEGIN:VCARD` and ends with `END:VCARD` |
| ClientVCard.CardEnds | app/page.tsx:194-201 | the filtered lines are at least six, BEGIN first and END last |
| ClientVCard.Href | app/page.tsx:203 | the href starts with the `data:text/vcard;charset=utf-8,` prefix, and every character after it is unreserved, `%` or an upper-case hex digit |
| ClientVCard.FileName | app/page.tsx:204 | the file name has no whitespace, ends with `.vcf`, and is at most four characters longer than the name |
| ClientVCard.Anchor.constructor | app/page.tsx:202 | a new anchor has an empty href and download |
| ClientVCard.DownloadVCard | app/page.tsx:193-206 | a fresh anchor whose href is the `data:` URL of the encoded card text and whose download is the name with whitespace runs replaced by `-`, plus `.vcf` |
| ClientVCard.OptionalLines | app/page.tsx:196-199 | after filtering, the four optional entries are the lines of the EMAIL, TEL, URL and X-SOCIALPROFILE properties whose field is non-empty |
| ClientVCard.HeadLines | app/page.tsx:195 | the first four entries are the lines of BEGIN, VERSION, N with fixed family and given names, and FN |
| ClientVCard.TailLines | app/page.tsx:200 | the last two entries are the lines of ADR and END |
| ClientVCard.CardLinesAreProperties | app/page.tsx:194-201 | the filtered lines are exactly the property lines; 6 to 10 lines, none of them empty |
| ClientVCard.PropertiesFit | app/page.tsx:194-201 | when no field holds a line break, every property line avoids both CRLF and LF, and no name part holds a colon |
| ClientVCard.ReadBack | app/page.tsx:201 | splitting the card text at LF gives back the lines, and parsing it gives back exactly the properties |
| ClientVCard.LineBreakCounts | app/page.tsx:201 | the card text contains no CR, and one LF per line boundary |
| ClientVCard.HasOptionals | app/page.tsx:194-201 | a property name other than the fixed ones occurs in the card exactly when it occurs among the optional properties |
| ClientVCard.EmailIffPresent | app/page.tsx:196 | the card has an EMAIL property if and only if the email field is non-empty |
| ClientVCard.TelIffPresent | app/page.tsx:197 | the card has a TEL property if and only if the phone field is non-empty |
| ClientVCard.UrlIffPresent | app/page.tsx:198 | the card has a URL property if and only if the calendly field is non-empty |
| ClientVCard.SocialIffPresent | app/page.tsx:199 | the card has an X-SOCIALPROFILE property if and only if the linkedin field is non-empty |
| ClientVCard.FileNameShape | app/page.tsx:204 | the file name contains no whitespace; it is the whitespace-separated pieces of the name joined by `-`, plus `.vcf`; a name without whitespace is kept as it is |
| ClientVCard.TwoWordFileName | app/page.tsx:204 | a name of two whitespace-free words with one space between them becomes first-last.vcf |
| ClientVCard.ConfiguredFileName | app/page.tsx:204 | the configured name gives `Sarthak-Mittal.vcf` |
| ClientVCard.HrefPayload | app/page.tsx:203 | the href is the `data:text/vcard;charset=utf-8,` prefix followed by a payload that decodes back to the card text and contains no comma |
| ClientVCard.NameAndAddressPlaces | app/page.tsx:195-200 | the third property is N with the fixed name components, and the second-to-last is ADR with the location |
| ClientVCard.AddressComponents | app/page.tsx:200 | ADR reads back as seven components with the location third |
| ClientVCard.FixedNameComponents | app/page.tsx:195 | the fixed N value reads back as Mittal, Sarthak and three empty components |
| ClientVCard.ContentPlain | app/page.tsx:21-28 | no field of the page's record holds a line break |
| ClientVCard.FullCard | app/page.tsx:194-201 | a record without line breaks and with every optional field present gives a card of 10 properties that parses back at LF, with no CR and 9 LFs |
| ClientVCard.FullOptionals | app/page.tsx:196-199 | with every optional field present, the optional properties are EMAIL, TEL, URL and X-SOCIALPROFILE, in that order |
| ClientVCard.AppPageCard | app/page.tsx:193-206 | the page's card has 10 properties and parses back at LF; it has no CR and 9 LFs |
| ClientVCard.SameContent | page.tsx:5-15 | the root page's record has the same card fields as the application page's |
| ClientVCard.RootPageCard | page.tsx:31-48 | the root page builds the same card text and href as the application page; its file name is `Sarthak-Mittal.vcf` |
| ClientVCard.ServerFileNameAgrees | app/api/vcard/route.ts:34 | the server's hard-coded Content-Disposition names exactly the file name the pages derive from the contact name |
| ClientVCard.ComparedWithServer | app/page.tsx:194-201 | with the same details and every field present: the first six properties equal the server's; URL, ADR and END are the server's, URL moved ahead of ADR; the LinkedIn address appears under X-SOCIALPROFILE where the server has item1.URL |
| ClientVCard.ConfiguredSameDetails | app/api/vcard/route.ts:6-14 | the page record and the server constants hold the same details, with every optional field present |

## Left out

- The `qrcode` library calls (`QRCode.toString`, `QRCode.toBuffer`) are parameters of `QrRoute.Get`. The model does not capture what a QR code encodes or looks like.
- An exception thrown by the `qrcode` library is not modelled; the framework would answer it with an error response.
- `new URL(req.url)` and the header lookups are modelled as the already extracted optional strings of `QrRoute.Request`. A repeated query parameter is not modelled, and neither is URL parsing itself.
- The Next.js response objects, and the browser DOM beyond the anchor's two fields, are not modelled.
- `a.click()` is not modelled. It hands the anchor to the browser's download machinery.
- `Strings.ToLowerAscii`: lower-cases ASCII letters only. No character outside ASCII lower-cases to `s`, `v` or `g`, so the SVG branch decision is unaffected.
- `QrRoute.ParseNumeral`: exact for every integer numeral. The model does not capture the rounding of `parseInt` beyond 20 significant digits. The exact integer stands in for the double, and `QrRoute.IsFiniteNumber` draws the line where the double becomes infinite.
- `UriComponent.Encode`: covers every Unicode scalar value. Lone surrogate code units, on which `encodeURIComponent` throws, cannot occur in a Dafny string.
- Neither card generator escapes commas, semicolons or backslashes in values, as section 5 of RFC 2426 would require. The model follows the code, so the read-back lemmas require values without `;` where components are read.
- Both card generators put the location in the third ADR component, which section 3.2.1 of RFC 2426 defines as the street address; the locality is the fourth. The model follows the code.
- The server's `Content-Disposition` file name is a constant in the code, not derived from the contact name. The model follows the code. `ClientVCard.ServerFileNameAgrees` shows the constant matches what the pages derive.
- `VCardRoute.GetResponse`: the configured card is stated as the properties of the configured contact and their count. Its concrete property list is not written out literally.
- The rest of the page components (layout, analytics, the thanks page, styling, clipboard copying) have no bearing on the card or QR logic and are not part of this model.
