/** The browser-side `downloadVCard` of both page components: a vCard 3.0
    record built from the page's `content` record as a list of lines in a
    fixed order, each optional line replaced by the empty string when its
    field is empty, the empty entries filtered out and the rest joined with a
    bare LF; then a `data:` URL carrying the percent-encoded text and a file
    name made from the contact name are set on a fresh anchor element. */
module ClientVCard {
  import opened Wrappers
  import opened Strings
  import opened VCardText
  import UriComponent
  import VCardRoute

  /** The fields of a page's `content` record that the card uses. */
  datatype Content = Content(
    name: string, location: string, email: string, phone: string,
    linkedin: string, calendly: string)

  /** The `content` record of the application page. */
  function AppPageContent(): Content {
    Content(
      "Sarthak Mittal", "Bengaluru, India", "mittal.sart@gmail.com", "+91 8073877696",
      "https://www.linkedin.com/in/sarthakmittal115/",
      "https://calendly.com/mittal-sart/30min")
  }

  /** The `content` record of the root page component. */
  function RootPageContent(): Content {
    Content(
      "Sarthak Mittal", "Bengaluru, India", "mittal.sart@gmail.com", "+91 8073877696",
      "https://www.linkedin.com/in/sarthakmittal115/",
      "https://calendly.com/mittal-sart/30min")
  }

  /** `field ? line : ''`: a string is truthy exactly when it is non-empty. */
  function IfPresent(field: string, line: string): string {
    if field != "" then line else ""
  }

  /** The array literal of `downloadVCard`, before filtering. The N line is
      fixed text, not taken from the record. */
  function Candidates(c: Content): (lines: seq<string>)
    ensures |lines| == 10
    ensures lines[4] == "" <==> c.email == ""
    ensures lines[5] == "" <==> c.phone == ""
    ensures lines[6] == "" <==> c.calendly == ""
    ensures lines[7] == "" <==> c.linkedin == ""
    ensures forall i :: 0 <= i < |lines| && !(4 <= i < 8) ==> lines[i] != ""
  {
    [ "BEGIN:VCARD",
      "VERSION:3.0",
      "N:Mittal;Sarthak;;;",
      "FN:" + c.name,
      IfPresent(c.email, "EMAIL;TYPE=INTERNET,PREF:" + c.email),
      IfPresent(c.phone, "TEL;TYPE=CELL:" + c.phone),
      IfPresent(c.calendly, "URL:" + c.calendly),
      IfPresent(c.linkedin, SocialProfile + ":" + c.linkedin),
      "ADR;TYPE=WORK:;;" + c.location + ";;;;",
      "END:VCARD" ]
  }

  /** The name part of the LinkedIn line. */
  // Written in two pieces: the proofs that compare it with the other
  // property names stay cheaper than with one literal.
  const SocialProfile: string := "X-SOCIALPROFILE" + ";type=linkedin"

  /** `[...].filter(Boolean)`: the non-empty entries, each of them kept. */
  function CardLines(c: Content): (lines: seq<string>)
    ensures forall i :: 0 <= i < |lines| ==> lines[i] != ""
    ensures |lines| <= 10
  {
    var cs := Candidates(c);
    NonEmpty(cs)
  }

  /** `[...].filter(Boolean).join('\n')`. */
  function CardText(c: Content): (text: string)
    ensures |text| >= 20 && text[..11] == "BEGIN:VCARD" && text[|text| - 9..] == "END:VCARD"
  {
    CardEnds(c);
    FramedJoin(CardLines(c));
    Join(CardLines(c), LF)
  }

  /** Lines that open with BEGIN and close with END join into a text that
      does the same. */
  lemma FramedJoin(lines: seq<string>)
    requires |lines| >= 2 && lines[0] == "BEGIN:VCARD" && lines[|lines| - 1] == "END:VCARD"
    ensures var t := Join(lines, LF);
      |t| >= 20 && t[..11] == "BEGIN:VCARD" && t[|t| - 9..] == "END:VCARD"
  {
    JoinEnds(lines, LF);
    JoinEnds(lines[1..], LF);
    JoinCons(lines[0], lines[1..], LF);
    assert [lines[0]] + lines[1..] == lines;
  }

  const DataUrlPrefix: string := "data:text/vcard;charset=utf-8,"

  /** The anchor's `href`: the media type, then the percent-encoded text. */
  function Href(c: Content): (h: string)
    ensures |h| >= |DataUrlPrefix| && h[..|DataUrlPrefix|] == DataUrlPrefix
    ensures forall i :: |DataUrlPrefix| <= i < |h| ==> UriComponent.IsEncodedChar(h[i])
  {
    DataUrlPrefix + UriComponent.Encode(CardText(c))
  }

  /** The anchor's `download` attribute: `name.replace(/\s+/g, '-') + '.vcf'`. */
  function FileName(name: string): (f: string)
    ensures HasNoWhiteSpace(f)
    ensures 4 <= |f| <= |name| + 4 && f[|f| - 4..] == ".vcf"
  {
    var base := ReplaceWhiteSpaceRuns(name, "-");
    ReplacedHasNoWhiteSpace(name, "-");
    NoWhiteSpaceConcat(base, ".vcf");
    VcfSuffix(base);
    base + ".vcf"
  }

  lemma VcfSuffix(base: string)
    ensures var f := base + ".vcf"; |f| == |base| + 4 && f[|f| - 4..] == ".vcf"
  {
  }

  /** The two attributes of the anchor element that `downloadVCard` sets. */
  class Anchor {
    var href: string
    var download: string

    /** `document.createElement('a')`: no link and no file name yet. */
    constructor()
      ensures href == "" && download == ""
    {
      href := "";
      download := "";
    }
  }

  /** `downloadVCard`: a fresh anchor whose `href` carries the card and whose
      `download` names the file. Clicking it is not modelled. */
  method DownloadVCard(c: Content) returns (a: Anchor)
    ensures fresh(a)
    ensures a.href == Href(c) && a.download == FileName(c.name)
  {
    a := new Anchor();
    a.href := DataUrlPrefix + UriComponent.Encode(CardText(c));
    a.download := ReplaceWhiteSpaceRuns(c.name, "-") + ".vcf";
  }

  // ---------------------------------------------------------------------
  // What the card says

  /** A property present exactly when its value is non-empty. */
  function Optional(name: string, value: string): seq<Property> {
    if value != "" then [Property(name, value)] else []
  }

  /** The optional properties, in the order the page writes them. */
  function Optionals(c: Content): seq<Property> {
    Optional("EMAIL;TYPE=INTERNET,PREF", c.email) + Optional("TEL;TYPE=CELL", c.phone)
    + Optional("URL", c.calendly) + Optional(SocialProfile, c.linkedin)
  }

  /** The card as RFC 2426 properties: BEGIN, VERSION, N (always family name
      Mittal and given name Sarthak), FN, then EMAIL, TEL, URL and the
      LinkedIn profile each only when its field is non-empty, then ADR with
      the location third of seven components, then END. */
  function Properties(c: Content): seq<Property> {
    Head(c) + Optionals(c) + Tail(c)
  }

  function Head(c: Content): seq<Property> {
    [ Property("BEGIN", "VCARD"),
      Property("VERSION", "3.0"),
      Property("N", Join(["Mittal", "Sarthak", "", "", ""], ";")),
      Property("FN", c.name) ]
  }

  function Tail(c: Content): seq<Property> {
    [ Property("ADR;TYPE=WORK", Join(["", "", c.location, "", "", "", ""], ";")),
      Property("END", "VCARD") ]
  }

  /** No field holds a CR or an LF. */
  predicate NoLineBreaks(c: Content) {
    && Avoids(c.name, CRLF) && Avoids(c.location, CRLF) && Avoids(c.email, CRLF)
    && Avoids(c.phone, CRLF) && Avoids(c.linkedin, CRLF) && Avoids(c.calendly, CRLF)
  }

  lemma OptionalLine(entry: string, p: Property)
    requires entry == IfPresent(p.value, LineOf(p))
    ensures NonEmpty([entry]) == Lines(Optional(p.name, p.value))
  {
    if p.value != "" {
      assert NonEmpty([entry]) == [entry];
    }
  }

  /** The fixed N line is the name property with family name Mittal and
      given name Sarthak. */
  lemma FixedNameLine()
    ensures "N:Mittal;Sarthak;;;" == LineOf(Property("N", Join(["Mittal", "Sarthak", "", "", ""], ";")))
  {
    NameValue("Mittal", "Sarthak");
  }

  lemma HeadLines(c: Content)
    ensures Candidates(c)[..4] == Lines(Head(c))
  {
    var h, o := Candidates(c)[..4], Head(c);
    FixedNameLine();
    assert h[0] == LineOf(o[0]) && h[1] == LineOf(o[1]);
    assert h[2] == LineOf(o[2]) && h[3] == LineOf(o[3]);
  }

  lemma TailLines(c: Content)
    ensures Candidates(c)[8..] == Lines(Tail(c))
  {
    var t, o := Candidates(c)[8..], Tail(c);
    AddressValue(c.location);
    assert t[0] == LineOf(o[0]) && t[1] == LineOf(o[1]);
  }

  lemma OptionalLines(c: Content)
    ensures NonEmpty(Candidates(c)[4..8]) == Lines(Optionals(c))
  {
    var m := Candidates(c)[4..8];
    var e, t := Property("EMAIL;TYPE=INTERNET,PREF", c.email), Property("TEL;TYPE=CELL", c.phone);
    var u, l := Property("URL", c.calendly), Property(SocialProfile, c.linkedin);
    assert m == [m[0]] + [m[1]] + [m[2]] + [m[3]];
    OptionalLine(m[0], e);
    OptionalLine(m[1], t);
    OptionalLine(m[2], u);
    OptionalLine(m[3], l);
    NonEmptyAppend([m[0]] + [m[1]] + [m[2]], [m[3]]);
    NonEmptyAppend([m[0]] + [m[1]], [m[2]]);
    NonEmptyAppend([m[0]], [m[1]]);
    LinesAppend(Optional(e.name, e.value), Optional(t.name, t.value));
    LinesAppend(Optional(e.name, e.value) + Optional(t.name, t.value), Optional(u.name, u.value));
    LinesAppend(Optional(e.name, e.value) + Optional(t.name, t.value) + Optional(u.name, u.value),
      Optional(l.name, l.value));
  }

  /** The filtered lines start with BEGIN and end with END. */
  lemma CardEnds(c: Content)
    ensures |CardLines(c)| >= 6
    ensures CardLines(c)[0] == "BEGIN:VCARD" && CardLines(c)[|CardLines(c)| - 1] == "END:VCARD"
  {
    CardLinesAreProperties(c);
    PropertiesFrame(c);
    FramedLines(Properties(c));
  }

  /** The card opens with BEGIN and closes with END. */
  lemma PropertiesFrame(c: Content)
    ensures |Properties(c)| >= 6
    ensures Properties(c)[0] == Property("BEGIN", "VCARD")
    ensures Properties(c)[|Properties(c)| - 1] == Property("END", "VCARD")
  {
    var ps := Properties(c);
    assert ps[0] == Head(c)[0];
    assert ps[|ps| - 1] == Tail(c)[1];
  }

  lemma FramedLines(ps: seq<Property>)
    requires |ps| >= 2 && ps[0] == Property("BEGIN", "VCARD") && ps[|ps| - 1] == Property("END", "VCARD")
    ensures Lines(ps)[0] == "BEGIN:VCARD" && Lines(ps)[|ps| - 1] == "END:VCARD"
  {
  }

  /** After filtering, the lines are exactly the property lines of the card,
      none of them empty: only the entries of empty optional fields are
      dropped. */
  lemma CardLinesAreProperties(c: Content)
    ensures CardLines(c) == Lines(Properties(c))
    ensures 6 <= |CardLines(c)| <= 10
    ensures forall i :: 0 <= i < |CardLines(c)| ==> CardLines(c)[i] != ""
  {
    var cs := Candidates(c);
    var head, mid, tail := cs[..4], cs[4..8], cs[8..];
    assert cs == head + mid + tail;
    NonEmptyAppend(head + mid, tail);
    NonEmptyAppend(head, mid);
    NonEmptyKeepsAll(head);
    NonEmptyKeepsAll(tail);
    HeadLines(c);
    OptionalLines(c);
    TailLines(c);
    LinesAppend(Head(c), Optionals(c));
    LinesAppend(Head(c) + Optionals(c), Tail(c));
  }

  // Each property is shown to fit in a proof of its own.

  lemma SocialFits(url: string)
    requires Avoids(url, CRLF)
    ensures Fits(Property(SocialProfile, url), CRLF)
  {
    assert Avoids("X-SOCIALPROFILE", ":\r\n");
    assert Avoids(";type=linkedin", ":\r\n");
    AvoidsConcat("X-SOCIALPROFILE", ";type=linkedin", ":\r\n");
    PlainFits(Property(SocialProfile, url));
  }

  lemma HeadFits(c: Content)
    requires NoLineBreaks(c)
    ensures forall i :: 0 <= i < |Head(c)| ==> Fits(Head(c)[i], CRLF)
  {
    VCardRoute.BeginFits();
    VCardRoute.VersionFits();
    VCardRoute.ConfiguredNamesPlain();
    VCardRoute.NameFits("Mittal", "Sarthak");
    VCardRoute.FullNameFits(c.name);
    FitsEach(Head(c), CRLF);
  }

  lemma OptionalsFit(c: Content)
    requires NoLineBreaks(c)
    ensures forall i :: 0 <= i < |Optionals(c)| ==> Fits(Optionals(c)[i], CRLF)
  {
    var e, t := Optional("EMAIL;TYPE=INTERNET,PREF", c.email), Optional("TEL;TYPE=CELL", c.phone);
    var u, l := Optional("URL", c.calendly), Optional(SocialProfile, c.linkedin);
    if c.email != "" { VCardRoute.EmailFits(c.email); }
    if c.phone != "" { VCardRoute.TelFits(c.phone); }
    if c.calendly != "" { VCardRoute.UrlFits(c.calendly); }
    if c.linkedin != "" { SocialFits(c.linkedin); }
    FitsAppend(e, t, CRLF);
    FitsAppend(e + t, u, CRLF);
    FitsAppend(e + t + u, l, CRLF);
  }

  lemma TailFits(c: Content)
    requires NoLineBreaks(c)
    ensures forall i :: 0 <= i < |Tail(c)| ==> Fits(Tail(c)[i], CRLF)
  {
    VCardRoute.AddressFits(c.location);
    VCardRoute.EndFits();
    FitsEach(Tail(c), CRLF);
  }

  /** Every property of a card whose fields hold no line break fits on a
      line, with neither CR nor LF in it. */
  lemma PropertiesFit(c: Content)
    requires NoLineBreaks(c)
    ensures forall i :: 0 <= i < |Properties(c)| ==> Fits(Properties(c)[i], CRLF)
    ensures forall i :: 0 <= i < |Properties(c)| ==> Fits(Properties(c)[i], LF)
  {
    HeadFits(c);
    OptionalsFit(c);
    TailFits(c);
    FitsAppend(Head(c), Optionals(c), CRLF);
    FitsAppend(Head(c) + Optionals(c), Tail(c), CRLF);
    FitsLF(Properties(c));
  }

  /** Read back at LF and at the first colon of each line, the text gives the
      card's properties, in order and with their values verbatim. */
  lemma ReadBack(c: Content)
    requires NoLineBreaks(c)
    ensures Split(CardText(c), LF) == CardLines(c)
    ensures Parse(CardText(c), LF) == Some(Properties(c))
  {
    CardLinesAreProperties(c);
    PropertiesFit(c);
    ParseJoined(Properties(c), LF);
  }

  /** The lines are separated by a bare LF: the text holds no CR at all and
      one LF per line break. */
  lemma LineBreakCounts(c: Content)
    requires NoLineBreaks(c)
    ensures Count(CardText(c), '\r') == 0
    ensures Count(CardText(c), '\n') == |CardLines(c)| - 1
  {
    CardLinesAreProperties(c);
    PropertiesFit(c);
    LinesAvoid(Properties(c), CRLF);
    LFJoinCounts(CardLines(c));
  }

  // Which optional lines are present

  lemma HeadLacks(c: Content, name: string)
    requires name != "BEGIN" && name != "VERSION" && name != "N" && name != "FN"
    ensures !Has(Head(c), name)
  {
  }

  lemma TailLacks(c: Content, name: string)
    requires name != "ADR;TYPE=WORK" && name != "END"
    ensures !Has(Tail(c), name)
  {
  }

  /** A name that neither the fixed head nor the fixed tail uses is in the
      card exactly when it is among the optional properties. */
  lemma HasOptionals(c: Content, name: string)
    requires name != "BEGIN" && name != "VERSION" && name != "N" && name != "FN"
    requires name != "ADR;TYPE=WORK" && name != "END"
    ensures Has(Properties(c), name) <==> Has(Optionals(c), name)
  {
    HeadLacks(c, name);
    TailLacks(c, name);
    HasAppend(Head(c), Optionals(c), name);
    HasAppend(Head(c) + Optionals(c), Tail(c), name);
  }

  /** Four optional properties under four distinct names: the `k`th name is
      present exactly when the `k`th value is non-empty. */
  lemma HasAmongFour(names: seq<string>, values: seq<string>, k: nat)
    requires |names| == 4 && |values| == 4 && k < 4
    requires forall i :: 0 <= i < 4 && i != k ==> names[i] != names[k]
    ensures var all := Optional(names[0], values[0]) + Optional(names[1], values[1])
      + Optional(names[2], values[2]) + Optional(names[3], values[3]);
      Has(all, names[k]) <==> values[k] != ""
  {
    var n := names[k];
    var e, t := Optional(names[0], values[0]), Optional(names[1], values[1]);
    var u, l := Optional(names[2], values[2]), Optional(names[3], values[3]);
    HasAppend(e, t, n);
    HasAppend(e + t, u, n);
    HasAppend(e + t + u, l, n);
    if k == 0 {
      assert Has(e, n) <==> values[0] != "" by { if values[0] != "" { assert e[0].name == n; } }
    } else if k == 1 {
      assert Has(t, n) <==> values[1] != "" by { if values[1] != "" { assert t[0].name == n; } }
    } else if k == 2 {
      assert Has(u, n) <==> values[2] != "" by { if values[2] != "" { assert u[0].name == n; } }
    } else {
      assert Has(l, n) <==> values[3] != "" by { if values[3] != "" { assert l[0].name == n; } }
    }
  }

  function OptionalNames(): seq<string> {
    ["EMAIL;TYPE=INTERNET,PREF", "TEL;TYPE=CELL", "URL", SocialProfile]
  }

  lemma OptionalsAsFour(c: Content)
    ensures var names, values := OptionalNames(), [c.email, c.phone, c.calendly, c.linkedin];
      Optionals(c) == Optional(names[0], values[0]) + Optional(names[1], values[1])
        + Optional(names[2], values[2]) + Optional(names[3], values[3])
  {
  }

  lemma OptionalNamesDistinct()
    ensures forall i, j :: 0 <= i < j < 4 ==> OptionalNames()[i] != OptionalNames()[j]
  {
    SocialNameDistinct();
    var ns := OptionalNames();
    assert ns[0] != ns[1] && ns[0] != ns[2] && ns[0] != ns[3];
    assert ns[1] != ns[2] && ns[1] != ns[3] && ns[2] != ns[3];
  }

  lemma SocialNameDistinct()
    ensures |SocialProfile| == 29
    ensures SocialProfile != "EMAIL;TYPE=INTERNET,PREF" && SocialProfile != "TEL;TYPE=CELL"
  {
  }

  /** The optional property in slot `k` (EMAIL, TEL, URL, X-SOCIALPROFILE) is
      in the card exactly when its field is non-empty. */
  lemma OptionalPresent(c: Content, k: nat)
    requires k < 4
    ensures Has(Properties(c), OptionalNames()[k]) <==> [c.email, c.phone, c.calendly, c.linkedin][k] != ""
  {
    var names, values := OptionalNames(), [c.email, c.phone, c.calendly, c.linkedin];
    OptionalNamesDistinct();
    OptionalsAsFour(c);
    HasAmongFour(names, values, k);
    SocialNameDistinct();
    HasOptionals(c, names[k]);
  }

  lemma EmailIffPresent(c: Content)
    ensures Has(Properties(c), "EMAIL;TYPE=INTERNET,PREF") <==> c.email != ""
  {
    OptionalPresent(c, 0);
  }

  lemma TelIffPresent(c: Content)
    ensures Has(Properties(c), "TEL;TYPE=CELL") <==> c.phone != ""
  {
    OptionalPresent(c, 1);
  }

  lemma UrlIffPresent(c: Content)
    ensures Has(Properties(c), "URL") <==> c.calendly != ""
  {
    OptionalPresent(c, 2);
  }

  lemma SocialIffPresent(c: Content)
    ensures Has(Properties(c), SocialProfile) <==> c.linkedin != ""
  {
    OptionalPresent(c, 3);
  }

  // The file name and the link

  /** The file name holds no whitespace: it is the whitespace-separated
      pieces of the name joined by `-`, then `.vcf`, and a name without
      whitespace is only extended by `.vcf`. */
  lemma FileNameShape(name: string)
    ensures HasNoWhiteSpace(FileName(name))
    ensures FileName(name) == Join(SplitOnWhiteSpace(name), "-") + ".vcf"
    ensures HasNoWhiteSpace(name) ==> FileName(name) == name + ".vcf"
  {
    assert HasNoWhiteSpace("-");
    assert HasNoWhiteSpace(".vcf");
    ReplacedHasNoWhiteSpace(name, "-");
    NoWhiteSpaceConcat(ReplaceWhiteSpaceRuns(name, "-"), ".vcf");
    ReplaceIsSplitJoin(name, "-");
    if HasNoWhiteSpace(name) {
      ReplaceWithoutWhiteSpace(name, "-");
    }
  }

  lemma FirstNamePlain() ensures HasNoWhiteSpace("Sarthak") { }
  lemma LastNamePlain() ensures HasNoWhiteSpace("Mittal") { }

  /** Two words separated by one space give the words joined by `-`. */
  lemma TwoWordFileName(first: string, last: string)
    requires HasNoWhiteSpace(first) && HasNoWhiteSpace(last) && last != []
    ensures FileName(first + " " + last) == first + "-" + last + ".vcf"
  {
    ReplaceRunAfterWord(first, " ", last, "-");
    ReplaceWithoutWhiteSpace(last, "-");
  }

  /** The configured name gives Sarthak-Mittal.vcf. */
  lemma ConfiguredFileName()
    ensures FileName("Sarthak Mittal") == "Sarthak-Mittal.vcf"
  {
    FirstNamePlain();
    LastNamePlain();
    TwoWordFileName("Sarthak", "Mittal");
    assert "Sarthak Mittal" == "Sarthak" + " " + "Mittal";
    assert "Sarthak" + "-" + "Mittal" + ".vcf" == "Sarthak-Mittal.vcf";
  }

  lemma EncodedHasNoComma(s: string)
    ensures ',' !in UriComponent.Encode(s)
  {
  }

  /** The link is the `data:` prefix, whose comma is the only one, followed
      by a payload that percent-decodes to the card text. */
  lemma HrefPayload(c: Content)
    ensures |Href(c)| >= |DataUrlPrefix| && Href(c)[..|DataUrlPrefix|] == DataUrlPrefix
    ensures UriComponent.Decode(Href(c)[|DataUrlPrefix|..]) == Some(CardText(c))
    ensures ',' !in Href(c)[|DataUrlPrefix|..]
  {
    var text := CardText(c);
    var payload := UriComponent.Encode(text);
    assert Href(c)[|DataUrlPrefix|..] == payload;
    UriComponent.DecodeEncode(text);
    EncodedHasNoComma(text);
  }

  /** Both pages carry the same contact details. */
  lemma SameContent()
    ensures AppPageContent() == RootPageContent()
  {
  }

  /** The fixed N value reads back as family name Mittal, given name
      Sarthak and three empty components. */
  lemma FixedNameComponents()
    ensures Components(Join(["Mittal", "Sarthak", "", "", ""], ";")) == ["Mittal", "Sarthak", "", "", ""]
  {
    ComponentsOfJoin(["Mittal", "Sarthak", "", "", ""]);
  }

  /** N is the third property and ADR the second to last, whichever optional
      lines are present. */
  lemma NameAndAddressPlaces(c: Content)
    ensures |Properties(c)| >= 6
    ensures Properties(c)[2] == Property("N", Join(["Mittal", "Sarthak", "", "", ""], ";"))
    ensures Properties(c)[|Properties(c)| - 2]
      == Property("ADR;TYPE=WORK", Join(["", "", c.location, "", "", "", ""], ";"))
  {
    var ps, front := Properties(c), Head(c) + Optionals(c);
    assert ps == front + Tail(c);
    assert ps[2] == front[2] == Head(c)[2];
    assert ps[|ps| - 2] == Tail(c)[0];
  }

  /** ADR, second to last, reads back as seven components with the location
      third, as on the server. */
  lemma AddressComponents(c: Content)
    requires ';' !in c.location
    ensures var adr := Properties(c)[|Properties(c)| - 2];
      adr.name == "ADR;TYPE=WORK" && Components(adr.value) == ["", "", c.location, "", "", "", ""]
  {
    NameAndAddressPlaces(c);
    ComponentsOfJoin(["", "", c.location, "", "", "", ""]);
  }

  // The two pages' cards, and how they differ from the server's

  lemma ContentPlain()
    ensures NoLineBreaks(AppPageContent())
  {
    VCardRoute.ConfiguredNamesPlain();
    VCardRoute.ConfiguredEmailPlain();
    VCardRoute.ConfiguredPhonePlain();
    VCardRoute.ConfiguredLocationPlain();
    VCardRoute.ConfiguredLinkedInPlain();
    VCardRoute.ConfiguredCalendlyPlain();
  }

  /** The application page's card: ten properties, every optional line
      present, read back intact from LF-separated lines with no CR. */
  lemma AppPageCard()
    ensures |Properties(AppPageContent())| == 10
    ensures Parse(CardText(AppPageContent()), LF) == Some(Properties(AppPageContent()))
    ensures Count(CardText(AppPageContent()), '\r') == 0
    ensures Count(CardText(AppPageContent()), '\n') == 9
  {
    ContentPlain();
    FullCard(AppPageContent());
  }

  /** A card with every optional field present: ten properties, read back
      at LF, nine line breaks. */
  lemma FullCard(c: Content)
    requires NoLineBreaks(c)
    requires c.email != "" && c.phone != "" && c.calendly != "" && c.linkedin != ""
    ensures |Properties(c)| == 10
    ensures Parse(CardText(c), LF) == Some(Properties(c))
    ensures Count(CardText(c), '\r') == 0 && Count(CardText(c), '\n') == 9
  {
    ReadBack(c);
    LineBreakCounts(c);
    CardLinesAreProperties(c);
  }

  /** The root page's card is the same card, under the same file name. */
  lemma RootPageCard()
    ensures CardText(RootPageContent()) == CardText(AppPageContent())
    ensures Href(RootPageContent()) == Href(AppPageContent())
    ensures FileName(RootPageContent().name) == "Sarthak-Mittal.vcf"
  {
    SameContent();
    ConfiguredFileName();
  }

  /** The file name the pages derive is the one the server's
      Content-Disposition header names. */
  lemma ServerFileNameAgrees()
    ensures VCardRoute.Headers()["Content-Disposition"]
      == "attachment; filename=\"" + FileName(AppPageContent().name) + "\""
  {
    ConfiguredFileName();
    DispositionValue();
  }

  lemma DispositionValue()
    ensures "attachment; filename=\"" + "Sarthak-Mittal.vcf" + "\"" == "attachment; filename=\"Sarthak-Mittal.vcf\""
  {
  }

  /** A page record and a server contact with the same details, the
      server's family and given names being the ones the page's N line
      fixes. */
  predicate SameDetails(c: Content, k: VCardRoute.Contact) {
    && c.name == k.name && c.location == k.location && c.email == k.email
    && c.phone == k.phone && c.linkedin == k.linkedin && c.calendly == k.calendly
    && k.last == "Mittal" && k.first == "Sarthak"
  }

  /** Against the server's card for the same details, every field present:
      the same first six properties (BEGIN to TEL), the same URL, ADR and END
      properties but URL moved ahead of ADR, and the LinkedIn address under
      X-SOCIALPROFILE instead of item1.URL with its item1.X-ABLabel. */
  lemma ComparedWithServer(c: Content, k: VCardRoute.Contact)
    requires SameDetails(c, k)
    requires c.email != "" && c.phone != "" && c.calendly != "" && c.linkedin != ""
    ensures var cl, sv := Properties(c), VCardRoute.Properties(k);
      && |cl| == 10 && |sv| == 11
      && cl[..6] == sv[..6]
      && cl[6] == sv[7] && cl[6].name == "URL"
      && cl[7] == Property(SocialProfile, sv[8].value) && sv[8].name == "item1.URL"
      && cl[8] == sv[6] && cl[9] == sv[10]
  {
    FullOptionals(c);
  }

  /** With every field present, all four optional properties are there. */
  lemma FullOptionals(c: Content)
    requires c.email != "" && c.phone != "" && c.calendly != "" && c.linkedin != ""
    ensures Optionals(c) == [
      Property("EMAIL;TYPE=INTERNET,PREF", c.email), Property("TEL;TYPE=CELL", c.phone),
      Property("URL", c.calendly), Property(SocialProfile, c.linkedin)]
  {
  }

  lemma ConfiguredSameDetails()
    ensures SameDetails(AppPageContent(), VCardRoute.Configured())
    ensures AppPageContent().email != "" && AppPageContent().phone != ""
    ensures AppPageContent().calendly != "" && AppPageContent().linkedin != ""
  {
  }
}
