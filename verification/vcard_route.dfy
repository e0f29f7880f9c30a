/** The `GET /api/vcard` handler: a vCard 3.0 record (RFC 2426) assembled from
    a fixed contact record as a list of property lines, in a fixed order, the
    phone line left out when the phone is empty, joined with CRLF and served
    as a downloadable attachment. Values are inserted as they are, with no
    escaping. */
module VCardRoute {
  import opened Wrappers
  import opened Strings
  import opened VCardText

  /** The fields the handler is configured with. */
  datatype Contact = Contact(
    name: string, first: string, last: string, email: string, phone: string,
    location: string, linkedin: string, calendly: string)

  /** The values the handler ships with. */
  function Configured(): Contact {
    Contact(
      "Sarthak Mittal", "Sarthak", "Mittal", "mittal.sart@gmail.com", "+91 8073877696",
      "Bengaluru, India", "https://www.linkedin.com/in/sarthakmittal115/",
      "https://calendly.com/mittal-sart/30min")
  }

  /** The array literal of the handler, before filtering: the phone entry is
      the empty string when there is no phone. */
  function Candidates(c: Contact): (lines: seq<string>)
    ensures |lines| == 11
    ensures lines[5] == "" <==> c.phone == ""
    ensures forall i :: 0 <= i < |lines| && i != 5 ==> lines[i] != ""
  {
    [ "BEGIN:VCARD",
      "VERSION:3.0",
      "N:" + c.last + ";" + c.first + ";;;",
      "FN:" + c.name,
      "EMAIL;TYPE=INTERNET,PREF:" + c.email,
      if c.phone != "" then "TEL;TYPE=CELL:" + c.phone else "",
      "ADR;TYPE=WORK:;;" + c.location + ";;;;",
      "URL:" + c.calendly,
      "item1.URL:" + c.linkedin,
      "item1.X-ABLabel:LinkedIn",
      "END:VCARD" ]
  }

  /** `[...].filter(Boolean)`: the non-empty entries, each of them kept. */
  function CardLines(c: Contact): (lines: seq<string>)
    ensures forall i :: 0 <= i < |lines| ==> lines[i] != ""
    ensures |lines| <= 11
  {
    NonEmpty(Candidates(c))
  }

  /** `[...].filter(Boolean).join('\r\n')`: the response body. */
  function Serialize(c: Contact): (text: string)
    ensures |text| >= 20 && text[..11] == "BEGIN:VCARD" && text[|text| - 9..] == "END:VCARD"
  {
    var lines := CardLines(c);
    CardLinesAreProperties(c);
    JoinEnds(lines, CRLF);
    Join(lines, CRLF)
  }

  /** The response headers: the vCard media type, an attachment file name
      and a one-hour public cache. */
  function Headers(): (h: map<string, string>)
    ensures |h| == 3 && "Content-Type" in h && "Content-Disposition" in h && "Cache-Control" in h
  {
    map[
      "Content-Type" := "text/vcard; charset=utf-8",
      "Content-Disposition" := "attachment; filename=\"Sarthak-Mittal.vcf\"",
      "Cache-Control" := "public, max-age=3600"]
  }

  /** The handler. */
  function Get(): (r: Response)
    ensures r.status == 200 && r.headers == Headers() && r.body.Text?
  {
    Response(200, Text(Serialize(Configured())), Headers())
  }

  // ---------------------------------------------------------------------
  // What the card says

  /** The card as RFC 2426 properties, in the order the handler writes them:
      N has five components (family, given, then three empty), ADR seven with
      the location third, and TEL is present exactly when the phone is
      non-empty. */
  function Properties(c: Contact): seq<Property> {
    Opening(c) + (if c.phone != "" then [Property("TEL;TYPE=CELL", c.phone)] else []) + Closing(c)
  }

  function Opening(c: Contact): seq<Property> {
    [ Property("BEGIN", "VCARD"),
      Property("VERSION", "3.0"),
      Property("N", Join([c.last, c.first, "", "", ""], ";")),
      Property("FN", c.name),
      Property("EMAIL;TYPE=INTERNET,PREF", c.email) ]
  }

  function Closing(c: Contact): seq<Property> {
    [ Property("ADR;TYPE=WORK", Join(["", "", c.location, "", "", "", ""], ";")),
      Property("URL", c.calendly),
      Property("item1.URL", c.linkedin),
      Property("item1.X-ABLabel", "LinkedIn"),
      Property("END", "VCARD") ]
  }

  /** No field holds a CR or an LF. */
  predicate NoLineBreaks(c: Contact) {
    && Avoids(c.name, CRLF) && Avoids(c.first, CRLF) && Avoids(c.last, CRLF)
    && Avoids(c.email, CRLF) && Avoids(c.phone, CRLF) && Avoids(c.location, CRLF)
    && Avoids(c.linkedin, CRLF) && Avoids(c.calendly, CRLF)
  }

  /** After filtering, the lines are exactly the property lines of the card,
      none of them empty: the empty phone entry is the only one dropped. */
  lemma CardLinesAreProperties(c: Contact)
    ensures CardLines(c) == Lines(Properties(c))
    ensures |CardLines(c)| == if c.phone != "" then 11 else 10
    ensures forall i :: 0 <= i < |CardLines(c)| ==> CardLines(c)[i] != ""
    ensures CardLines(c)[0] == "BEGIN:VCARD" && CardLines(c)[|CardLines(c)| - 1] == "END:VCARD"
  {
    var cs := Candidates(c);
    var head, tel, tail := cs[..5], cs[5..6], cs[6..];
    assert cs == head + tel + tail;
    NonEmptyAppend(head + tel, tail);
    NonEmptyAppend(head, tel);
    NonEmptyKeepsAll(head);
    NonEmptyKeepsAll(tail);
    var telP := if c.phone != "" then [Property("TEL;TYPE=CELL", c.phone)] else [];
    assert NonEmpty(tel) == Lines(telP) by {
      if c.phone != "" {
        assert tel[0] == LineOf(telP[0]);
        assert NonEmpty(tel) == tel;
      }
    }
    OpeningLines(c);
    ClosingLines(c);
    LinesAppend(Opening(c), telP);
    LinesAppend(Opening(c) + telP, Closing(c));
  }

  lemma OpeningLines(c: Contact)
    ensures Candidates(c)[..5] == Lines(Opening(c))
  {
    var h, o := Candidates(c)[..5], Opening(c);
    NameLine(c.last, c.first);
    assert h[0] == LineOf(o[0]) && h[1] == LineOf(o[1]) && h[2] == LineOf(o[2]);
    assert h[3] == LineOf(o[3]) && h[4] == LineOf(o[4]);
  }

  lemma NameLine(family: string, given: string)
    ensures "N:" + family + ";" + given + ";;;" == LineOf(Property("N", Join([family, given, "", "", ""], ";")))
  {
    NameValue(family, given);
  }

  lemma ClosingLines(c: Contact)
    ensures Candidates(c)[6..] == Lines(Closing(c))
  {
    var t, o := Candidates(c)[6..], Closing(c);
    AddressValue(c.location);
    assert t[0] == LineOf(o[0]) && t[1] == LineOf(o[1]) && t[2] == LineOf(o[2]);
    assert t[3] == LineOf(o[3]) && t[4] == LineOf(o[4]);
  }

  /** The TEL line is in the card exactly when the phone is non-empty. */
  lemma TelLineIffPhone(c: Contact)
    ensures ("TEL;TYPE=CELL:" + c.phone in CardLines(c)) <==> c.phone != ""
  {
    CardLinesAreProperties(c);
    var lines, tel := CardLines(c), "TEL;TYPE=CELL:" + c.phone;
    if c.phone == "" {
      forall i | 0 <= i < |lines| ensures lines[i] != tel {
        assert lines[i] == LineOf(Properties(c)[i]);
        assert Properties(c)[i].name[0] != 'T';
        assert tel[0] == 'T';
      }
    } else {
      assert lines[5] == tel;
    }
  }

  // Each property is shown to fit in a proof of its own: facts about the
  // characters of several string literals in one proof are costly.

  lemma BeginFits()
    ensures Fits(Property("BEGIN", "VCARD"), CRLF)
  {
    PlainFits(Property("BEGIN", "VCARD"));
  }

  lemma VersionFits()
    ensures Fits(Property("VERSION", "3.0"), CRLF)
  {
    PlainFits(Property("VERSION", "3.0"));
  }

  lemma NameFits(last: string, first: string)
    requires Avoids(last, CRLF) && Avoids(first, CRLF)
    ensures Fits(Property("N", Join([last, first, "", "", ""], ";")), CRLF)
  {
    AvoidsJoin([last, first, "", "", ""], ";", CRLF);
    PlainFits(Property("N", Join([last, first, "", "", ""], ";")));
  }

  lemma FullNameFits(name: string)
    requires Avoids(name, CRLF)
    ensures Fits(Property("FN", name), CRLF)
  {
    PlainFits(Property("FN", name));
  }

  lemma EmailFits(email: string)
    requires Avoids(email, CRLF)
    ensures Fits(Property("EMAIL;TYPE=INTERNET,PREF", email), CRLF)
  {
    PlainFits(Property("EMAIL;TYPE=INTERNET,PREF", email));
  }

  lemma TelFits(phone: string)
    requires Avoids(phone, CRLF)
    ensures Fits(Property("TEL;TYPE=CELL", phone), CRLF)
  {
    PlainFits(Property("TEL;TYPE=CELL", phone));
  }

  lemma AddressFits(location: string)
    requires Avoids(location, CRLF)
    ensures Fits(Property("ADR;TYPE=WORK", Join(["", "", location, "", "", "", ""], ";")), CRLF)
  {
    AvoidsJoin(["", "", location, "", "", "", ""], ";", CRLF);
    PlainFits(Property("ADR;TYPE=WORK", Join(["", "", location, "", "", "", ""], ";")));
  }

  lemma UrlFits(url: string)
    requires Avoids(url, CRLF)
    ensures Fits(Property("URL", url), CRLF)
  {
    PlainFits(Property("URL", url));
  }

  lemma ItemUrlFits(url: string)
    requires Avoids(url, CRLF)
    ensures Fits(Property("item1.URL", url), CRLF)
  {
    PlainFits(Property("item1.URL", url));
  }

  lemma ItemLabelFits()
    ensures Fits(Property("item1.X-ABLabel", "LinkedIn"), CRLF)
  {
    PlainFits(Property("item1.X-ABLabel", "LinkedIn"));
  }

  lemma EndFits()
    ensures Fits(Property("END", "VCARD"), CRLF)
  {
    PlainFits(Property("END", "VCARD"));
  }

  lemma OpeningFits(c: Contact)
    requires NoLineBreaks(c)
    ensures forall i :: 0 <= i < |Opening(c)| ==> Fits(Opening(c)[i], CRLF)
  {
    BeginFits(); VersionFits(); NameFits(c.last, c.first); FullNameFits(c.name); EmailFits(c.email);
    FitsEach(Opening(c), CRLF);
  }

  lemma ClosingFits(c: Contact)
    requires NoLineBreaks(c)
    ensures forall i :: 0 <= i < |Closing(c)| ==> Fits(Closing(c)[i], CRLF)
  {
    AddressFits(c.location); UrlFits(c.calendly); ItemUrlFits(c.linkedin); ItemLabelFits(); EndFits();
    FitsEach(Closing(c), CRLF);
  }

  /** Every property of a card whose fields hold no line break fits on a
      CRLF-terminated line. */
  lemma PropertiesFit(c: Contact)
    requires NoLineBreaks(c)
    ensures forall i :: 0 <= i < |Properties(c)| ==> Fits(Properties(c)[i], CRLF)
  {
    var tel := if c.phone != "" then [Property("TEL;TYPE=CELL", c.phone)] else [];
    OpeningFits(c);
    ClosingFits(c);
    if c.phone != "" {
      TelFits(c.phone);
    }
    FitsAppend(Opening(c), tel, CRLF);
    FitsAppend(Opening(c) + tel, Closing(c), CRLF);
  }

  /** Read back at CRLF and at the first colon of each line, the body gives
      the card's properties, in order and with their values verbatim; so the
      lines are separated by CRLF and none is empty. */
  lemma ReadBack(c: Contact)
    requires NoLineBreaks(c)
    ensures Split(Serialize(c), CRLF) == CardLines(c)
    ensures Parse(Serialize(c), CRLF) == Some(Properties(c))
  {
    CardLinesAreProperties(c);
    PropertiesFit(c);
    ParseJoined(Properties(c), CRLF);
  }

  /** Every line ends in CR LF except the last: the body holds one CR and one
      LF per line break and no others. */
  lemma LineBreakCounts(c: Contact)
    requires NoLineBreaks(c)
    ensures Count(Serialize(c), '\r') == |CardLines(c)| - 1
    ensures Count(Serialize(c), '\n') == |CardLines(c)| - 1
  {
    CardLinesAreProperties(c);
    PropertiesFit(c);
    LinesAvoid(Properties(c), CRLF);
    CrlfCounts();
    CountJoinAvoiding(CardLines(c), CRLF, '\r');
    CountJoinAvoiding(CardLines(c), CRLF, '\n');
  }

  lemma CrlfCounts()
    ensures Count(CRLF, '\r') == 1 && Count(CRLF, '\n') == 1
  {
    assert multiset(CRLF) == multiset{'\r', '\n'};
  }

  /** N reads back as family name, given name and three empty components; ADR
      as seven components with the location in the third, which section
      3.2.1 of RFC 2426 defines as the street address (the locality is the
      fourth), provided the values hold no `;`. */
  lemma StructuredValues(c: Contact)
    requires ';' !in c.last && ';' !in c.first && ';' !in c.location
    ensures Properties(c)[2].name == "N"
    ensures Components(Properties(c)[2].value) == [c.last, c.first, "", "", ""]
    ensures var adr := if c.phone != "" then 6 else 5;
      Properties(c)[adr].name == "ADR;TYPE=WORK" &&
      Components(Properties(c)[adr].value) == ["", "", c.location, "", "", "", ""]
  {
    ComponentsOfJoin([c.last, c.first, "", "", ""]);
    ComponentsOfJoin(["", "", c.location, "", "", "", ""]);
  }

  // The configured values hold no line break, one literal at a time.

  lemma ConfiguredNamesPlain()
    ensures Avoids("Sarthak Mittal", CRLF) && Avoids("Sarthak", CRLF) && Avoids("Mittal", CRLF)
  {
  }

  lemma ConfiguredEmailPlain() ensures Avoids("mittal.sart@gmail.com", CRLF) { }
  lemma ConfiguredPhonePlain() ensures Avoids("+91 8073877696", CRLF) { }
  lemma ConfiguredLocationPlain() ensures Avoids("Bengaluru, India", CRLF) { }

  lemma ConfiguredLinkedInPlain()
    ensures Avoids("https://www.linkedin.com/in/sarthakmittal115/", CRLF)
  {
    var a, b := "https://www.linkedin.com", "/in/sarthakmittal115/";
    assert Avoids(a, CRLF) && Avoids(b, CRLF);
    AvoidsConcat(a, b, CRLF);
    assert a + b == "https://www.linkedin.com/in/sarthakmittal115/";
  }

  lemma ConfiguredCalendlyPlain()
    ensures Avoids("https://calendly.com/mittal-sart/30min", CRLF)
  {
  }

  lemma ConfiguredPlain()
    ensures NoLineBreaks(Configured())
  {
    ConfiguredNamesPlain(); ConfiguredEmailPlain(); ConfiguredPhonePlain();
    ConfiguredLocationPlain(); ConfiguredLinkedInPlain(); ConfiguredCalendlyPlain();
  }

  /** The response: status 200, the vCard media type, an attachment named
      Sarthak-Mittal.vcf cached for an hour, and a body that reads back as the
      configured card, phone line included. */
  lemma GetResponse()
    ensures Get().status == 200
    ensures Get().headers == map[
      "Content-Type" := "text/vcard; charset=utf-8",
      "Content-Disposition" := "attachment; filename=\"Sarthak-Mittal.vcf\"",
      "Cache-Control" := "public, max-age=3600"]
    ensures Get().body.Text?
    ensures Parse(Get().body.text, CRLF) == Some(Properties(Configured()))
    ensures |Properties(Configured())| == 11
  {
    ConfiguredPlain();
    ReadBack(Configured());
  }
}
