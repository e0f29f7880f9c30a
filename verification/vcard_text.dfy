/** Reading a vCard back: the text is cut into content lines at a delimiter
    (CRLF per section 5.8.1 of RFC 2425), and each line into its name part
    (group, name and parameters) and its value at the first colon. Structured
    values (N, ADR of RFC 2426) are cut into components at `;`. Both card
    generators are checked against this reader. */
module VCardText {
  import opened Wrappers
  import opened Strings

  const CRLF: string := "\r\n"
  const LF: string := "\n"

  /** One content line: everything before the first colon, and the value. */
  datatype Property = Property(name: string, value: string)

  /** The line split at its first colon; None when it has none. */
  function ParseLine(line: string): (p: Option<Property>)
    ensures p.Some? ==> line == p.value.name + ":" + p.value.value && ':' !in p.value.name
    ensures p.None? <==> ':' !in line
    decreases |line|
  {
    if line == [] then None
    else if line[0] == ':' then Some(Property("", line[1..]))
    else match ParseLine(line[1..])
      case None => None
      case Some(p) => Some(Property([line[0]] + p.name, p.value))
  }

  function ParseLines(lines: seq<string>): (ps: Option<seq<Property>>)
    ensures ps.Some? ==> |ps.value| == |lines|
  {
    if lines == [] then Some([])
    else match (ParseLine(lines[0]), ParseLines(lines[1..]))
      case (Some(p), Some(ps)) => Some([p] + ps)
      case _ => None
  }

  /** The properties of a card whose lines are separated by `delimiter`. */
  function Parse(text: string, delimiter: string): Option<seq<Property>>
    requires delimiter != ""
  {
    ParseLines(Split(text, delimiter))
  }

  /** The components of a structured value. */
  function Components(value: string): seq<string> {
    Split(value, ";")
  }

  /** The line of a property: its name, a colon and its value. */
  function LineOf(p: Property): string {
    p.name + ":" + p.value
  }

  lemma {:induction false} ParseLineOf(p: Property)
    requires Avoids(p.name, ":")
    ensures ParseLine(LineOf(p)) == Some(p)
    decreases |p.name|
  {
    var line := LineOf(p);
    if p.name != [] {
      var rest := Property(p.name[1..], p.value);
      assert line[0] == p.name[0] && line[0] != ':';
      assert line[1..] == LineOf(rest);
      ParseLineOf(rest);
      assert [p.name[0]] + p.name[1..] == p.name;
    } else {
      assert line[0] == ':';
      assert line[1..] == p.value;
    }
  }

  lemma {:induction false} ParseLinesOf(ps: seq<Property>)
    requires forall i :: 0 <= i < |ps| ==> Avoids(ps[i].name, ":")
    ensures ParseLines(Lines(ps)) == Some(ps)
    decreases |ps|
  {
    if ps != [] {
      ParseLineOf(ps[0]);
      assert Lines(ps)[1..] == Lines(ps[1..]);
      ParseLinesOf(ps[1..]);
      assert [ps[0]] + ps[1..] == ps;
    }
  }

  function Lines(ps: seq<Property>): (lines: seq<string>)
    ensures |lines| == |ps| && forall i :: 0 <= i < |ps| ==> lines[i] == LineOf(ps[i])
  {
    seq(|ps|, i requires 0 <= i < |ps| => LineOf(ps[i]))
  }

  lemma LinesAppend(a: seq<Property>, b: seq<Property>)
    ensures Lines(a + b) == Lines(a) + Lines(b)
  {
  }

  /** A property that can be written as one line of a card whose lines are
      separated by `delimiter`: its name part has no colon and its line does
      not contain the delimiter. */
  predicate Fits(p: Property, delimiter: string) {
    Avoids(p.name, ":") && Avoids(LineOf(p), delimiter)
  }

  lemma LineOfAvoids(p: Property, delimiter: string)
    requires Avoids(p.name, delimiter) && Avoids(":", delimiter) && Avoids(p.value, delimiter)
    ensures Avoids(LineOf(p), delimiter)
  {
    AvoidsConcat(p.name, ":", delimiter);
    AvoidsConcat(p.name + ":", p.value, delimiter);
  }

  lemma FitsAppend(a: seq<Property>, b: seq<Property>, delimiter: string)
    requires forall i :: 0 <= i < |a| ==> Fits(a[i], delimiter)
    requires forall i :: 0 <= i < |b| ==> Fits(b[i], delimiter)
    ensures forall i :: 0 <= i < |a + b| ==> Fits((a + b)[i], delimiter)
  {
  }

  /** Up to five properties, each shown to fit on its own. */
  lemma FitsEach(ps: seq<Property>, delimiter: string)
    requires |ps| <= 5
    requires |ps| > 0 ==> Fits(ps[0], delimiter)
    requires |ps| > 1 ==> Fits(ps[1], delimiter)
    requires |ps| > 2 ==> Fits(ps[2], delimiter)
    requires |ps| > 3 ==> Fits(ps[3], delimiter)
    requires |ps| > 4 ==> Fits(ps[4], delimiter)
    ensures forall i :: 0 <= i < |ps| ==> Fits(ps[i], delimiter)
  {
    forall i | 0 <= i < |ps| ensures Fits(ps[i], delimiter) {
      if i == 0 {} else if i == 1 {} else if i == 2 {} else if i == 3 {} else {}
    }
  }

  /** A property whose name has no colon and no line break, and whose value
      has no line break, fits on a line ended by CRLF or by LF alone. */
  lemma PlainFits(p: Property)
    requires Avoids(p.name, ":\r\n") && Avoids(p.value, CRLF)
    ensures Fits(p, CRLF) && Fits(p, LF)
  {
    LineOfAvoids(p, CRLF);
    LineOfAvoids(p, LF);
  }

  /** A line free of CR and LF is free of LF. */
  lemma FitsLF(ps: seq<Property>)
    requires forall i :: 0 <= i < |ps| ==> Fits(ps[i], CRLF)
    ensures forall i :: 0 <= i < |ps| ==> Fits(ps[i], LF)
  {
  }

  /** Lines free of CR and LF joined by LF: no CR, and one LF per line
      break. */
  lemma LFJoinCounts(lines: seq<string>)
    requires |lines| >= 1
    requires forall i :: 0 <= i < |lines| ==> Avoids(lines[i], CRLF)
    ensures Count(Join(lines, LF), '\r') == 0
    ensures Count(Join(lines, LF), '\n') == |lines| - 1
  {
    assert multiset(LF) == multiset{'\n'};
    AvoidsCountAll(lines, CRLF, '\r');
    CountJoin(lines, LF, '\r');
    CountJoinAvoiding(lines, LF, '\n');
  }

  /** Some property of `ps` is called `name`. */
  predicate Has(ps: seq<Property>, name: string) {
    exists i :: 0 <= i < |ps| && ps[i].name == name
  }

  lemma HasAppend(a: seq<Property>, b: seq<Property>, name: string)
    ensures Has(a + b, name) <==> Has(a, name) || Has(b, name)
  {
    if Has(a + b, name) {
      var i :| 0 <= i < |a + b| && (a + b)[i].name == name;
      if i >= |a| {
        assert b[i - |a|].name == name;
      }
    }
    if Has(a, name) {
      var i :| 0 <= i < |a| && a[i].name == name;
      assert (a + b)[i] == a[i];
    }
    if Has(b, name) {
      var i :| 0 <= i < |b| && b[i].name == name;
      assert (a + b)[|a| + i] == b[i];
    }
  }

  lemma LinesAvoid(ps: seq<Property>, delimiter: string)
    requires forall i :: 0 <= i < |ps| ==> Fits(ps[i], delimiter)
    ensures forall i :: 0 <= i < |Lines(ps)| ==> Avoids(Lines(ps)[i], delimiter)
  {
  }

  /** A card written as its property lines joined by a delimiter that none of
      them contains reads back as those properties. */
  lemma ParseJoined(ps: seq<Property>, delimiter: string)
    requires delimiter != "" && |ps| >= 1
    requires forall i :: 0 <= i < |ps| ==> Fits(ps[i], delimiter)
    ensures Split(Join(Lines(ps), delimiter), delimiter) == Lines(ps)
    ensures Parse(Join(Lines(ps), delimiter), delimiter) == Some(ps)
  {
    SplitJoin(Lines(ps), delimiter);
    ParseLinesOf(ps);
  }

  /** The five components of a name value, family and given name first. */
  lemma NameValue(family: string, given: string)
    ensures Join([family, given, "", "", ""], ";") == family + ";" + given + ";;;"
  {
    JoinCons("", [""], ";");
    JoinCons("", ["", ""], ";");
    JoinCons(given, ["", "", ""], ";");
    JoinCons(family, [given, "", "", ""], ";");
  }

  /** The seven components of an address value, the street address third. */
  lemma AddressValue(street: string)
    ensures Join(["", "", street, "", "", "", ""], ";") == ";;" + street + ";;;;"
  {
    JoinCons("", [""], ";");
    JoinCons("", ["", ""], ";");
    JoinCons("", ["", "", ""], ";");
    JoinCons(street, ["", "", "", ""], ";");
    JoinCons("", [street, "", "", "", ""], ";");
    JoinCons("", ["", street, "", "", "", ""], ";");
  }

  /** `;`-separated components with no `;` inside read back as themselves. */
  lemma ComponentsOfJoin(parts: seq<string>)
    requires |parts| >= 1
    requires forall i :: 0 <= i < |parts| ==> ';' !in parts[i]
    ensures Components(Join(parts, ";")) == parts
  {
    forall i | 0 <= i < |parts| ensures Avoids(parts[i], ";") {
      AvoidsChar(parts[i], ';');
    }
    SplitJoin(parts, ";");
  }
}
