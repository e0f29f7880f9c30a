/** String operations of the JavaScript runtime that the card and QR code
    generators rely on: `Array.prototype.join`, `String.prototype.split` with a
    literal separator, the `\s` character class and ASCII lower-casing. */
module Strings {

  /** The characters matched by `\s` in an ECMAScript regular expression; the
      same set is the StrWhiteSpaceChar set that `parseInt` skips: WhiteSpace
      (TAB, VT, FF, ZWNBSP and the Zs category) and LineTerminator (LF, CR,
      LS, PS). */
  predicate IsWhiteSpace(c: char)
    ensures IsWhiteSpace(c) ==> !IsDigit(c) && c != '-' && c != '+'
  {
    || c == '\t' || c == '\n' || c == '\U{B}' || c == '\U{C}' || c == '\r'
    || c == ' ' || c == '\U{A0}' || c == '\U{1680}'
    || ('\U{2000}' <= c <= '\U{200A}')
    || c == '\U{2028}' || c == '\U{2029}' || c == '\U{202F}' || c == '\U{205F}'
    || c == '\U{3000}' || c == '\U{FEFF}'
  }

  predicate IsDigit(c: char) {
    '0' <= c <= '9'
  }

  /** `lines.join(sep)`: the elements with `sep` between neighbours. */
  function Join(lines: seq<string>, sep: string): (r: string)
    ensures |lines| == 0 ==> r == ""
    ensures |lines| >= 1 ==> |r| == TotalLength(lines) + (|lines| - 1) * |sep|
  {
    if |lines| == 0 then ""
    else if |lines| == 1 then lines[0]
    else
      MulStep(|lines| - 1, |sep|);
      lines[0] + sep + Join(lines[1..], sep)
  }

  /** The summed length of the elements. */
  function TotalLength(lines: seq<string>): nat {
    if lines == [] then 0 else |lines[0]| + TotalLength(lines[1..])
  }

  lemma JoinCons(x: string, rest: seq<string>, sep: string)
    requires |rest| >= 1
    ensures Join([x] + rest, sep) == x + sep + Join(rest, sep)
  {
    assert ([x] + rest)[1..] == rest;
  }

  /** `s.split(sep)` for a non-empty literal separator: cut at every occurrence
      of `sep`, scanning left to right. */
  function Split(s: string, sep: string): (parts: seq<string>)
    requires sep != ""
    ensures |parts| >= 1
    decreases |s|
  {
    if |s| < |sep| then [s]
    else if s[..|sep|] == sep then [""] + Split(s[|sep|..], sep)
    else
      var rest := Split(s[1..], sep);
      [[s[0]] + rest[0]] + rest[1..]
  }

  /** No character of `s` occurs in `sep`. */
  predicate Avoids(s: string, sep: string) {
    forall i :: 0 <= i < |s| ==> s[i] !in sep
  }

  /** `lines.filter(Boolean)` on strings: keep the non-empty ones. */
  function NonEmpty(lines: seq<string>): (kept: seq<string>)
    ensures forall i :: 0 <= i < |kept| ==> kept[i] != ""
    ensures |kept| <= |lines|
  {
    if lines == [] then []
    else if lines[0] == "" then NonEmpty(lines[1..])
    else [lines[0]] + NonEmpty(lines[1..])
  }

  /** How often `x` occurs in `s`. */
  function Count(s: string, x: char): nat {
    multiset(s)[x]
  }

  /** How often `x` occurs in all of `lines` together. */
  function CountAll(lines: seq<string>, x: char): nat {
    if lines == [] then 0 else Count(lines[0], x) + CountAll(lines[1..], x)
  }

  /** The ASCII lower-casing of one character. */
  function LowerAsciiChar(c: char): char {
    if 'A' <= c <= 'Z' then (c as int + 32) as char else c
  }

  /** A lower-case ASCII letter comes from itself or its upper-case form and
      from nothing else. */
  lemma LowerAsciiCharIs(c: char, lower: char)
    requires 'a' <= lower <= 'z'
    ensures LowerAsciiChar(c) == lower <==> c == lower || c == (lower as int - 32) as char
  {
  }

  /** `s.toLowerCase()` restricted to the ASCII letters. */
  function ToLowerAscii(s: string): (r: string)
    ensures |r| == |s|
    ensures forall i :: 0 <= i < |s| ==> r[i] == LowerAsciiChar(s[i])
  {
    if s == [] then [] else [LowerAsciiChar(s[0])] + ToLowerAscii(s[1..])
  }

  // ---------------------------------------------------------------------
  // Avoids

  lemma AvoidsConcat(a: string, b: string, sep: string)
    requires Avoids(a, sep) && Avoids(b, sep)
    ensures Avoids(a + b, sep)
  {
    forall i | 0 <= i < |a + b| ensures (a + b)[i] !in sep {
      if i < |a| {
        assert (a + b)[i] == a[i];
      } else {
        assert (a + b)[i] == b[i - |a|];
      }
    }
  }

  lemma {:induction false} AvoidsJoin(parts: seq<string>, sep: string, other: string)
    requires Avoids(sep, other)
    requires forall i :: 0 <= i < |parts| ==> Avoids(parts[i], other)
    ensures Avoids(Join(parts, sep), other)
    decreases |parts|
  {
    if |parts| > 1 {
      AvoidsJoin(parts[1..], sep, other);
      AvoidsConcat(parts[0], sep, other);
      AvoidsConcat(parts[0] + sep, Join(parts[1..], sep), other);
    } else if |parts| == 0 {
    }
  }

  /** A character of the separator does not occur in a string that avoids it. */
  lemma {:induction false} AvoidsCount(s: string, sep: string, x: char)
    requires Avoids(s, sep) && x in sep
    ensures Count(s, x) == 0
    decreases |s|
  {
    if s != [] {
      assert s[0] !in sep;
      AvoidsCount(s[1..], sep, x);
      assert s == [s[0]] + s[1..];
      CountConcat([s[0]], s[1..], x);
    }
  }

  lemma {:induction false} AvoidsCountAll(lines: seq<string>, sep: string, x: char)
    requires x in sep
    requires forall i :: 0 <= i < |lines| ==> Avoids(lines[i], sep)
    ensures CountAll(lines, x) == 0
    decreases |lines|
  {
    if lines != [] {
      AvoidsCount(lines[0], sep, x);
      AvoidsCountAll(lines[1..], sep, x);
    }
  }

  lemma AvoidsChar(s: string, x: char)
    requires x !in s
    ensures Avoids(s, [x])
  {
  }

  // ---------------------------------------------------------------------
  // Split undoes Join when no element shares a character with the separator

  lemma {:induction false} SplitNoSeparator(w: string, sep: string)
    requires sep != "" && Avoids(w, sep)
    ensures Split(w, sep) == [w]
    decreases |w|
  {
    if |w| >= |sep| {
      assert w[0] !in sep;
      assert w[..|sep|][0] == w[0];
      SplitNoSeparator(w[1..], sep);
      assert [w[0]] + w[1..] == w;
    }
  }

  lemma {:induction false} SplitAfterWord(w: string, sep: string, rest: string)
    requires sep != "" && Avoids(w, sep)
    ensures Split(w + sep + rest, sep) == [w] + Split(rest, sep)
    decreases |w|
  {
    var s := w + sep + rest;
    if w == [] {
      assert s == sep + rest;
      assert s[..|sep|] == sep;
      assert s[|sep|..] == rest;
    } else {
      assert s[0] == w[0] && w[0] !in sep;
      assert s[..|sep|][0] == w[0];
      assert s[1..] == w[1..] + sep + rest;
      SplitAfterWord(w[1..], sep, rest);
      assert [w[0]] + w[1..] == w;
    }
  }

  /** The split of a join gives back the elements. */
  lemma {:induction false} SplitJoin(lines: seq<string>, sep: string)
    requires sep != "" && |lines| >= 1
    requires forall i :: 0 <= i < |lines| ==> Avoids(lines[i], sep)
    ensures Split(Join(lines, sep), sep) == lines
    decreases |lines|
  {
    if |lines| == 1 {
      SplitNoSeparator(lines[0], sep);
    } else {
      SplitAfterWord(lines[0], sep, Join(lines[1..], sep));
      SplitJoin(lines[1..], sep);
      assert [lines[0]] + lines[1..] == lines;
    }
  }

  lemma CountConcat(a: string, b: string, x: char)
    ensures Count(a + b, x) == Count(a, x) + Count(b, x)
  {
    assert multiset(a + b) == multiset(a) + multiset(b);
  }

  lemma MulStep(n: int, k: int)
    ensures (n - 1) * k + k == n * k
  {}

  /** Every character of a join is counted once per element and once per
      separator between two elements. */
  lemma {:induction false} CountJoin(lines: seq<string>, sep: string, x: char)
    requires |lines| >= 1
    ensures Count(Join(lines, sep), x) == CountAll(lines, x) + (|lines| - 1) * Count(sep, x)
    decreases |lines|
  {
    if |lines| > 1 {
      var n, k := |lines| - 1, Count(sep, x);
      var tail := Join(lines[1..], sep);
      CountJoin(lines[1..], sep, x);
      assert Join(lines, sep) == lines[0] + sep + tail;
      CountConcat(lines[0], sep, x);
      CountConcat(lines[0] + sep, tail, x);
      MulStep(n, k);
    } else {
      assert CountAll(lines[1..], x) == 0;
    }
  }

  /** Elements that avoid the separator leave its characters to the
      separators between them. */
  lemma CountJoinAvoiding(lines: seq<string>, sep: string, x: char)
    requires |lines| >= 1 && x in sep
    requires forall i :: 0 <= i < |lines| ==> Avoids(lines[i], sep)
    ensures Count(Join(lines, sep), x) == (|lines| - 1) * Count(sep, x)
  {
    AvoidsCountAll(lines, sep, x);
    CountJoin(lines, sep, x);
  }

  /** The join starts with the first element and ends with the last. */
  lemma {:induction false} JoinEnds(lines: seq<string>, sep: string)
    requires |lines| >= 1
    ensures |Join(lines, sep)| >= |lines[0]| && |Join(lines, sep)| >= |lines[|lines| - 1]|
    ensures Join(lines, sep)[..|lines[0]|] == lines[0]
    ensures Join(lines, sep)[|Join(lines, sep)| - |lines[|lines| - 1]|..] == lines[|lines| - 1]
    decreases |lines|
  {
    if |lines| > 1 {
      JoinEnds(lines[1..], sep);
      var tail := Join(lines[1..], sep);
      var s := lines[0] + sep + tail;
      assert s[..|lines[0]|] == lines[0];
      assert s[|s| - |tail|..] == tail;
      var last := lines[|lines| - 1];
      assert lines[1..][|lines[1..]| - 1] == last;
      assert s[|s| - |last|..] == tail[|tail| - |last|..];
    }
  }

  /** `filter(Boolean)` keeps exactly the non-empty elements: every kept
      element comes from the input, and no non-empty element is lost. */
  lemma {:induction false} NonEmptyMembers(lines: seq<string>)
    ensures forall x :: x in NonEmpty(lines) ==> x != "" && x in lines
    ensures forall x :: x in lines && x != "" ==> x in NonEmpty(lines)
  {
    if lines != [] {
      NonEmptyMembers(lines[1..]);
      assert forall x :: x in lines ==> x == lines[0] || x in lines[1..];
    }
  }

  lemma {:induction false} NonEmptyKeepsAll(lines: seq<string>)
    requires forall i :: 0 <= i < |lines| ==> lines[i] != ""
    ensures NonEmpty(lines) == lines
    decreases |lines|
  {
    if lines != [] {
      NonEmptyKeepsAll(lines[1..]);
      assert [lines[0]] + lines[1..] == lines;
    }
  }

  lemma {:induction false} NonEmptyAppend(a: seq<string>, b: seq<string>)
    ensures NonEmpty(a + b) == NonEmpty(a) + NonEmpty(b)
    decreases |a|
  {
    if a != [] {
      assert (a + b)[1..] == a[1..] + b;
      NonEmptyAppend(a[1..], b);
    } else {
      assert a + b == b;
    }
  }

  // ---------------------------------------------------------------------
  // Whitespace runs: `s.replace(/\s+/g, repl)` and `s.split(/\s+/)`

  predicate HasNoWhiteSpace(s: string) {
    forall i :: 0 <= i < |s| ==> !IsWhiteSpace(s[i])
  }

  /** `s` without its leading whitespace run. */
  function DropWhiteSpace(s: string): (r: string)
    ensures |r| <= |s| && r == s[|s| - |r|..]
    ensures forall i :: 0 <= i < |s| - |r| ==> IsWhiteSpace(s[i])
    ensures r == [] || !IsWhiteSpace(r[0])
    ensures s != [] && IsWhiteSpace(s[0]) ==> |r| < |s|
  {
    if s != [] && IsWhiteSpace(s[0]) then DropWhiteSpace(s[1..]) else s
  }

  /** `s.replace(/\s+/g, repl)`: each maximal whitespace run becomes `repl`. */
  function ReplaceWhiteSpaceRuns(s: string, repl: string): (r: string)
    ensures |repl| <= 1 ==> |r| <= |s|
    decreases |s|
  {
    if s == [] then ""
    else if IsWhiteSpace(s[0]) then repl + ReplaceWhiteSpaceRuns(DropWhiteSpace(s), repl)
    else [s[0]] + ReplaceWhiteSpaceRuns(s[1..], repl)
  }

  /** `s.split(/\s+/)`: the pieces between maximal whitespace runs, with an
      empty first (last) piece when `s` starts (ends) with whitespace. */
  function SplitOnWhiteSpace(s: string): (words: seq<string>)
    ensures |words| >= 1
    ensures forall i :: 0 <= i < |words| ==> HasNoWhiteSpace(words[i])
    decreases |s|
  {
    if s == [] then [""]
    else if IsWhiteSpace(s[0]) then [""] + SplitOnWhiteSpace(DropWhiteSpace(s))
    else
      var rest := SplitOnWhiteSpace(s[1..]);
      [[s[0]] + rest[0]] + rest[1..]
  }

  lemma JoinExtendFirst(x: string, words: seq<string>, sep: string)
    requires |words| >= 1
    ensures Join([x + words[0]] + words[1..], sep) == x + Join(words, sep)
  {
    var w := [x + words[0]] + words[1..];
    if |words| > 1 {
      assert w[1..] == words[1..];
    }
  }

  /** Replacing every whitespace run by `repl` is splitting at the runs and
      joining the pieces with `repl`. */
  lemma {:induction false} ReplaceIsSplitJoin(s: string, repl: string)
    ensures ReplaceWhiteSpaceRuns(s, repl) == Join(SplitOnWhiteSpace(s), repl)
    decreases |s|
  {
    if s == [] {
    } else if IsWhiteSpace(s[0]) {
      var rest := DropWhiteSpace(s);
      ReplaceIsSplitJoin(rest, repl);
      var w := [""] + SplitOnWhiteSpace(rest);
      assert w[1..] == SplitOnWhiteSpace(rest);
      assert Join(w, repl) == "" + repl + Join(SplitOnWhiteSpace(rest), repl);
    } else {
      ReplaceIsSplitJoin(s[1..], repl);
      JoinExtendFirst([s[0]], SplitOnWhiteSpace(s[1..]), repl);
    }
  }

  lemma NoWhiteSpaceConcat(a: string, b: string)
    requires HasNoWhiteSpace(a) && HasNoWhiteSpace(b)
    ensures HasNoWhiteSpace(a + b)
  {
    forall i | 0 <= i < |a + b| ensures !IsWhiteSpace((a + b)[i]) {
      if i < |a| {
        assert (a + b)[i] == a[i];
      } else {
        assert (a + b)[i] == b[i - |a|];
      }
    }
  }

  /** With a whitespace-free replacement, no whitespace is left. */
  lemma {:induction false} ReplacedHasNoWhiteSpace(s: string, repl: string)
    requires HasNoWhiteSpace(repl)
    ensures HasNoWhiteSpace(ReplaceWhiteSpaceRuns(s, repl))
    decreases |s|
  {
    if s == [] {
    } else if IsWhiteSpace(s[0]) {
      ReplacedHasNoWhiteSpace(DropWhiteSpace(s), repl);
    } else {
      ReplacedHasNoWhiteSpace(s[1..], repl);
    }
  }

  /** A string without whitespace is left as it is. */
  lemma {:induction false} ReplaceWithoutWhiteSpace(s: string, repl: string)
    requires HasNoWhiteSpace(s)
    ensures ReplaceWhiteSpaceRuns(s, repl) == s
    decreases |s|
  {
    if s != [] {
      ReplaceWithoutWhiteSpace(s[1..], repl);
      assert [s[0]] + s[1..] == s;
    }
  }

  lemma {:induction false} DropRun(ws: string, rest: string)
    requires ws != [] && forall i :: 0 <= i < |ws| ==> IsWhiteSpace(ws[i])
    requires rest == [] || !IsWhiteSpace(rest[0])
    ensures DropWhiteSpace(ws + rest) == rest
    decreases |ws|
  {
    var s := ws + rest;
    assert s[0] == ws[0];
    if |ws| == 1 {
      assert s[1..] == rest;
    } else {
      assert s[1..] == ws[1..] + rest;
      DropRun(ws[1..], rest);
    }
  }

  /** A whitespace run and a rest that does not begin with whitespace: the
      run becomes `repl`. */
  lemma ReplaceLeadingRun(ws: string, rest: string, repl: string)
    requires ws != [] && forall i :: 0 <= i < |ws| ==> IsWhiteSpace(ws[i])
    requires rest == [] || !IsWhiteSpace(rest[0])
    ensures ReplaceWhiteSpaceRuns(ws + rest, repl) == repl + ReplaceWhiteSpaceRuns(rest, repl)
  {
    assert (ws + rest)[0] == ws[0];
    DropRun(ws, rest);
  }

  lemma ReplaceKeepsWordChar(s: string, repl: string)
    requires s != [] && !IsWhiteSpace(s[0])
    ensures ReplaceWhiteSpaceRuns(s, repl) == [s[0]] + ReplaceWhiteSpaceRuns(s[1..], repl)
  {
  }

  /** A word without whitespace in front is copied as it is. */
  lemma {:induction false} ReplaceAfterWord(w: string, t: string, repl: string)
    requires HasNoWhiteSpace(w)
    ensures ReplaceWhiteSpaceRuns(w + t, repl) == w + ReplaceWhiteSpaceRuns(t, repl)
    decreases |w|
  {
    if w == [] {
      assert w + t == t;
    } else {
      var s := w + t;
      assert s[0] == w[0] && s[1..] == w[1..] + t;
      ReplaceKeepsWordChar(s, repl);
      ReplaceAfterWord(w[1..], t, repl);
      assert [w[0]] + w[1..] == w;
    }
  }

  /** A word, then a whitespace run, then a rest that does not begin with
      whitespace: the word is kept and the run becomes `repl`. */
  lemma ReplaceRunAfterWord(w: string, ws: string, rest: string, repl: string)
    requires HasNoWhiteSpace(w)
    requires ws != [] && forall i :: 0 <= i < |ws| ==> IsWhiteSpace(ws[i])
    requires rest == [] || !IsWhiteSpace(rest[0])
    ensures ReplaceWhiteSpaceRuns(w + ws + rest, repl) == w + repl + ReplaceWhiteSpaceRuns(rest, repl)
  {
    ReplaceLeadingRun(ws, rest, repl);
    ReplaceAfterWord(w, ws + rest, repl);
    ConcatAssoc(w, ws, rest);
    ConcatAssoc(w, repl, ReplaceWhiteSpaceRuns(rest, repl));
  }

  lemma ConcatAssoc(a: string, b: string, c: string)
    ensures a + b + c == a + (b + c)
  {
  }
}
