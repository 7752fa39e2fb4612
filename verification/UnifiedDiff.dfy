/** Hunks of a unified diff: a header line with two ranges, and the lines up to the next header. */
module UnifiedDiff {
  import opened Prelude
  import opened Text

  const I32_MIN: int := -0x8000_0000

  const I32_MAX: int := 0x7FFF_FFFF

  type i32 = x: int | I32_MIN <= x <= I32_MAX

  // ---------- numbers ----------

  predicate IsDigit(c: char) {
    '0' <= c <= '9'
  }

  function DigitValue(c: char): nat
    requires IsDigit(c)
  {
    c as int - '0' as int
  }

  predicate AllDigits(s: string) {
    forall c | c in s :: IsDigit(c)
  }

  function DigitsValue(s: string): nat
    requires AllDigits(s)
  {
    if s == "" then 0 else DigitsValue(s[..|s| - 1]) * 10 + DigitValue(s[|s| - 1])
  }

  /** `str::parse::<i32>`: an optional sign and at least one digit, within range. */
  function ParseI32(s: string): Option<i32> {
    var (negative, digits) :=
      if s != "" && s[0] == '-' then (true, s[1..]) else if s != "" && s[0] == '+' then (false, s[1..]) else (false, s);
    if digits == "" || !AllDigits(digits) then None
    else
      var size := DigitsValue(digits);
      var value: int := if negative then 0 - size else size;
      if I32_MIN <= value <= I32_MAX then Some(value) else None
  }

  function Digits(n: nat): string {
    if n < 10 then [('0' as int + n) as char] else Digits(n / 10) + [('0' as int + n % 10) as char]
  }

  function Magnitude(n: int): nat {
    if n < 0 then -n else n
  }

  function Decimal(n: int): string {
    if n < 0 then "-" + Digits(Magnitude(n)) else Digits(Magnitude(n))
  }

  lemma {:induction false} DigitsRoundTrip(n: nat)
    ensures Digits(n) != "" && AllDigits(Digits(n)) && DigitsValue(Digits(n)) == n
  {
    if n >= 10 {
      DigitsRoundTrip(n / 10);
      assert Digits(n)[..|Digits(n)| - 1] == Digits(n / 10);
    } else {
      assert Digits(n)[..0] == "";
    }
  }

  lemma DecimalRoundTrip(n: i32)
    ensures ParseI32(Decimal(n)) == Some(n)
  {
    DigitsRoundTrip(Magnitude(n));
    if n < 0 {
      assert Decimal(n)[1..] == Digits(Magnitude(n));
    } else {
      assert Digits(n)[0] in Digits(n);
    }
  }

  predicate Plain(s: string) {
    forall c | c in s :: IsDigit(c) || c == '-'
  }

  lemma DecimalIsPlain(n: int)
    ensures Plain(Decimal(n))
  {
    DigitsRoundTrip(Magnitude(n));
  }

  // ---------- headers ----------

  function StripPrefix(s: string, prefix: string): Option<string> {
    if prefix <= s then Some(s[|prefix|..]) else None
  }

  datatype Range = Range(start: i32, lines: i32)

  /** `None` counts as one line. */
  function ParseRange(s: string): Option<Range> {
    match SplitOnce(s, ',')
    case Some((start, lines)) =>
      if ParseI32(start).Some? && ParseI32(lines).Some? then Some(Range(ParseI32(start).value, ParseI32(lines).value))
      else None
    case None => if ParseI32(s).Some? then Some(Range(ParseI32(s).value, 1)) else None
  }

  function ParseHunkHeader(line: string): Option<(Range, Range)> {
    match StripPrefix(line, "@@ ")
    case None => None
    case Some(rest) =>
      match SplitOnce(rest, ' ')
      case None => None
      case Some((oldPart, rest2)) =>
        match SplitOnce(rest2, ' ')
        case None => None
        case Some((newPart, _)) => ParseRanges(StripPrefix(oldPart, "-"), StripPrefix(newPart, "+"))
  }

  function ParseRanges(before: Option<string>, after: Option<string>): Option<(Range, Range)> {
    if before.None? || after.None? then None
    else
      var b := ParseRange(before.value);
      var a := ParseRange(after.value);
      if b.Some? && a.Some? then Some((b.value, a.value)) else None
  }

  /** How git writes a range; it leaves out a count of one, and may always write it. */
  function RangeText(r: Range, implicit: bool): string {
    if implicit then Decimal(r.start) else Decimal(r.start) + "," + Decimal(r.lines)
  }

  predicate IsRangeText(s: string) {
    forall c | c in s :: IsDigit(c) || c == '-' || c == ','
  }

  lemma RangeIsRangeText(r: Range, implicit: bool)
    ensures IsRangeText(RangeText(r, implicit))
  {
    DecimalIsPlain(r.start);
    DecimalIsPlain(r.lines);
  }

  lemma RangeRoundTrip(r: Range, implicit: bool)
    requires implicit ==> r.lines == 1
    ensures ParseRange(RangeText(r, implicit)) == Some(r)
  {
    DecimalRoundTrip(r.start);
    DecimalIsPlain(r.start);
    if implicit {
      NoSplit(Decimal(r.start), ',');
    } else {
      DecimalRoundTrip(r.lines);
      SplitsAtFirst(Decimal(r.start), ',', Decimal(r.lines));
    }
  }

  /** What git may write after the ranges is free text, the name of the enclosing function say. */
  datatype Header = Header(before: Range, after: Range, implicitBefore: bool, implicitAfter: bool, trailer: string)

  predicate WellFormed(h: Header) {
    && (h.implicitBefore ==> h.before.lines == 1)
    && (h.implicitAfter ==> h.after.lines == 1)
    && '\n' !in h.trailer
  }

  function RangesText(h: Header): string {
    "@@ " + ("-" + RangeText(h.before, h.implicitBefore)) + [' '] + ("+" + RangeText(h.after, h.implicitAfter)) + [' ']
  }

  function HeaderText(h: Header): string {
    RangesText(h) + ("@@" + h.trailer)
  }

  lemma HeaderSplits(before: string, after: string, trailer: string)
    requires ' ' !in before && ' ' !in after
    ensures ParseHunkHeader("@@ " + (before + [' '] + (after + [' '] + trailer)))
         == ParseRanges(StripPrefix(before, "-"), StripPrefix(after, "+"))
  {
    PrefixIsStripped("@@ ", before + [' '] + (after + [' '] + trailer));
    SplitsAtFirst(before, ' ', after + [' '] + trailer);
    SplitsAtFirst(after, ' ', trailer);
  }

  lemma PrefixIsStripped(prefix: string, s: string)
    ensures StripPrefix(prefix + s, prefix) == Some(s)
  {
    assert (prefix + s)[|prefix|..] == s;
  }

  lemma HeaderGroups(start: string, before: string, after: string, trailer: string)
    ensures start + before + [' '] + after + [' '] + trailer == start + (before + [' '] + (after + [' '] + trailer))
  {
  }

  lemma HeaderRoundTrip(h: Header)
    requires WellFormed(h)
    ensures ParseHunkHeader(HeaderText(h)) == Some((h.before, h.after))
  {
    var before := RangeText(h.before, h.implicitBefore);
    var after := RangeText(h.after, h.implicitAfter);
    RangeRoundTrip(h.before, h.implicitBefore);
    RangeRoundTrip(h.after, h.implicitAfter);
    RangeIsRangeText(h.before, h.implicitBefore);
    RangeIsRangeText(h.after, h.implicitAfter);
    PrefixIsStripped("-", before);
    PrefixIsStripped("+", after);
    HeaderSplits("-" + before, "+" + after, "@@" + h.trailer);
    HeaderGroups("@@ ", "-" + before, "+" + after, "@@" + h.trailer);
  }

  // ---------- which lines are headers ----------

  /** The text of a number, as `parse::<i32>` takes it: signed or not, and in range. */
  ghost predicate Numeral(s: string, n: int) {
    exists digits: string ::
      && digits != "" && AllDigits(digits) && I32_MIN <= n <= I32_MAX
      && (((s == digits || s == "+" + digits) && n == DigitsValue(digits))
          || (s == "-" + digits && n == 0 - DigitsValue(digits)))
  }

  /** One number, or two with a comma between them. */
  ghost predicate RangeOf(s: string, r: Range) {
    || (Numeral(s, r.start) && r.lines == 1)
    || exists start, lines :: s == start + [','] + lines && Numeral(start, r.start) && Numeral(lines, r.lines)
  }

  function Written(before: string, after: string, trailer: string): string {
    "@@ " + (("-" + before) + [' '] + (("+" + after) + [' '] + trailer))
  }

  /** `@@ -`, a range, ` +`, a range, and a space. */
  ghost predicate HeaderOf(line: string, before: Range, after: Range) {
    exists b, a, trailer :: line == Written(b, a, trailer) && RangeOf(b, before) && RangeOf(a, after)
  }

  lemma ParseI32Exactly(s: string, n: i32)
    ensures ParseI32(s) == Some(n) <==> Numeral(s, n)
  {
    if ParseI32(s) == Some(n) {
      var digits := if s[0] == '-' || s[0] == '+' then s[1..] else s;
      assert s == [s[0]] + s[1..];
      assert digits != "" && AllDigits(digits);
    }
    if Numeral(s, n) {
      var digits: string :| digits != "" && AllDigits(digits)
        && (((s == digits || s == "+" + digits) && n == DigitsValue(digits))
            || (s == "-" + digits && n == 0 - DigitsValue(digits)));
      assert digits[0] in digits;
      assert s != digits ==> s[1..] == digits;
    }
  }

  lemma NumeralIsPlain(s: string, n: int)
    requires Numeral(s, n)
    ensures ' ' !in s && ',' !in s
  {
  }

  lemma ParseRangeExactly(s: string, r: Range)
    ensures ParseRange(s) == Some(r) <==> RangeOf(s, r)
  {
    if ParseRange(s) == Some(r) {
      match SplitOnce(s, ',')
      case None => ParseI32Exactly(s, r.start);
      case Some((start, lines)) =>
        ParseI32Exactly(start, r.start);
        ParseI32Exactly(lines, r.lines);
        assert s == start + [','] + lines;
    }
    if RangeOf(s, r) {
      RangeIsParsed(s, r);
    }
  }

  lemma RangeIsParsed(s: string, r: Range)
    requires RangeOf(s, r)
    ensures ParseRange(s) == Some(r) && ' ' !in s
  {
    if Numeral(s, r.start) && r.lines == 1 {
      NumeralIsPlain(s, r.start);
      NoSplit(s, ',');
      ParseI32Exactly(s, r.start);
    } else {
      var start, lines :| s == start + [','] + lines && Numeral(start, r.start) && Numeral(lines, r.lines);
      NumeralIsPlain(start, r.start);
      NumeralIsPlain(lines, r.lines);
      SplitsAtFirst(start, ',', lines);
      ParseI32Exactly(start, r.start);
      ParseI32Exactly(lines, r.lines);
    }
  }

  /** A line is a header, with two given ranges, exactly if it has the written form. */
  lemma HeadersExactly(line: string, before: Range, after: Range)
    ensures ParseHunkHeader(line) == Some((before, after)) <==> HeaderOf(line, before, after)
  {
    if ParseHunkHeader(line) == Some((before, after)) {
      HeaderHasItsForm(line, before, after);
    }
    if HeaderOf(line, before, after) {
      var b, a, trailer :| line == Written(b, a, trailer) && RangeOf(b, before) && RangeOf(a, after);
      RangeIsParsed(b, before);
      RangeIsParsed(a, after);
      PrefixIsStripped("-", b);
      PrefixIsStripped("+", a);
      HeaderSplits("-" + b, "+" + a, trailer);
    }
  }

  lemma HeaderHasItsForm(line: string, before: Range, after: Range)
    requires ParseHunkHeader(line) == Some((before, after))
    ensures HeaderOf(line, before, after)
  {
    var rest := StripPrefix(line, "@@ ").value;
    var (oldPart, rest2) := SplitOnce(rest, ' ').value;
    var (newPart, trailer) := SplitOnce(rest2, ' ').value;
    var b, a := StripPrefix(oldPart, "-").value, StripPrefix(newPart, "+").value;
    ParseRangeExactly(b, before);
    ParseRangeExactly(a, after);
    PrefixAndRest(line, "@@ ", rest);
    PrefixAndRest(oldPart, "-", b);
    PrefixAndRest(newPart, "+", a);
    SplitJoins(rest, ' ', oldPart, rest2);
    SplitJoins(rest2, ' ', newPart, trailer);
    assert line == Written(b, a, trailer);
  }

  lemma PrefixAndRest(s: string, prefix: string, rest: string)
    requires StripPrefix(s, prefix) == Some(rest)
    ensures s == prefix + rest
  {
  }

  lemma SplitJoins(s: string, c: char, front: string, back: string)
    requires SplitOnce(s, c) == Some((front, back))
    ensures s == front + ([c] + back) && s == front + [c] + back
  {
  }

  /** No line of a hunk, and nothing else that does not begin as a header does, is taken for one. */
  lemma HeadersBeginAsSuch(line: string)
    ensures ParseHunkHeader(line).Some? ==> "@@ -" <= line
  {
    if ParseHunkHeader(line).Some? {
      var rest := StripPrefix(line, "@@ ").value;
      var (oldPart, rest2) := SplitOnce(rest, ' ').value;
      PrefixAndRest(line, "@@ ", rest);
      PrefixAndRest(oldPart, "-", StripPrefix(oldPart, "-").value);
      SplitJoins(rest, ' ', oldPart, rest2);
      assert line[..3] == "@@ " && line[3] == '-';
    }
  }

  // ---------- lines ----------

  function Unlines(lines: seq<string>): string {
    if lines == [] then "" else lines[0] + ['\n'] + Unlines(lines[1..])
  }

  predicate NewlineFree(lines: seq<string>) {
    forall l | l in lines :: '\n' !in l
  }

  /** The lines as `str::lines` yields them, without a carriage return at their ends. */
  function Stripped(lines: seq<string>): seq<string> {
    if lines == [] then [] else [StripReturn(lines[0])] + Stripped(lines[1..])
  }

  lemma {:induction false} LinesOfText(lines: seq<string>, rest: string)
    requires NewlineFree(lines)
    ensures Lines(Unlines(lines) + rest) == Stripped(lines) + Lines(rest)
  {
    if lines == [] {
      assert Unlines(lines) + rest == rest && Stripped(lines) + Lines(rest) == Lines(rest);
    } else {
      assert lines[0] in lines && forall l | l in lines[1..] :: l in lines;
      LinesOfText(lines[1..], rest);
      FirstOfMore(lines[0], Unlines(lines[1..]), rest);
      Regroup([StripReturn(lines[0])], Stripped(lines[1..]), Lines(rest));
    }
  }

  /** A carriage return before the newline is no part of the line. */
  lemma LineIsReadWithReturn(line: string, rest: string)
    requires '\n' !in line
    ensures Lines(line + ['\r'] + ['\n'] + rest) == [line] + Lines(rest)
  {
    FirstLine(line + ['\r'], rest);
  }

  /** A last line without a newline is a line all the same, and keeps its carriage return. */
  lemma LastLineNeedsNoNewline(lines: seq<string>, last: string)
    requires NewlineFree(lines) && last != "" && '\n' !in last
    ensures Lines(Unlines(lines) + last) == Stripped(lines) + [last]
  {
    LinesOfText(lines, last);
    NoSplit(last, '\n');
  }

  // ---------- hunks ----------

  datatype Hunk = Hunk(before: Range, after: Range, body: string)

  /** The finished hunks and the one being filled. */
  datatype Reading = Reading(hunks: seq<Hunk>, current: Option<Hunk>)

  function Close(r: Reading): seq<Hunk> {
    r.hunks + (if r.current.Some? then [r.current.value] else [])
  }

  function AddLine(body: string, line: string): string {
    (if body != "" then body + ['\n'] else body) + line
  }

  function Feed(r: Reading, line: string): Reading {
    match ParseHunkHeader(line)
    case Some((before, after)) => Reading(Close(r), Some(Hunk(before, after, "")))
    case None =>
      match r.current
      case None => r
      case Some(h) => r.(current := Some(h.(body := AddLine(h.body, line))))
  }

  function FeedAll(r: Reading, lines: seq<string>): Reading
    decreases |lines|
  {
    if lines == [] then r else FeedAll(Feed(r, lines[0]), lines[1..])
  }

  const NOTHING: Reading := Reading([], None)

  function Hunks(text: string): seq<Hunk> {
    Close(FeedAll(NOTHING, Lines(text)))
  }

  method ParseHunks(body: string) returns (hunks: seq<Hunk>)
    ensures hunks == Hunks(body)
  {
    hunks := [];
    var current: Option<Hunk> := None;
    var lines := Lines(body);
    var i := 0;
    while i < |lines|
      invariant 0 <= i <= |lines|
      invariant FeedAll(Reading(hunks, current), lines[i..]) == FeedAll(NOTHING, lines)
    {
      var line := lines[i];
      assert lines[i..][0] == line && lines[i..][1..] == lines[i + 1..];
      ghost var before := Reading(hunks, current);
      var header := ParseHunkHeader(line);
      if header.Some? {
        if current.Some? {
          hunks := hunks + [current.value];
        }
        current := Some(Hunk(header.value.0, header.value.1, ""));
      } else if current.Some? {
        var text := current.value.body;
        if text != "" {
          text := text + ['\n'];
        }
        current := Some(current.value.(body := text + line));
      }
      assert Reading(hunks, current) == Feed(before, line);
      i := i + 1;
    }
    if current.Some? {
      hunks := hunks + [current.value];
    }
  }

  lemma {:induction false} FeedAppend(r: Reading, a: seq<string>, b: seq<string>)
    ensures FeedAll(r, a + b) == FeedAll(FeedAll(r, a), b)
    decreases |a|
  {
    if a == [] {
      assert a + b == b;
    } else {
      assert (a + b)[1..] == a[1..] + b;
      FeedAppend(Feed(r, a[0]), a[1..], b);
    }
  }

  /** None of the lines has the written form of a header. */
  ghost predicate NoHeaders(lines: seq<string>) {
    forall l, before, after | l in lines :: !HeaderOf(l, before, after)
  }

  lemma NotAHeader(lines: seq<string>)
    requires NoHeaders(lines) && lines != []
    ensures ParseHunkHeader(lines[0]) == None && NoHeaders(lines[1..])
  {
    match ParseHunkHeader(lines[0])
    case None =>
    case Some((before, after)) => HeadersExactly(lines[0], before, after);
  }

  /** Lines of a hunk, and the lines of a file's preamble, are no headers. */
  lemma PlainLinesAreNoHeaders(lines: seq<string>)
    requires forall l | l in lines :: !("@@ -" <= l)
    ensures NoHeaders(lines)
  {
    forall l, before, after | l in lines ensures !HeaderOf(l, before, after) {
      HeadersBeginAsSuch(l);
      HeadersExactly(l, before, after);
    }
  }

  lemma {:induction false} PreambleIsDropped(lines: seq<string>)
    requires NoHeaders(lines)
    ensures FeedAll(NOTHING, lines) == NOTHING
  {
    if lines != [] {
      NotAHeader(lines);
      PreambleIsDropped(lines[1..]);
    }
  }

  // ---------- bodies ----------

  function Joined(lines: seq<string>): string {
    if lines == [] then "" else if |lines| == 1 then lines[0] else lines[0] + ['\n'] + Joined(lines[1..])
  }

  /** The parser puts a newline only behind a body that is not empty, so leading empty lines vanish. */
  function DropEmpty(lines: seq<string>): seq<string> {
    if lines != [] && lines[0] == "" then DropEmpty(lines[1..]) else lines
  }

  function BodyFrom(body: string, lines: seq<string>): string
    decreases |lines|
  {
    if lines == [] then body else BodyFrom(AddLine(body, lines[0]), lines[1..])
  }

  lemma {:induction false} FeedBody(r: Reading, lines: seq<string>)
    requires NoHeaders(lines) && r.current.Some?
    ensures FeedAll(r, lines) == r.(current := Some(r.current.value.(body := BodyFrom(r.current.value.body, lines))))
    decreases |lines|
  {
    if lines != [] {
      NotAHeader(lines);
      FeedBody(Feed(r, lines[0]), lines[1..]);
    }
  }

  lemma {:induction false} BodyGrows(body: string, lines: seq<string>)
    requires body != "" && lines != []
    ensures BodyFrom(body, lines) == body + ['\n'] + Joined(lines)
    decreases |lines|
  {
    var next := body + ['\n'] + lines[0];
    assert AddLine(body, lines[0]) == next;
    if |lines| > 1 {
      BodyGrows(next, lines[1..]);
      assert next + ['\n'] + Joined(lines[1..]) == body + ['\n'] + (lines[0] + ['\n'] + Joined(lines[1..]));
    } else {
      assert lines[1..] == [];
    }
  }

  lemma {:induction false} BodyIsJoined(lines: seq<string>)
    ensures BodyFrom("", lines) == Joined(DropEmpty(lines))
  {
    if lines != [] {
      assert AddLine("", lines[0]) == lines[0];
      if lines[0] == "" {
        BodyIsJoined(lines[1..]);
      } else if |lines| > 1 {
        BodyGrows(lines[0], lines[1..]);
      } else {
        assert lines[1..] == [];
      }
    }
  }

  predicate StartsFilled(lines: seq<string>) {
    |lines| <= 1 || lines[0] != ""
  }

  predicate NoReturns(lines: seq<string>) {
    lines == [] || (StripReturn(lines[0]) == lines[0] && NoReturns(lines[1..]))
  }

  lemma {:induction false} NothingToStrip(lines: seq<string>)
    requires NoReturns(lines)
    ensures Stripped(lines) == lines
  {
    if lines != [] {
      NothingToStrip(lines[1..]);
    }
  }

  /** Every carriage return stripped makes the text shorter. */
  lemma {:induction false} StrippedIsShorter(lines: seq<string>)
    ensures |Stripped(lines)| == |lines|
    ensures |Joined(Stripped(lines))| <= |Joined(lines)|
    ensures !NoReturns(lines) ==> |Joined(Stripped(lines))| < |Joined(lines)|
  {
    if lines != [] {
      StrippedIsShorter(lines[1..]);
      var s := Stripped(lines);
      assert s[0] == StripReturn(lines[0]) && s[1..] == Stripped(lines[1..]);
      if |lines| == 1 {
        assert lines[1..] == [];
      }
    }
  }

  lemma {:induction false} DropIsShorter(lines: seq<string>)
    ensures |Joined(DropEmpty(lines))| <= |Joined(lines)|
  {
    if lines != [] {
      DropIsShorter(lines[1..]);
    }
  }

  /**
   The body is the section's own lines joined by newlines exactly if no line ends in a carriage return
   and the first is not empty, or is the only one.
   */
  lemma BodyIsExact(lines: seq<string>)
    requires NewlineFree(lines)
    ensures Joined(DropEmpty(Stripped(lines))) == Joined(lines) <==> NoReturns(lines) && StartsFilled(lines)
  {
    if !NoReturns(lines) {
      StrippedIsShorter(lines);
      DropIsShorter(Stripped(lines));
    } else {
      NothingToStrip(lines);
      if StartsFilled(lines) {
        if lines == [""] {
          assert lines[1..] == [];
        }
      } else {
        FirstOfJoined(lines);
        assert Joined(lines)[0] == '\n';
      }
    }
  }

  lemma {:induction false} FirstOfJoined(lines: seq<string>)
    requires NewlineFree(lines)
    ensures Joined(DropEmpty(lines)) == "" || Joined(DropEmpty(lines))[0] != '\n'
  {
    if lines != [] {
      assert lines[0] in lines && forall l | l in lines[1..] :: l in lines;
      FirstOfJoined(lines[1..]);
    }
  }

  // ---------- a whole diff ----------

  /** The lines of a section may end in carriage returns, as those of a file with such endings do. */
  datatype Section = Section(header: Header, lines: seq<string>)

  ghost predicate WellFormedSection(s: Section) {
    WellFormed(s.header) && NewlineFree(s.lines) && NoHeaders(Stripped(s.lines))
  }

  function SectionLines(s: Section): seq<string> {
    [HeaderText(s.header)] + s.lines
  }

  function AllLines(sections: seq<Section>): seq<string> {
    if sections == [] then [] else SectionLines(sections[0]) + AllLines(sections[1..])
  }

  function Meant(s: Section): Hunk {
    Hunk(s.header.before, s.header.after, Joined(DropEmpty(Stripped(s.lines))))
  }

  function AllMeant(sections: seq<Section>): seq<Hunk> {
    if sections == [] then [] else [Meant(sections[0])] + AllMeant(sections[1..])
  }

  ghost predicate AllWellFormed(sections: seq<Section>) {
    forall s | s in sections :: WellFormedSection(s)
  }

  /** A carriage return behind the header belongs to its trailer. */
  lemma StrippedHeader(h: Header)
    requires WellFormed(h)
    ensures ParseHunkHeader(StripReturn(HeaderText(h))) == Some((h.before, h.after))
    ensures '\n' !in HeaderText(h)
  {
    HeaderRoundTrip(h.(trailer := StripReturn(h.trailer)));
    StripBehind("@@", h.trailer);
    StripBehind(RangesText(h), "@@" + h.trailer);
    RangesAreNewlineFree(h);
  }

  lemma RangesAreNewlineFree(h: Header)
    ensures '\n' !in RangesText(h)
  {
    var before, after := "-" + RangeText(h.before, h.implicitBefore), "+" + RangeText(h.after, h.implicitAfter);
    RangeIsRangeText(h.before, h.implicitBefore);
    RangeIsRangeText(h.after, h.implicitAfter);
    NewlineInNeither("@@ ", before);
    NewlineInNeither("@@ " + before, [' ']);
    NewlineInNeither("@@ " + before + [' '], after);
    NewlineInNeither("@@ " + before + [' '] + after, [' ']);
  }

  lemma NewlineInNeither(a: string, b: string)
    requires '\n' !in a && '\n' !in b
    ensures '\n' !in a + b
  {
  }

  lemma StripBehind(front: string, back: string)
    requires back != "" || (front != "" && front[|front| - 1] != '\r')
    ensures StripReturn(front + back) == front + StripReturn(back)
  {
  }

  lemma {:induction false} StrippedAppend(a: seq<string>, b: seq<string>)
    ensures Stripped(a + b) == Stripped(a) + Stripped(b)
  {
    if a == [] {
      assert a + b == b;
    } else {
      assert (a + b)[1..] == a[1..] + b;
      StrippedAppend(a[1..], b);
      Regroup([StripReturn(a[0])], Stripped(a[1..]), Stripped(b));
    }
  }

  lemma FeedSection(r: Reading, s: Section)
    requires WellFormedSection(s)
    ensures FeedAll(r, Stripped(SectionLines(s))) == Reading(Close(r), Some(Meant(s)))
  {
    StrippedHeader(s.header);
    assert SectionLines(s)[1..] == s.lines;
    assert Stripped(SectionLines(s))[1..] == Stripped(s.lines);
    BodyIsJoined(Stripped(s.lines));
    FeedBody(Reading(Close(r), Some(Hunk(s.header.before, s.header.after, ""))), Stripped(s.lines));
  }

  lemma {:induction false} FeedSections(r: Reading, sections: seq<Section>)
    requires AllWellFormed(sections)
    ensures Close(FeedAll(r, Stripped(AllLines(sections)))) == Close(r) + AllMeant(sections)
    decreases |sections|
  {
    if sections != [] {
      var s := sections[0];
      assert s in sections && forall t | t in sections[1..] :: t in sections;
      StrippedAppend(SectionLines(s), AllLines(sections[1..]));
      FeedAppend(r, Stripped(SectionLines(s)), Stripped(AllLines(sections[1..])));
      FeedSection(r, s);
      FeedSections(Reading(Close(r), Some(Meant(s))), sections[1..]);
      Regroup(Close(r), [Meant(s)], AllMeant(sections[1..]));
    }
  }

  lemma {:induction false} LinesAreNewlineFree(sections: seq<Section>)
    requires AllWellFormed(sections)
    ensures NewlineFree(AllLines(sections))
  {
    if sections != [] {
      assert sections[0] in sections && forall t | t in sections[1..] :: t in sections;
      assert WellFormedSection(sections[0]);
      StrippedHeader(sections[0].header);
      LinesAreNewlineFree(sections[1..]);
    }
  }

  lemma DiffIsRead(preamble: seq<string>, sections: seq<Section>)
    requires NewlineFree(preamble) && NoHeaders(Stripped(preamble)) && AllWellFormed(sections)
    ensures Hunks(Unlines(preamble + AllLines(sections))) == AllMeant(sections)
  {
    var lines := preamble + AllLines(sections);
    LinesAreNewlineFree(sections);
    LinesOfText(lines, "");
    assert Unlines(lines) + "" == Unlines(lines) && Stripped(lines) + Lines("") == Stripped(lines);
    StrippedAppend(preamble, AllLines(sections));
    FeedAppend(NOTHING, Stripped(preamble), Stripped(AllLines(sections)));
    PreambleIsDropped(Stripped(preamble));
    FeedSections(NOTHING, sections);
  }

  /**
   For every preamble and every list of sections in which no line has the written form of a header, with
   line endings of either kind, parsing the diff gives one hunk a section, with its ranges and the
   lines that `str::lines` yields; the preamble leaves no trace. A body is the section's own lines if
   and only if no line ends in a carriage return and the first is not empty, or is the only one.
   */
  lemma ParsingInvertsText(preamble: seq<string>, sections: seq<Section>)
    requires NewlineFree(preamble) && NoHeaders(Stripped(preamble)) && AllWellFormed(sections)
    ensures var hunks := Hunks(Unlines(preamble + AllLines(sections)));
      && hunks == AllMeant(sections) && |hunks| == |sections|
      && forall i | 0 <= i < |sections| ::
           && hunks[i] == Meant(sections[i])
           && (hunks[i].body == Joined(sections[i].lines)
               <==> NoReturns(sections[i].lines) && StartsFilled(sections[i].lines))
  {
    DiffIsRead(preamble, sections);
    EachIsMeant(sections);
    forall i | 0 <= i < |sections|
      ensures Meant(sections[i]).body == Joined(sections[i].lines)
         <==> NoReturns(sections[i].lines) && StartsFilled(sections[i].lines)
    {
      assert sections[i] in sections;
      BodyIsExact(sections[i].lines);
    }
  }

  lemma {:induction false} EachIsMeant(sections: seq<Section>)
    ensures |AllMeant(sections)| == |sections|
    ensures forall i | 0 <= i < |sections| :: AllMeant(sections)[i] == Meant(sections[i])
  {
    if sections != [] {
      EachIsMeant(sections[1..]);
    }
  }
}
