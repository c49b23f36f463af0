/** Debdiffs: the section parser, the filter for boring changes and its printer. */
module Debdiff {
  import opened Common

  // ----- Text and lines

  predicate NewlineFree(lines: seq<string>) {
    forall i :: 0 <= i < |lines| ==> '\n' !in lines[i]
  }

  function FirstIndex(text: string, c: char): (i: nat)
    requires c in text
    ensures i < |text| && text[i] == c && c !in text[..i]
  {
    if text[0] == c then 0 else
      var i := FirstIndex(text[1..], c);
      assert text[..i + 1] == [text[0]] + text[1..][..i];
      i + 1
  }

  lemma {:induction false} FirstIndexIs(text: string, c: char, i: nat)
    requires i < |text| && text[i] == c && c !in text[..i]
    ensures FirstIndex(text, c) == i
  {
    if i > 0 {
      assert text[0] == text[..i][0] && text[..i] == [text[0]] + text[1..][..i - 1];
      FirstIndexIs(text[1..], c, i - 1);
    }
  }

  /** Splitting at newlines, where a final one ends the last line. */
  function Lines(text: string): (lines: seq<string>)
    ensures NewlineFree(lines)
  {
    if text == "" then []
    else if '\n' !in text then [text]
    else var i := FirstIndex(text, '\n'); [text[..i]] + Lines(text[i + 1..])
  }

  function Join(lines: seq<string>): string {
    if lines == [] then "" else if |lines| == 1 then lines[0] else lines[0] + "\n" + Join(lines[1..])
  }

  /** Joining with a last empty line and splitting gives the lines back. */
  lemma {:induction false} LinesOfJoin(lines: seq<string>)
    requires NewlineFree(lines)
    ensures Lines(Join(lines + [""])) == lines
  {
    if lines == [] {
      assert [] + [""] == [""];
    } else {
      var text, rest := Join(lines + [""]), Join(lines[1..] + [""]);
      assert (lines + [""])[1..] == lines[1..] + [""];
      assert text == lines[0] + "\n" + rest;
      LinesOfJoin(lines[1..]);
      assert text[|lines[0]|] == '\n' && text[..|lines[0]|] == lines[0];
      FirstIndexIs(text, '\n', |lines[0]|);
      assert text[|lines[0]| + 1..] == rest;
    }
  }

  predicate White(c: char) {
    var n := c as int;
    9 <= n <= 13 || n in {0x20, 0x85, 0xA0, 0x1680, 0x2028, 0x2029, 0x202F, 0x205F, 0x3000} || 0x2000 <= n <= 0x200A
  }

  /** All of Unicode's white space. */
  lemma WhiteIs(c: char)
    ensures White(c) <==> (c as int) in {
      9, 10, 11, 12, 13, 32, 0x85, 0xA0, 0x1680, 0x2000, 0x2001, 0x2002, 0x2003, 0x2004, 0x2005, 0x2006, 0x2007, 0x2008, 0x2009, 0x200A,
      0x2028, 0x2029, 0x202F, 0x205F, 0x3000}
  {
  }

  predicate Blank(line: string) {
    forall i :: 0 <= i < |line| ==> White(line[i])
  }

  function Utf8Width(c: char): nat {
    var n := c as int;
    if n < 0x80 then 1 else if n < 0x800 then 2 else if n < 0x1_0000 then 3 else 4
  }

  /** The length in bytes. */
  function Length(line: string): (n: nat)
    ensures n >= |line|
  {
    if line == "" then 0 else Utf8Width(line[0]) + Length(line[1..])
  }

  function Dashes(line: string): (dashes: string)
    ensures dashes == "" <==> line == ""
    ensures '\n' !in dashes
    ensures forall i :: 0 <= i < |dashes| ==> dashes[i] == '-'
  {
    seq(Length(line), _ => '-')
  }

  /** A dash for each byte: one for an ASCII character, and up to four for others. */
  lemma {:induction false} DashesPerCharacter(line: string)
    ensures (forall i :: 0 <= i < |line| ==> (line[i] as int) < 0x80) ==> |Dashes(line)| == |line|
    ensures line != "" ==> |Dashes(line)| == |Dashes([line[0]])| + |Dashes(line[1..])|
    ensures forall c: char :: |Dashes([c])| == if (c as int) < 0x80 then 1 else if (c as int) < 0x800 then 2 else if (c as int) < 0x1_0000 then 3 else 4
  {
    forall c: char
      ensures |Dashes([c])| == if (c as int) < 0x80 then 1 else if (c as int) < 0x800 then 2 else if (c as int) < 0x1_0000 then 3 else 4
    {
      assert [c][1..] == "" && Length("") == 0;
      assert Length([c]) == Utf8Width([c][0]) + Length([c][1..]);
    }
    if line != "" { DashesPerCharacter(line[1..]); }
  }

  // ----- Sections

  datatype Section = Section(title: Option<string>, lines: seq<string>)

  function Flush(title: Option<string>, paragraph: seq<string>): seq<Section> {
    if title.Some? || paragraph != [] then [Section(title, paragraph)] else []
  }

  predicate Underlined(lines: seq<string>, i: nat) {
    i + 1 < |lines| && lines[i + 1] == Dashes(lines[i])
  }

  /** The sections of the remaining lines, when one is open. */
  function Parse(lines: seq<string>, title: Option<string>, paragraph: seq<string>): seq<Section>
    decreases |lines|
  {
    if lines == [] then Flush(title, paragraph)
    else if Underlined(lines, 0) then Flush(title, paragraph) + Parse(lines[2..], Some(lines[0]), [])
    else if Blank(lines[0]) then Flush(title, paragraph) + Parse(lines[1..], None, [])
    else Parse(lines[1..], title, paragraph + [lines[0]])
  }

  function Sections(text: string): seq<Section> {
    Parse(Lines(text), None, [])
  }

  /** What one line does. */
  lemma ParseStep(lines: seq<string>, i: nat, title: Option<string>, paragraph: seq<string>)
    requires i < |lines|
    ensures Underlined(lines, i) ==>
      Parse(lines[i..], title, paragraph) == Flush(title, paragraph) + Parse(lines[i + 2..], Some(lines[i]), [])
    ensures !Underlined(lines, i) ==>
      Parse(lines[i..], title, paragraph)
        == if Blank(lines[i]) then Flush(title, paragraph) + Parse(lines[i + 1..], None, [])
           else Parse(lines[i + 1..], title, paragraph + [lines[i]])
  {
    hide Blank, Dashes, Flush;
    var rest := lines[i..];
    assert rest[0] == lines[i] && rest[1..] == lines[i + 1..];
    assert Underlined(rest, 0) <==> Underlined(lines, i);
    if Underlined(lines, i) { assert rest[2..] == lines[i + 2..]; }
  }

  method IterSections(text: string) returns (ret: seq<Section>)
    ensures ret == Sections(text)
  {
    hide Parse, Lines, Blank, Dashes, Flush, Sections;
    var lines := Lines(text);
    var title, paragraph := None, [];
    ret := [];
    var i := 0;
    assert [] + Parse(lines[0..], None, []) == Sections(text) by { Start(text); }
    while i < |lines|
      invariant 0 <= i <= |lines|
      invariant ret + Parse(lines[i..], title, paragraph) == Sections(text)
    {
      var line := lines[i];
      ParseStep(lines, i, title, paragraph);
      if i + 1 < |lines| && lines[i + 1] == Dashes(line) {
        Flushed(ret, title, paragraph, Parse(lines[i + 2..], Some(line), []));
        if title.Some? || paragraph != [] {
          ret := ret + [Section(title, paragraph)];
        }
        title, paragraph := Some(line), [];
        i := i + 1;
      } else if Blank(line) {
        Flushed(ret, title, paragraph, Parse(lines[i + 1..], None, []));
        if title.Some? || paragraph != [] {
          ret := ret + [Section(title, paragraph)];
        }
        title, paragraph := None, [];
      } else {
        paragraph := paragraph + [line];
      }
      i := i + 1;
    }
    assert lines[i..] == [];
    NoLines(title, paragraph);
    Flushed(ret, title, paragraph, []);
    if title.Some? || paragraph != [] {
      ret := ret + [Section(title, paragraph)];
    }
  }

  lemma Start(text: string)
    ensures [] + Parse(Lines(text)[0..], None, []) == Sections(text)
  {
    assert Lines(text)[0..] == Lines(text);
  }

  /** Closing the open section. */
  lemma Flushed(ret: seq<Section>, title: Option<string>, paragraph: seq<string>, more: seq<Section>)
    ensures ret + (Flush(title, paragraph) + more)
      == (if title.Some? || paragraph != [] then ret + [Section(title, paragraph)] else ret) + more
  {
  }

  lemma NoLines(title: Option<string>, paragraph: seq<string>)
    ensures Parse([], title, paragraph) == Flush(title, paragraph) == Flush(title, paragraph) + []
  {
  }

  // ----- The printer

  function SectionLines(s: Section): seq<string> {
    (if s.title.Some? then [s.title.value, Dashes(s.title.value)] else []) + s.lines
  }

  /** Each section followed by an empty line. */
  function PrintedLines(sections: seq<Section>): seq<string> {
    if sections == [] then [] else SectionLines(sections[0]) + [""] + PrintedLines(sections[1..])
  }

  function Print(sections: seq<Section>): string {
    Join(PrintedLines(sections))
  }

  // ----- Printing and parsing again

  predicate Plain(lines: seq<string>) {
    forall i: nat :: i < |lines| ==> !Blank(lines[i]) && !Underlined(lines, i)
  }

  predicate NoNewline(s: Section) {
    NewlineFree(s.lines) && (s.title.Some? ==> '\n' !in s.title.value)
  }

  /** What the parser makes. */
  predicate Proper(s: Section) {
    && Plain(s.lines) && NoNewline(s)
    && (s.title.None? ==> s.lines != [])
  }

  predicate AllProper(sections: seq<Section>) {
    forall i :: 0 <= i < |sections| ==> Proper(sections[i])
  }

  lemma {:induction false} ParseProper(lines: seq<string>, title: Option<string>, paragraph: seq<string>)
    requires NewlineFree(lines) && NewlineFree(paragraph) && Plain(paragraph)
    requires title.Some? ==> '\n' !in title.value
    requires paragraph != [] && lines != [] ==> lines[0] != Dashes(paragraph[|paragraph| - 1])
    ensures AllProper(Parse(lines, title, paragraph))
    decreases |lines|
  {
    hide Blank, Dashes;
    if lines == [] {
    } else if Underlined(lines, 0) {
      ParseProper(lines[2..], Some(lines[0]), []);
    } else if Blank(lines[0]) {
      ParseProper(lines[1..], None, []);
    } else {
      var more := paragraph + [lines[0]];
      forall i: nat | i < |more| ensures !Blank(more[i]) && !Underlined(more, i) {
        if i < |paragraph| { assert !Underlined(paragraph, i); }
      }
      assert lines[1..] != [] ==> lines[1..][0] == lines[1];
      ParseProper(lines[1..], title, more);
    }
  }

  lemma SectionsProper(text: string)
    ensures AllProper(Sections(text))
  {
    ParseProper(Lines(text), None, []);
  }

  /** The lines of a paragraph are read into it, up to an empty line or the end. */
  lemma {:induction false} ReadParagraph(lines: seq<string>, rest: seq<string>, title: Option<string>, paragraph: seq<string>)
    requires Plain(lines) && (rest == [] || rest[0] == "")
    ensures Parse(lines + rest, title, paragraph) == Parse(rest, title, paragraph + lines)
    decreases |lines|
  {
    hide Blank, Dashes;
    if lines == [] {
      assert lines + rest == rest && paragraph + lines == paragraph;
    } else {
      var all := lines + rest;
      assert all[0] == lines[0] && all[1..] == lines[1..] + rest;
      assert !Underlined(all, 0) by {
        assert !Underlined(lines, 0);
        NotEmpty(lines[0]);
      }
      forall i: nat | i < |lines[1..]| ensures !Blank(lines[1..][i]) && !Underlined(lines[1..], i) {
        assert !Underlined(lines, i + 1) && !Blank(lines[i + 1]);
      }
      ReadParagraph(lines[1..], rest, title, paragraph + [lines[0]]);
      assert paragraph + [lines[0]] + lines[1..] == paragraph + lines;
    }
  }

  lemma NotEmpty(line: string)
    requires !Blank(line)
    ensures line != "" && Dashes(line) != ""
  {
  }

  lemma EmptyIsBlank()
    ensures Blank("") && Dashes("") == ""
  {
  }

  /** What a section's own lines do. */
  lemma ReadSection(s: Section, rest: seq<string>, title: Option<string>, paragraph: seq<string>)
    requires Proper(s) && (rest == [] || rest[0] == "")
    ensures Parse(SectionLines(s) + rest, title, paragraph)
      == if s.title.Some? then Flush(title, paragraph) + Parse(rest, s.title, s.lines) else Parse(rest, title, paragraph + s.lines)
  {
    hide Dashes, Blank, Flush;
    var all := SectionLines(s) + rest;
    if s.title.Some? {
      assert Underlined(all, 0);
      assert all[0] == s.title.value && all[2..] == s.lines + rest;
      ReadParagraph(s.lines, rest, s.title, []);
      assert [] + s.lines == s.lines;
    } else {
      assert all == s.lines + rest;
      ReadParagraph(s.lines, rest, title, paragraph);
    }
  }

  /** What an empty line does, which depends on whether another one follows. */
  lemma ReadEmpty(rest: seq<string>, title: Option<string>, paragraph: seq<string>)
    ensures Parse([""] + rest, title, paragraph) == Flush(title, paragraph) +
      if rest != [] && rest[0] == "" then Parse(rest[1..], Some(""), []) else Parse(rest, None, [])
  {
    hide Flush;
    var all := [""] + rest;
    EmptyIsBlank();
    assert all[1..] == rest;
    if rest != [] { assert all[1] == rest[0] && all[2..] == rest[1..]; }
  }

  /** The printed lines without the last one. */
  function Body(sections: seq<Section>): seq<string>
    decreases |sections|, 0
  {
    if sections == [] then [] else SectionLines(sections[0]) + After(sections[1..])
  }

  /** And with an empty line before each section. */
  function After(sections: seq<Section>): (lines: seq<string>)
    ensures lines == [] || lines[0] == ""
    decreases |sections|, 1
  {
    if sections == [] then [] else [""] + Body(sections)
  }

  lemma {:induction false} PrintedBody(sections: seq<Section>)
    requires sections != []
    ensures PrintedLines(sections) == Body(sections) + [""]
  {
    if |sections| == 1 {
      assert PrintedLines(sections[1..]) == [];
    } else {
      PrintedBody(sections[1..]);
    }
  }

  lemma {:induction false} BodyNewlineFree(sections: seq<Section>)
    requires forall i :: 0 <= i < |sections| ==> NoNewline(sections[i])
    ensures NewlineFree(Body(sections))
  {
    if sections != [] {
      BodyNewlineFree(sections[1..]);
      assert NewlineFree(SectionLines(sections[0]));
    }
  }

  predicate EmptyTitle(s: Section) {
    s.title == Some("")
  }

  lemma UntitledHasLines(s: Section)
    requires Proper(s) && s.title.None?
    ensures s.lines != []
  {
  }

  /** How the lines of a section start. */
  lemma FirstLine(sections: seq<Section>)
    requires sections != [] && Proper(sections[0])
    ensures Body(sections) != [] && (Body(sections)[0] == "" <==> EmptyTitle(sections[0]))
    ensures EmptyTitle(sections[0]) ==> Body(sections)[1..] == [""] + (sections[0].lines + After(sections[1..]))
  {
    hide Blank, Length, After, Proper, Dashes;
    var s, rest := sections[0], After(sections[1..]);
    if s.title.None? {
      assert s.lines != [] by { UntitledHasLines(s); }
      NotEmptyLine(s);
      assert Body(sections)[0] == s.lines[0];
    } else {
      var t := s.title.value;
      assert Body(sections) == [t] + ([Dashes(t)] + (s.lines + rest));
    }
  }

  /** Nothing but a last section without lines may have an empty title, besides the first. */
  predicate GoodTitles(sections: seq<Section>) {
    forall i :: 1 <= i < |sections| && EmptyTitle(sections[i]) ==> i == |sections| - 1 && sections[i].lines == []
  }

  lemma {:induction false} ParseBody(sections: seq<Section>)
    requires AllProper(sections) && GoodTitles(sections)
    ensures Parse(Body(sections), None, []) == sections
  {
    hide Plain, Dashes, NewlineFree, Parse;
    NoLines(None, []);
    if sections != [] {
      var s, tail := sections[0], sections[1..];
      ReadSection(s, After(tail), None, []);
      NoLines(s.title, s.lines);
      assert [] + s.lines == s.lines;
      assert Flush(s.title, s.lines) == [s];
      assert sections == [s] + tail;
      if tail != [] {
        assert tail[0] == sections[1];
        ReadEmpty(Body(tail), s.title, s.lines);
        FirstLine(tail);
        if EmptyTitle(tail[0]) {
          assert tail == [Section(Some(""), [])];
          assert Body(tail)[1..] == [""] + [];
          ReadEmpty([], Some(""), []);
        } else {
          ParseBody(tail);
        }
      }
    }
  }

  function IsOpen(title: Option<string>, paragraph: seq<string>): nat {
    if title.Some? || paragraph != [] then 1 else 0
  }

  /** Parsing printed sections never gives fewer, and one more when a section was open
      and the first of them has a title. */
  lemma {:induction false} CountBody(sections: seq<Section>, title: Option<string>, paragraph: seq<string>)
    requires AllProper(sections)
    ensures |Parse(Body(sections), title, paragraph)|
      >= |sections| + if sections == [] || sections[0].title.Some? then IsOpen(title, paragraph) else 0
    decreases |sections|, 0
  {
    hide Plain, Dashes, NewlineFree, Parse;
    NoLines(title, paragraph);
    if sections != [] {
      var s, tail := sections[0], sections[1..];
      ReadSection(s, After(tail), title, paragraph);
      var t, p := if s.title.Some? then s.title else title, if s.title.Some? then s.lines else paragraph + s.lines;
      NoLines(t, p);
      if tail != [] { CountAfter(tail, t, p); }
    }
  }

  lemma {:induction false} CountAfter(sections: seq<Section>, title: Option<string>, paragraph: seq<string>)
    requires AllProper(sections) && sections != []
    ensures |Parse(After(sections), title, paragraph)| >= |sections| + IsOpen(title, paragraph)
    decreases |sections|, 1
  {
    hide Dashes, NewlineFree, Parse, Blank;
    var s, tail := sections[0], sections[1..];
    ReadEmpty(Body(sections), title, paragraph);
    FirstLine(sections);
    if !EmptyTitle(s) {
      CountBody(sections, None, []);
    } else {
      ReadEmpty(s.lines + After(tail), Some(""), []);
      NoLines(None, s.lines);
      if s.lines != [] {
        NotEmpty(s.lines[0]);
        assert (s.lines + After(tail))[0] == s.lines[0];
        ReadParagraph(s.lines, After(tail), None, []);
        assert [] + s.lines == s.lines;
        if tail != [] { CountAfter(tail, None, s.lines); }
      } else {
        assert s.lines + After(tail) == After(tail);
        if tail != [] { CountBody(tail, Some(""), []); }
      }
    }
  }

  lemma {:induction false} ReadHead(lines: seq<string>, title: string, paragraph: seq<string>)
    ensures
      var sections := Parse(lines, Some(title), paragraph);
      sections != [] && sections[0].title == Some(title) && paragraph <= sections[0].lines
    decreases |lines|
  {
    if lines != [] && !Underlined(lines, 0) && !Blank(lines[0]) {
      ReadHead(lines[1..], title, paragraph + [lines[0]]);
    }
  }

  /** An empty title that is not good does not survive. */
  lemma {:induction false} BadTitles(sections: seq<Section>)
    requires AllProper(sections) && !GoodTitles(sections)
    ensures Parse(Body(sections), None, []) != sections
  {
    hide Dashes, NewlineFree, Parse, Blank, Plain, GoodTitles, Proper;
    BadTail(sections);
    var s, tail := sections[0], sections[1..];
    if s.title.None? { UntitledHasLines(s); }
    assert sections == [s] + tail && tail[0] == sections[1];
    ReadSection(s, After(tail), None, []);
    assert [] + s.lines == s.lines;
    ReadEmpty(Body(tail), s.title, s.lines);
    FirstLine(tail);
    if EmptyTitle(tail[0]) {
      BadSecond(tail);
    } else {
      BadTitles(tail);
    }
  }

  lemma BadTail(sections: seq<Section>)
    requires !GoodTitles(sections)
    ensures |sections| > 1 && if EmptyTitle(sections[1]) then sections[1].lines != [] || |sections| > 2 else !GoodTitles(sections[1..])
  {
    var tail := sections[1..];
    var i :| 1 <= i < |sections| && EmptyTitle(sections[i]) && !(i == |sections| - 1 && sections[i].lines == []);
    assert tail[i - 1] == sections[i];
  }

  /** The empty line before an empty title is taken for the title. */
  lemma BadSecond(tail: seq<Section>)
    requires AllProper(tail) && tail != [] && EmptyTitle(tail[0]) && (tail[0].lines != [] || |tail| > 1)
    ensures Parse([""] + (tail[0].lines + After(tail[1..])), Some(""), []) != tail
  {
    hide Dashes, NewlineFree, Parse, Blank, Plain;
    var e, rest := tail[0], tail[1..];
    ReadEmpty(e.lines + After(rest), Some(""), []);
    if e.lines != [] {
      assert (e.lines + After(rest))[0] == e.lines[0];
      NotEmptyLine(e);
    } else {
      assert e.lines + After(rest) == After(rest) && tail == [e] + rest;
      ReadEmpty(After(rest), Some(""), []);
      TitleTakenOver(rest);
    }
  }

  lemma TitleTakenOver(sections: seq<Section>)
    requires AllProper(sections) && sections != []
    ensures Parse(Body(sections), Some(""), []) != sections
  {
    hide Dashes, NewlineFree, Parse, Blank, Plain;
    CountBody(sections, Some(""), []);
    if sections[0].title.None? {
      ReadSection(sections[0], After(sections[1..]), Some(""), []);
      ReadHead(After(sections[1..]), "", [] + sections[0].lines);
    }
  }

  lemma NotEmptyLine(s: Section)
    requires Proper(s) && s.lines != []
    ensures s.lines[0] != ""
  {
    NotEmpty(s.lines[0]);
  }

  /** Parsing, printing and parsing again gives the same sections if and only if the
      titles are good. */
  lemma RoundTrip(text: string)
    ensures Sections(Print(Sections(text))) == Sections(text) <==> GoodTitles(Sections(text))
  {
    hide Parse, Lines, GoodTitles, Plain;
    var sections := Sections(text);
    SectionsProper(text);
    if sections == [] {
      assert GoodTitles([]) && Sections(Print([])) == [] by { hide *; NothingPrinted(); }
    } else {
      BodyNewlineFree(sections);
      ReparsePrinted(sections);
      if GoodTitles(sections) { ParseBody(sections); } else { BadTitles(sections); }
    }
  }

  /** And every list of sections that can be told apart is read back from its print. */
  lemma PrintThenParse(sections: seq<Section>)
    requires AllProper(sections) && GoodTitles(sections)
    ensures Sections(Print(sections)) == sections
  {
    hide Parse, Lines, GoodTitles, Plain;
    if sections == [] {
      NothingPrinted();
    } else {
      BodyNewlineFree(sections);
      ReparsePrinted(sections);
      ParseBody(sections);
    }
  }

  function NonBlank(lines: seq<string>): seq<string> {
    if lines == [] then [] else (if Blank(lines[0]) then [] else [lines[0]]) + NonBlank(lines[1..])
  }

  function AllLines(sections: seq<Section>): seq<string> {
    if sections == [] then [] else SectionLines(sections[0]) + AllLines(sections[1..])
  }

  lemma {:induction false} NonBlankBoth(a: seq<string>, b: seq<string>)
    ensures NonBlank(a + b) == NonBlank(a) + NonBlank(b)
  {
    hide Blank;
    if a == [] {
      assert a + b == b;
    } else {
      assert (a + b)[1..] == a[1..] + b;
      NonBlankBoth(a[1..], b);
    }
  }

  lemma {:induction false} AllLinesBoth(a: seq<Section>, b: seq<Section>)
    ensures AllLines(a + b) == AllLines(a) + AllLines(b)
  {
    hide SectionLines;
    if a == [] {
      assert a + b == b;
    } else {
      assert (a + b)[1..] == a[1..] + b;
      AllLinesBoth(a[1..], b);
    }
  }

  lemma FlushLines(title: Option<string>, paragraph: seq<string>)
    ensures AllLines(Flush(title, paragraph)) == SectionLines(Section(title, paragraph))
  {
    var s := Section(title, paragraph);
    assert [s][1..] == [] && AllLines([s]) == SectionLines(s) + AllLines([]);
  }

  lemma {:induction false} ParseLosesNothing(lines: seq<string>, title: Option<string>, paragraph: seq<string>)
    ensures NonBlank(AllLines(Parse(lines, title, paragraph))) == NonBlank(SectionLines(Section(title, paragraph)) + lines)
    decreases |lines|
  {
    hide Dashes, Blank, Flush, AllLines, NonBlank;
    var open := SectionLines(Section(title, paragraph));
    FlushLines(title, paragraph);
    if lines == [] {
      assert open + lines == open;
    } else if Underlined(lines, 0) {
      ParseLosesNothing(lines[2..], Some(lines[0]), []);
      AllLinesBoth(Flush(title, paragraph), Parse(lines[2..], Some(lines[0]), []));
      NonBlankBoth(open, AllLines(Parse(lines[2..], Some(lines[0]), [])));
      NonBlankBoth(open, lines);
      assert SectionLines(Section(Some(lines[0]), [])) + lines[2..] == lines;
    } else if Blank(lines[0]) {
      ParseLosesNothing(lines[1..], None, []);
      AllLinesBoth(Flush(title, paragraph), Parse(lines[1..], None, []));
      NonBlankBoth(open, AllLines(Parse(lines[1..], None, [])));
      NonBlankBoth(open, lines);
      assert SectionLines(Section(None, [])) + lines[1..] == lines[1..];
      BlankDropped(lines);
    } else {
      ParseLosesNothing(lines[1..], title, paragraph + [lines[0]]);
      assert SectionLines(Section(title, paragraph + [lines[0]])) + lines[1..] == open + lines;
    }
  }

  lemma BlankDropped(lines: seq<string>)
    requires lines != [] && Blank(lines[0])
    ensures NonBlank(lines) == NonBlank(lines[1..])
  {
  }

  /** No line is lost, added or moved by the parser, but blank ones. */
  lemma NothingLost(text: string)
    ensures NonBlank(AllLines(Sections(text))) == NonBlank(Lines(text))
  {
    hide Parse, Lines, NonBlank, AllLines;
    ParseLosesNothing(Lines(text), None, []);
    assert SectionLines(Section(None, [])) + Lines(text) == Lines(text);
  }

  /** For instance, two empty lines in a row make an empty title, and printing adds a third,
      which then ends the section before its lines. */
  lemma TwoEmptyLines()
    ensures Sections("a\n\n\nb") == [Section(None, ["a"]), Section(Some(""), ["b"])]
    ensures Sections(Print(Sections("a\n\n\nb"))) == [Section(None, ["a"]), Section(Some(""), []), Section(None, ["b"])]
  {
    hide Parse, Lines, Join, PrintedLines;
    var a, b := Section(None, ["a"]), Section(Some(""), ["b"]);
    assert Sections("a\n\n\nb") == [a, b] by {
      assert ["a", "", "", "b"] == Lines("a\n\n\nb") by { FourLines(); }
      ReadTwoEmpty();
    }
    assert Body([a, b]) == ["a", "", "", "", "b"] by {
      hide Body;
      BodyOfTwo(a, b);
      Letters();
    }
    assert NewlineFree(Body([a, b]));
    ReparsePrinted([a, b]);
    ReadThreeEmpty();
  }

  lemma Letters()
    ensures !Blank("a") && !Blank("b") && Blank("") && Dashes("a") != "" && Dashes("") == "" && "b" != Dashes("")
  {
    assert !White("a"[0]) && !White("b"[0]);
  }

  lemma Underlines()
    ensures !Underlined(["a", "", "", "b"], 0) && Underlined(["a", "", "", "b"], 1) && !Underlined(["a", "", "", "b"], 3)
    ensures !Underlined(["a", "", "", "", "b"], 0) && Underlined(["a", "", "", "", "b"], 1)
    ensures !Underlined(["a", "", "", "", "b"], 3) && !Underlined(["a", "", "", "", "b"], 4)
  {
    hide Dashes;
    Letters();
  }

  lemma Flushes()
    ensures Flush(None, []) == [] && Flush(Some(""), []) == [Section(Some(""), [])]
    ensures Flush(None, ["a"]) == [Section(None, ["a"])] && Flush(None, ["b"]) == [Section(None, ["b"])]
    ensures Flush(Some(""), ["b"]) == [Section(Some(""), ["b"])]
  {
  }

  lemma ReadTwoEmpty()
    ensures Parse(["a", "", "", "b"], None, []) == [Section(None, ["a"]), Section(Some(""), ["b"])]
  {
    hide Parse, Blank, Dashes, Underlined, Flush;
    Letters();
    Underlines();
    Flushes();
    var lines := ["a", "", "", "b"];
    assert lines[0..] == lines && lines[4..] == [] && [] + ["a"] == ["a"] && [] + ["b"] == ["b"];
    ParseStep(lines, 0, None, []);
    ParseStep(lines, 1, None, ["a"]);
    ParseStep(lines, 3, Some(""), []);
    NoLines(Some(""), ["b"]);
  }

  lemma ReadThreeEmpty()
    ensures Parse(["a", "", "", "", "b"], None, []) == [Section(None, ["a"]), Section(Some(""), []), Section(None, ["b"])]
  {
    hide Parse, Blank, Dashes, Underlined, Flush;
    Letters();
    Underlines();
    Flushes();
    var lines := ["a", "", "", "", "b"];
    assert lines[0..] == lines && lines[5..] == [] && [] + ["a"] == ["a"] && [] + ["b"] == ["b"];
    ParseStep(lines, 0, None, []);
    ParseStep(lines, 1, None, ["a"]);
    ParseStep(lines, 3, Some(""), []);
    ParseStep(lines, 4, None, []);
    NoLines(None, ["b"]);
  }

  lemma BodyOfTwo(a: Section, b: Section)
    ensures Body([a, b]) == SectionLines(a) + [""] + SectionLines(b)
  {
    hide SectionLines;
    assert [a, b][1..] == [b] && [b][1..] == [];
    assert After([]) == [] && SectionLines(b) + [] == SectionLines(b);
    assert Body([b]) == SectionLines(b) + After([b][1..]) == SectionLines(b);
    assert SectionLines(a) + ([""] + SectionLines(b)) == SectionLines(a) + [""] + SectionLines(b);
  }

  lemma LastLine(line: string)
    requires line != "" && '\n' !in line
    ensures Lines(line) == [line]
  {
  }

  lemma NextLine(line: string, rest: string)
    requires '\n' !in line
    ensures Lines(line + "\n" + rest) == [line] + Lines(rest)
  {
    var text := line + "\n" + rest;
    assert text[|line|] == '\n' && text[..|line|] == line && text[|line| + 1..] == rest;
    FirstIndexIs(text, '\n', |line|);
  }

  lemma FourLines()
    ensures Lines("a\n\n\nb") == ["a", "", "", "b"]
  {
    hide Lines;
    LastLine("b");
    NextLine("", "b");
    NextLine("", "\nb");
    NextLine("a", "\n\nb");
    assert "" + "\n" + "b" == "\nb" && "" + "\n" + "\nb" == "\n\nb" && "a" + "\n" + "\n\nb" == "a\n\n\nb";
    assert ["a"] + ([""] + ([""] + ["b"])) == ["a", "", "", "b"];
  }

  lemma NothingPrinted()
    ensures GoodTitles([]) && Sections(Print([])) == []
  {
  }

  lemma ReparsePrinted(sections: seq<Section>)
    requires sections != [] && NewlineFree(Body(sections))
    ensures Sections(Print(sections)) == Parse(Body(sections), None, [])
  {
    hide Parse, Lines, Join, PrintedLines, Body;
    PrintedBody(sections);
    LinesOfJoin(Body(sections));
  }

  // ----- Fields

  function Concat(fields: seq<seq<string>>): seq<string> {
    if fields == [] then [] else Concat(fields[..|fields| - 1]) + fields[|fields| - 1]
  }

  predicate Continues(line: string) {
    line != "" && line[0] == ' '
  }

  /** All lines in order, none of the fields empty, and every line of a field but its
      first starts with a space, which no first line does, except for the very first. */
  predicate AreFields(lines: seq<string>, fields: seq<seq<string>>) {
    && Concat(fields) == lines
    && (forall f :: 0 <= f < |fields| ==> fields[f] != [] && (f > 0 ==> !Continues(fields[f][0])))
    && forall f, i :: 0 <= f < |fields| && 1 <= i < |fields[f]| ==> Continues(fields[f][i])
  }

  function Fields(lines: seq<string>): seq<seq<string>> {
    if lines == [] then []
    else
      var fields, line := Fields(lines[..|lines| - 1]), lines[|lines| - 1];
      if fields != [] && Continues(line) then fields[..|fields| - 1] + [fields[|fields| - 1] + [line]]
      else fields + [[line]]
  }

  lemma FieldStarts(lines: seq<string>, fields: seq<seq<string>>, line: string)
    requires AreFields(lines, fields) && (fields == [] || !Continues(line))
    ensures AreFields(lines + [line], fields + [[line]])
  {
    hide Continues;
    var more := fields + [[line]];
    assert more[..|fields|] == fields;
    assert forall f :: 0 <= f < |fields| ==> more[f] == fields[f];
  }

  lemma FieldGoesOn(lines: seq<string>, fields: seq<seq<string>>, line: string)
    requires AreFields(lines, fields) && fields != [] && Continues(line)
    ensures AreFields(lines + [line], fields[..|fields| - 1] + [fields[|fields| - 1] + [line]])
  {
    hide Continues, Concat;
    var n := |fields| - 1;
    var more := fields[..n] + [fields[n] + [line]];
    assert forall f :: 0 <= f < n ==> more[f] == fields[f];
    assert more[n][0] == fields[n][0];
    assert Concat(more) == lines + [line] by {
      hide *;
      ConcatLast(fields[..n], fields[n]);
      ConcatLast(fields[..n], fields[n] + [line]);
      assert fields == fields[..n] + [fields[n]];
    }
  }

  lemma ConcatLast(fields: seq<seq<string>>, last: seq<string>)
    ensures Concat(fields + [last]) == Concat(fields) + last
  {
    assert (fields + [last])[..|fields|] == fields;
  }

  lemma {:induction false} FieldsAreFields(lines: seq<string>)
    ensures AreFields(lines, Fields(lines))
  {
    hide AreFields, Continues;
    if lines == [] {
      assert AreFields([], []) by { hide *; NoFields(); }
    } else {
      var n := |lines| - 1;
      var fields, line := Fields(lines[..n]), lines[n];
      FieldsAreFields(lines[..n]);
      assert lines == lines[..n] + [line];
      if fields != [] && Continues(line) {
        FieldGoesOn(lines[..n], fields, line);
      } else {
        FieldStarts(lines[..n], fields, line);
      }
    }
  }

  lemma NoFields()
    ensures AreFields([], [])
  {
  }

  /** There is only one way to cut lines into fields. */
  lemma {:induction false} FieldsUnique(lines: seq<string>, fields: seq<seq<string>>)
    requires AreFields(lines, fields)
    ensures fields == Fields(lines)
    decreases |lines|
  {
    hide Continues, Concat, AreFields, Fields;
    if fields == [] {
      assert lines == [] && Fields([]) == [] by { NoFieldsNoLines(lines); }
    } else {
      var n, m := |lines| - 1, |fields| - 1;
      var last := fields[m];
      assert last != [] by { NotEmptyField(lines, fields); }
      if |last| == 1 {
        WholeCut(lines, fields);
        FieldsUnique(lines[..n], fields[..m]);
        FieldsUnfold(lines);
        assert fields == fields[..m] + [[lines[n]]];
      } else {
        var rest := last[..|last| - 1];
        var fewer := fields[..m] + [rest];
        LastCut(lines, fields, fewer);
        FieldsUnique(lines[..n], fewer);
        FieldsUnfold(lines);
        assert fewer[..|fewer| - 1] == fields[..m] && rest + [lines[n]] == last;
        assert fields == fields[..m] + [last];
      }
    }
  }

  lemma NoFieldsNoLines(lines: seq<string>)
    requires AreFields(lines, [])
    ensures lines == [] && Fields([]) == []
  {
  }

  lemma NotEmptyField(lines: seq<string>, fields: seq<seq<string>>)
    requires AreFields(lines, fields) && fields != []
    ensures fields[|fields| - 1] != []
  {
  }

  lemma WholeCut(lines: seq<string>, fields: seq<seq<string>>)
    requires AreFields(lines, fields) && fields != [] && |fields[|fields| - 1]| == 1
    ensures lines != [] && fields[|fields| - 1] == [lines[|lines| - 1]]
    ensures AreFields(lines[..|lines| - 1], fields[..|fields| - 1])
    ensures |fields| > 1 ==> !Continues(lines[|lines| - 1])
  {
    hide Continues;
    var m := |fields| - 1;
    assert lines == Concat(fields[..m]) + fields[m];
    assert lines[..|lines| - 1] == Concat(fields[..m]);
  }

  lemma LastCut(lines: seq<string>, fields: seq<seq<string>>, fewer: seq<seq<string>>)
    requires AreFields(lines, fields) && fields != [] && |fields[|fields| - 1]| > 1
    requires
      var m := |fields| - 1;
      fewer == fields[..m] + [fields[m][..|fields[m]| - 1]]
    ensures lines != [] && AreFields(lines[..|lines| - 1], fewer) && Continues(lines[|lines| - 1])
    ensures fields[|fields| - 1][|fields[|fields| - 1]| - 1] == lines[|lines| - 1]
  {
    hide Continues;
    var m := |fields| - 1;
    assert lines == Concat(fields[..m]) + fields[m];
    ConcatLast(fields[..m], fields[m][..|fields[m]| - 1]);
    assert lines[..|lines| - 1] == Concat(fields[..m]) + fields[m][..|fields[m]| - 1];
    assert forall f :: 0 <= f < m ==> fewer[f] == fields[f];
    assert fewer[m][0] == fields[m][0];
  }

  lemma FieldsUnfold(lines: seq<string>)
    requires lines != []
    ensures
      var fields, line := Fields(lines[..|lines| - 1]), lines[|lines| - 1];
      Fields(lines) == if fields != [] && Continues(line) then fields[..|fields| - 1] + [fields[|fields| - 1] + [line]] else fields + [[line]]
  {
  }

  /** The lines of a field go on for as long as they start with a space. */
  lemma FieldsAtSpaces(lines: seq<string>, fields: seq<seq<string>>)
    requires AreFields(lines, fields)
    ensures forall f, i :: 0 <= f < |fields| && 1 <= i < |fields[f]| ==> fields[f][i] != "" && fields[f][i][0] == ' '
    ensures forall f :: 1 <= f < |fields| ==> fields[f] != [] && (fields[f][0] == "" || fields[f][0][0] != ' ')
  {
  }

  method IterFields(lines: seq<string>) returns (ret: seq<seq<string>>)
    ensures ret == Fields(lines) && AreFields(lines, ret)
  {
    hide Continues;
    var cl: seq<string> := [];
    ret := [];
    for i := 0 to |lines|
      invariant Fields(lines[..i]) == ret + if cl == [] then [] else [cl]
      invariant cl == [] ==> ret == []
    {
      var line := lines[i];
      assert lines[..i + 1][..i] == lines[..i];
      if cl != [] && Continues(line) {
        assert (ret + [cl])[..|ret|] == ret;
        cl := cl + [line];
      } else {
        if cl != [] {
          ret := ret + [cl];
        }
        cl := [line];
      }
    }
    assert lines[..|lines|] == lines;
    if cl != [] {
      ret := ret + [cl];
    }
    FieldsAreFields(lines);
  }

  // ----- The filter

  /** The parts that regular expressions do: whether a title is that of a wdiff section
      and of which package, the removal of version changes, and whether a block still has
      a deletion or an insertion. */
  datatype Filters = Filters(wdiff: string -> Option<Option<string>>, replace: string -> string, marked: string -> bool)

  /** Neither a capture nor a replacement brings in a newline. */
  ghost predicate NoNewNewlines(f: Filters) {
    forall text: string {:trigger f.replace(text)} {:trigger f.wdiff(text)} :: '\n' !in text ==>
      '\n' !in f.replace(text) && (f.wdiff(text).Some? && f.wdiff(text).value.Some? ==> '\n' !in f.wdiff(text).value.value)
  }

  function Replaced(f: Filters, lines: seq<string>): seq<string> {
    seq(|lines|, i requires 0 <= i < |lines| => f.replace(lines[i]))
  }

  function FilterField(f: Filters, lines: seq<string>): seq<string> {
    if lines == [] then []
    else if ':' !in lines[0] then lines
    else if lines[0][..FirstIndex(lines[0], ':')] in {"Installed-Size", "Version"} then []
    else if f.marked(Join(Replaced(f, lines))) then Replaced(f, lines)
    else []
  }

  function FilterFields(f: Filters, fields: seq<seq<string>>): seq<string> {
    if fields == [] then [] else FilterFields(f, fields[..|fields| - 1]) + FilterField(f, fields[|fields| - 1])
  }

  predicate HasContent(lines: seq<string>) {
    exists i :: 0 <= i < |lines| && !Blank(lines[i])
  }

  function NoDifferences(package: Option<string>): string {
    "No differences " + "were encountered " +
      if package.Some? then "between the " + "control files " + "of package " + package.value
      else "in the " + "control files"
  }

  function FilterSection(f: Filters, s: Section): Section {
    if s.title.None? || f.wdiff(s.title.value).None? then s
    else
      var lines := FilterFields(f, Fields(s.lines));
      if HasContent(lines) then Section(s.title, lines)
      else Section(None, [NoDifferences(f.wdiff(s.title.value).value)])
  }

  function FilterSections(f: Filters, sections: seq<Section>): (r: seq<Section>)
    ensures |r| == |sections| && forall i :: 0 <= i < |r| ==> r[i] == FilterSection(f, sections[i])
  {
    seq(|sections|, i requires 0 <= i < |sections| => FilterSection(f, sections[i]))
  }

  // ----- What filtering is for

  /** `kept` is what is to be kept of a field: all of it when it has no name, nothing of the
      fields that always change, and of any other one its replaced lines, if these still
      show a deletion or an insertion. */
  ghost predicate KeptOf(f: Filters, field: seq<string>, kept: seq<string>) {
    field != [] &&
    if ':' !in field[0] then kept == field
    else
      forall name: string, rest: string :: field[0] == name + ":" + rest && ':' !in name ==>
        if name == "Installed-Size" || name == "Version" then kept == []
        else
          exists replaced: seq<string> ::
            && |replaced| == |field| && (forall i :: 0 <= i < |field| ==> replaced[i] == f.replace(field[i]))
            && if f.marked(Join(replaced)) then kept == replaced else kept == []
  }

  /** `filtered` is what is kept of each field of the lines, in order. */
  ghost predicate IsFiltered(f: Filters, lines: seq<string>, filtered: seq<string>) {
    exists fields: seq<seq<string>>, kept: seq<seq<string>> ::
      AreFields(lines, fields) && AllKept(f, fields, kept) && filtered == Concat(kept)
  }

  ghost predicate AllKept(f: Filters, fields: seq<seq<string>>, kept: seq<seq<string>>) {
    |kept| == |fields| && forall k :: 0 <= k < |fields| ==> KeptOf(f, fields[k], kept[k])
  }

  /** A wdiff section is left with its filtered lines, or, when none of these has anything but
      white space, becomes the remark that there are no differences. */
  ghost predicate IsSectionFiltered(f: Filters, s: Section, t: Section) {
    if s.title.None? || f.wdiff(s.title.value).None? then t == s
    else
      exists filtered :: IsFiltered(f, s.lines, filtered) &&
        if exists i :: 0 <= i < |filtered| && !Blank(filtered[i]) then t == Section(s.title, filtered)
        else t.title == None && t.lines == match f.wdiff(s.title.value).value
          case None => ["No differences were encountered in the control files"]
          case Some(package) => ["No differences were encountered between the control files of package " + package]
  }

  ghost predicate AreSectionsFiltered(f: Filters, sections: seq<Section>, filtered: seq<Section>) {
    |filtered| == |sections| && forall i :: 0 <= i < |sections| ==> IsSectionFiltered(f, sections[i], filtered[i])
  }

  lemma NameOfField(line: string, name: string, rest: string)
    requires line == name + ":" + rest && ':' !in name
    ensures ':' in line && line[..FirstIndex(line, ':')] == name
  {
    assert line[|name|] == ':' && line[..|name|] == name;
    FirstIndexIs(line, ':', |name|);
  }

  lemma FieldIsKept(f: Filters, field: seq<string>, kept: seq<string>)
    requires field != []
    ensures KeptOf(f, field, kept) <==> kept == FilterField(f, field)
  {
    hide Join;
    if ':' in field[0] {
      var i := FirstIndex(field[0], ':');
      assert field[0] == field[0][..i] + ":" + field[0][i + 1..];
      assert ':' !in field[0][..i] by { BeforeFirst(field[0], ':'); }
      forall name: string, rest: string | field[0] == name + ":" + rest && ':' !in name ensures name == field[0][..i] {
        NameOfField(field[0], name, rest);
      }
      forall replaced: seq<string> | |replaced| == |field| && (forall i :: 0 <= i < |field| ==> replaced[i] == f.replace(field[i]))
        ensures replaced == Replaced(f, field)
      {
      }
    }
  }

  lemma {:induction false} BeforeFirst(text: string, c: char)
    requires c in text
    ensures FirstIndex(text, c) < |text| && text[FirstIndex(text, c)] == c && c !in text[..FirstIndex(text, c)]
  {
  }

  lemma {:induction false} FieldsAreKept(f: Filters, fields: seq<seq<string>>, kept: seq<seq<string>>)
    requires forall k :: 0 <= k < |fields| ==> fields[k] != []
    ensures AllKept(f, fields, kept) ==> Concat(kept) == FilterFields(f, fields)
    decreases |fields|
  {
    hide KeptOf, FilterField;
    if AllKept(f, fields, kept) && fields != [] {
      var n := |fields| - 1;
      FieldIsKept(f, fields[n], kept[n]);
      FieldsAreKept(f, fields[..n], kept[..n]);
    }
  }

  lemma {:induction false} KeptExists(f: Filters, fields: seq<seq<string>>) returns (kept: seq<seq<string>>)
    requires forall k :: 0 <= k < |fields| ==> fields[k] != []
    ensures AllKept(f, fields, kept)
  {
    hide KeptOf, FilterField;
    kept := seq(|fields|, k requires 0 <= k < |fields| => FilterField(f, fields[k]));
    forall k | 0 <= k < |fields| ensures KeptOf(f, fields[k], kept[k]) {
      FieldIsKept(f, fields[k], kept[k]);
    }
  }

  /** There is one way to filter lines. */
  lemma FilteredLines(f: Filters, lines: seq<string>, filtered: seq<string>)
    ensures IsFiltered(f, lines, filtered) <==> filtered == FilterFields(f, Fields(lines))
  {
    hide FilterFields, Fields, KeptOf, Concat;
    if fields: seq<seq<string>>, kept: seq<seq<string>> :| AreFields(lines, fields) && AllKept(f, fields, kept) && filtered == Concat(kept) {
      FieldsUnique(lines, fields);
      FieldsAreKept(f, fields, kept);
    }
    FieldsAreFields(lines);
    var kept := KeptExists(f, Fields(lines));
    FieldsAreKept(f, Fields(lines), kept);
  }

  lemma SectionIsFiltered(f: Filters, s: Section, t: Section)
    ensures IsSectionFiltered(f, s, t) <==> t == FilterSection(f, s)
  {
    hide FilterFields, Fields, IsFiltered, Blank;
    if s.title.Some? && f.wdiff(s.title.value).Some? {
      forall filtered ensures IsFiltered(f, s.lines, filtered) <==> filtered == FilterFields(f, Fields(s.lines)) {
        FilteredLines(f, s.lines, filtered);
      }
      Remarks(f.wdiff(s.title.value).value);
    }
  }

  lemma RemarkStart()
    ensures "No differences " + "were encountered " == "No differences were encountered "
  {
  }

  lemma RemarkAll()
    ensures "No differences were encountered " + "in the " + "control files" == "No differences were encountered in the control files"
  {
    assert "No differences were encountered " + "in the " == "No differences were encountered in the ";
  }

  lemma RemarkPackage()
    ensures "No differences were encountered " + "between the " + "control files " + "of package "
      == "No differences were encountered between the control files of package "
  {
    assert "No differences were encountered " + "between the " == "No differences were encountered between the ";
    assert "No differences were encountered between the " + "control files " == "No differences were encountered between the control files ";
  }

  lemma Associates(a: string, b: string, c: string, d: string, e: string)
    ensures a + (b + c) == a + b + c && a + (b + c + d + e) == a + b + c + d + e
  {
  }

  lemma Remarks(package: Option<string>)
    ensures NoDifferences(package) == match package
      case None => "No differences were encountered in the control files"
      case Some(name) => "No differences were encountered between the control files of package " + name
  {
    RemarkStart();
    RemarkAll();
    RemarkPackage();
    var start := "No differences were encountered ";
    match package {
      case None => Associates(start, "in the ", "control files", "", "");
      case Some(name) => Associates(start, "between the ", "control files ", "of package ", name);
    }
  }

  /** The filtered fields of a wdiff section. */
  method FilterLines(lines: seq<string>, f: Filters) returns (unfiltered: seq<string>)
    ensures unfiltered == FilterFields(f, Fields(lines)) && IsFiltered(f, lines, unfiltered)
  {
    hide Fields, AreFields, FilterField;
    unfiltered := [];
    var fields := IterFields(lines);
    for k := 0 to |fields|
      invariant unfiltered == FilterFields(f, fields[..k])
    {
      assert fields[..k + 1][..k] == fields[..k];
      unfiltered := unfiltered + FilterField(f, fields[k]);
    }
    assert fields[..|fields|] == fields;
    FilteredLines(f, lines, unfiltered);
  }

  lemma PrintedNext(sections: seq<Section>, i: nat)
    requires i < |sections|
    ensures PrintedLines(sections[i..]) == SectionLines(sections[i]) + [""] + PrintedLines(sections[i + 1..])
  {
    hide SectionLines;
    assert sections[i..][0] == sections[i] && sections[i..][1..] == sections[i + 1..];
  }

  lemma NothingLeft()
    ensures PrintedLines([]) == []
  {
  }

  method PrintSections(sections: seq<Section>) returns (text: string)
    ensures text == Print(sections)
  {
    hide Dashes, Join, PrintedLines;
    var lines: seq<string> := [];
    assert sections[0..] == sections && lines + PrintedLines(sections) == PrintedLines(sections);
    for i := 0 to |sections|
      invariant lines + PrintedLines(sections[i..]) == PrintedLines(sections)
    {
      var s := sections[i];
      PrintedNext(sections, i);
      ghost var before := lines;
      if s.title.Some? {
        lines := lines + [s.title.value, Dashes(s.title.value)];
      }
      lines := lines + s.lines;
      lines := lines + [""];
      assert lines == before + (SectionLines(s) + [""]);
      hide SectionLines;
      assert before + (SectionLines(s) + [""] + PrintedLines(sections[i + 1..])) == lines + PrintedLines(sections[i + 1..]);
    }
    assert sections[|sections|..] == [];
    assert PrintedLines([]) == [] by { NothingLeft(); }
    assert lines == lines + [] == PrintedLines(sections);
    text := Join(lines);
  }

  method FilterBoring(debdiff: string, f: Filters) returns (text: string)
    ensures text == Print(FilterSections(f, Sections(debdiff)))
    ensures AreSectionsFiltered(f, Sections(debdiff), FilterSections(f, Sections(debdiff)))
    ensures exists filtered :: AreSectionsFiltered(f, Sections(debdiff), filtered) && text == Print(filtered)
  {
    hide Sections, Fields, FilterFields, HasContent, NoDifferences, Print, IsFiltered, IsSectionFiltered;
    var sections := IterSections(debdiff);
    var ret: seq<Section> := [];
    for i := 0 to |sections|
      invariant |ret| == i && forall k :: 0 <= k < i ==> ret[k] == FilterSection(f, sections[k])
    {
      var s := sections[i];
      if s.title.None? || f.wdiff(s.title.value).None? {
        ret := ret + [s];
        continue;
      }
      var lines := FilterLines(s.lines, f);
      if HasContent(lines) {
        ret := ret + [Section(s.title, lines)];
      } else {
        ret := ret + [Section(None, [NoDifferences(f.wdiff(s.title.value).value)])];
      }
    }
    assert ret == FilterSections(f, sections);
    forall i | 0 <= i < |sections| ensures IsSectionFiltered(f, sections[i], ret[i]) {
      SectionIsFiltered(f, sections[i], ret[i]);
    }
    text := PrintSections(ret);
  }

  // ----- Empty debdiffs

  predicate IsEmpty(debdiff: string) {
    forall s :: s in Sections(debdiff) ==> s.title.None?
  }

  predicate AnyTitle(sections: seq<Section>) {
    exists i :: 0 <= i < |sections| && sections[i].title.Some?
  }

  lemma AnyTitleOf(a: seq<Section>, b: seq<Section>)
    ensures AnyTitle(a + b) <==> AnyTitle(a) || AnyTitle(b)
  {
    if AnyTitle(a) { var i :| 0 <= i < |a| && a[i].title.Some?; assert (a + b)[i] == a[i]; }
    if AnyTitle(b) { var i :| 0 <= i < |b| && b[i].title.Some?; assert (a + b)[|a| + i] == b[i]; }
  }

  /** An underlined line anywhere gives a title somewhere, wherever the parser is. */
  lemma {:induction false} UnderlinedGivesTitle(lines: seq<string>, i: nat, title: Option<string>, paragraph: seq<string>)
    requires title.Some? || Underlined(lines, i)
    ensures AnyTitle(Parse(lines, title, paragraph))
    decreases |lines|
  {
    hide Dashes, Blank;
    if lines == [] {
      assert Parse(lines, title, paragraph)[0].title.Some?;
    } else if Underlined(lines, 0) {
      UnderlinedGivesTitle(lines[2..], 0, Some(lines[0]), []);
      AnyTitleOf(Flush(title, paragraph), Parse(lines[2..], Some(lines[0]), []));
    } else if title.Some? && Blank(lines[0]) {
      assert Flush(title, paragraph)[0].title.Some?;
      AnyTitleOf(Flush(title, paragraph), Parse(lines[1..], None, []));
    } else {
      if title.None? { assert Underlined(lines[1..], i - 1); }
      if Blank(lines[0]) {
        UnderlinedGivesTitle(lines[1..], i - 1, None, []);
        AnyTitleOf(Flush(title, paragraph), Parse(lines[1..], None, []));
      } else {
        UnderlinedGivesTitle(lines[1..], if i > 0 then i - 1 else 0, title, paragraph + [lines[0]]);
      }
    }
  }

  lemma {:induction false} TitleIsUnderlined(sections: seq<Section>, k: nat) returns (i: nat)
    requires k < |sections| && sections[k].title.Some?
    ensures Underlined(Body(sections), i)
    decreases k
  {
    hide Dashes;
    if k == 0 {
      i := 0;
    } else {
      var j := TitleIsUnderlined(sections[1..], k - 1);
      var before := SectionLines(sections[0]) + [""];
      assert Body(sections) == before + Body(sections[1..]);
      i := |before| + j;
    }
  }

  lemma {:induction false} FilteredNoNewline(f: Filters, fields: seq<seq<string>>)
    requires NoNewNewlines(f) && forall k :: 0 <= k < |fields| ==> NewlineFree(fields[k])
    ensures NewlineFree(FilterFields(f, fields))
  {
    if fields != [] {
      FilteredNoNewline(f, fields[..|fields| - 1]);
      var last := fields[|fields| - 1];
      forall i | 0 <= i < |last| ensures '\n' !in f.replace(last[i]) {
      }
    }
  }

  lemma {:induction false} FieldsNoNewline(lines: seq<string>)
    requires NewlineFree(lines)
    ensures forall k :: 0 <= k < |Fields(lines)| ==> NewlineFree(Fields(lines)[k])
  {
    hide Continues;
    if lines != [] { FieldsNoNewline(lines[..|lines| - 1]); }
  }

  /** A filtered section has no newline either, and has a title if and only if it had one
      and is not a wdiff section without content; without a title it is proper. */
  lemma FilteredSection(f: Filters, s: Section)
    requires NoNewNewlines(f) && Proper(s)
    ensures NoNewline(FilterSection(f, s))
    ensures FilterSection(f, s).title.Some? <==>
      s.title.Some? && (f.wdiff(s.title.value).Some? ==> HasContent(FilterFields(f, Fields(s.lines))))
    ensures FilterSection(f, s).title.None? ==> Proper(FilterSection(f, s))
  {
    hide FilterFields, Fields, HasContent, Dashes, Blank, NoDifferences;
    FieldsNoNewline(s.lines);
    FilteredNoNewline(f, Fields(s.lines));
    if s.title.Some? && f.wdiff(s.title.value).Some? {
      NoDifferencesLine(f.wdiff(s.title.value).value);
    }
  }

  lemma NoDifferencesLine(package: Option<string>)
    requires package.Some? ==> '\n' !in package.value
    ensures '\n' !in NoDifferences(package) && !Blank(NoDifferences(package))
  {
    var start := "No differences ";
    assert '\n' !in start && '\n' !in "were encountered " && '\n' !in "between the " && '\n' !in "control files "
      && '\n' !in "of package " && '\n' !in "in the " && '\n' !in "control files";
    assert start[0] == 'N' && !White('N');
    assert NoDifferences(package)[0] == start[0];
  }

  /** Filtering a debdiff leaves an empty one if and only if all its titled sections are
      wdiff sections with nothing but blank lines left in their fields. */
  lemma FilteredIsEmpty(debdiff: string, f: Filters, filtered: seq<Section>)
    requires NoNewNewlines(f) && AreSectionsFiltered(f, Sections(debdiff), filtered)
    ensures IsEmpty(Print(filtered)) <==>
      forall s, lines :: s in Sections(debdiff) && s.title.Some? && (f.wdiff(s.title.value).Some? ==> IsFiltered(f, s.lines, lines)) ==>
        f.wdiff(s.title.value).Some? && forall i :: 0 <= i < |lines| ==> Blank(lines[i])
  {
    hide Sections, Print, IsEmpty, FilterFields, Fields, IsFiltered, IsSectionFiltered, HasContent, NoNewNewlines, Blank;
    var sections := Sections(debdiff);
    forall i | 0 <= i < |sections| ensures filtered[i] == FilterSection(f, sections[i]) {
      SectionIsFiltered(f, sections[i], filtered[i]);
    }
    assert filtered == FilterSections(f, sections);
    FilteredToNothing(debdiff, f);
    forall s, lines ensures IsFiltered(f, s, lines) <==> lines == FilterFields(f, Fields(s)) {
      FilteredLines(f, s, lines);
    }
    forall lines ensures HasContent(lines) <==> exists i :: 0 <= i < |lines| && !Blank(lines[i]) {
      ContentIs(lines);
    }
    if IsEmpty(Print(filtered)) {
      forall s, lines | s in sections && s.title.Some? && (f.wdiff(s.title.value).Some? ==> IsFiltered(f, s.lines, lines))
        ensures f.wdiff(s.title.value).Some? && forall i :: 0 <= i < |lines| ==> Blank(lines[i])
      {
        assert f.wdiff(s.title.value).Some? && !HasContent(FilterFields(f, Fields(s.lines)));
      }
    } else {
      var s :| s in sections && s.title.Some? && !(f.wdiff(s.title.value).Some? && !HasContent(FilterFields(f, Fields(s.lines))));
      var lines := FilterFields(f, Fields(s.lines));
      assert IsFiltered(f, s.lines, lines);
    }
  }

  lemma ContentIs(lines: seq<string>)
    ensures HasContent(lines) <==> exists i :: 0 <= i < |lines| && !Blank(lines[i])
  {
  }

  lemma FilteredToNothing(debdiff: string, f: Filters)
    requires NoNewNewlines(f)
    ensures IsEmpty(Print(FilterSections(f, Sections(debdiff)))) <==>
      forall s :: s in Sections(debdiff) && s.title.Some? ==>
        f.wdiff(s.title.value).Some? && !HasContent(FilterFields(f, Fields(s.lines)))
  {
    hide Parse, Lines, Proper, FilterSection, FilterFields, Fields, HasContent, NoNewline, Body, Join, PrintedLines, NoNewNewlines;
    var sections := Sections(debdiff);
    var ret := FilterSections(f, sections);
    SectionsProper(debdiff);
    forall i | 0 <= i < |sections|
      ensures NoNewline(ret[i]) && (ret[i].title.None? ==> Proper(ret[i]))
      ensures ret[i].title.Some? <==>
        sections[i].title.Some? && (f.wdiff(sections[i].title.value).Some? ==> HasContent(FilterFields(f, Fields(sections[i].lines))))
    {
      FilteredSection(f, sections[i]);
    }
    if ret == [] {
      NothingPrinted();
    } else {
      BodyNewlineFree(ret);
      ReparsePrinted(ret);
      if AnyTitle(ret) {
        var k :| 0 <= k < |ret| && ret[k].title.Some?;
        var i := TitleIsUnderlined(ret, k);
        UnderlinedGivesTitle(Body(ret), i, None, []);
        assert sections[k] in sections;
      } else {
        assert GoodTitles(ret);
        ParseBody(ret);
      }
    }
  }
}
