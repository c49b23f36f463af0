/** The text of a Contents index: a line for each path, with the packages that ship it. */
module ContentsIndex {
  import opened Common

  datatype ContentsEntry = ContentsEntry(qualifiedName: string, files: seq<string>)

  datatype Line = Line(path: string, packages: seq<string>)

  // ----- The order of strings

  predicate Less(a: string, b: string) {
    b != "" && (a == "" || a[0] < b[0] || (a[0] == b[0] && Less(a[1..], b[1..])))
  }

  /** The order is that of the first character that differs, and of the lengths when none
      does. */
  lemma {:induction false} LessIs(a: string, b: string)
    ensures Less(a, b) <==> (a < b) || exists i: nat :: FirstDifference(a, b, i) && a[i] < b[i]
  {
    if a != "" && b != "" && a[0] == b[0] {
      LessIs(a[1..], b[1..]);
      assert a == [a[0]] + a[1..] && b == [b[0]] + b[1..];
      assert a < b <==> a[1..] < b[1..];
      if i: nat :| FirstDifference(a[1..], b[1..], i) && a[1..][i] < b[1..][i] {
        assert a[..i + 1] == [a[0]] + a[1..][..i] && b[..i + 1] == [b[0]] + b[1..][..i];
        assert FirstDifference(a, b, i + 1);
      }
      if i: nat :| FirstDifference(a, b, i) && a[i] < b[i] {
        assert i > 0;
        assert a[1..][..i - 1] == a[..i][1..] && b[1..][..i - 1] == b[..i][1..];
        assert FirstDifference(a[1..], b[1..], i - 1);
      }
    } else if a != "" && b != "" {
      assert FirstDifference(a, b, 0);
      if i: nat :| FirstDifference(a, b, i) && a[i] < b[i] {
        if i > 0 { assert a[..i][0] == b[..i][0]; }
      }
    }
  }

  ghost predicate FirstDifference(a: string, b: string, i: nat) {
    i < |a| && i < |b| && a[..i] == b[..i] && a[i] != b[i]
  }

  lemma {:induction false} LessTotal(a: string, b: string)
    ensures a == b || Less(a, b) || Less(b, a)
    ensures !(Less(a, b) && Less(b, a))
  {
    if a != "" && b != "" && a[0] == b[0] {
      LessTotal(a[1..], b[1..]);
      assert a == [a[0]] + a[1..] && b == [b[0]] + b[1..];
    }
  }

  lemma {:induction false} LessTransitive(a: string, b: string, c: string)
    requires Less(a, b) && Less(b, c)
    ensures Less(a, c)
  {
    if a != "" && a[0] == b[0] == c[0] { LessTransitive(a[1..], b[1..], c[1..]); }
  }

  predicate Ascending(s: seq<string>) {
    forall i, j :: 0 <= i < j < |s| ==> Less(s[i], s[j])
  }

  lemma {:induction false} LeastExists(keys: set<string>) returns (least: string)
    requires keys != {}
    ensures least in keys && forall k :: k in keys && k != least ==> Less(least, k)
    decreases keys
  {
    hide Less;
    var some :| some in keys;
    least := some;
    var rest := keys - {some};
    assert keys == rest + {some};
    if rest != {} {
      var other := LeastExists(rest);
      LessTotal(some, other);
      if Less(other, some) {
        least := other;
      } else {
        forall k | k in rest && k != other ensures Less(some, k) { LessTransitive(some, other, k); }
      }
    }
  }

  /** What an ordered set or map goes through. */
  method InOrder(keys: set<string>) returns (s: seq<string>)
    ensures Ascending(s) && forall k :: k in keys <==> k in s
  {
    s := [];
    var left := keys;
    while left != {}
      invariant left <= keys && Ascending(s)
      invariant forall k :: k in keys <==> k in left || k in s
      invariant forall i, k :: 0 <= i < |s| && k in left ==> Less(s[i], k)
    {
      ghost var l := LeastExists(left);
      forall k, m | k in left && m in left && (forall n :: n in left && n != k ==> Less(k, n)) && (forall n :: n in left && n != m ==> Less(m, n))
        ensures k == m
      {
        LessTotal(k, m);
      }
      var least :| least in left && forall k :: k in left && k != least ==> Less(least, k);
      s := s + [least];
      left := left - {least};
    }
  }

  lemma {:induction false} AscendingUnique(s: seq<string>, t: seq<string>)
    requires Ascending(s) && Ascending(t) && forall k :: k in s <==> k in t
    ensures s == t
    decreases |s|
  {
    hide Less;
    assert |t| > 0 ==> t[0] in t && t[0] in s;
    if s == [] {
      assert t == [];
    } else {
      assert s[0] in s;
      var i :| 0 <= i < |t| && t[i] == s[0];
      assert t[0] in t;
      var j :| 0 <= j < |s| && s[j] == t[0];
      LessTotal(s[0], t[0]);
      assert i == 0;
      forall k ensures k in s[1..] <==> k in t[1..] {
        SameTail(s, k);
        SameTail(t, k);
      }
      AscendingUnique(s[1..], t[1..]);
      assert s == [s[0]] + s[1..] && t == [t[0]] + t[1..];
    }
  }

  lemma SameTail(s: seq<string>, k: string)
    requires Ascending(s) && s != []
    ensures k in s[1..] <==> k in s && k != s[0]
  {
    LessTotal(s[0], s[0]);
    if k in s && k != s[0] {
      var i :| 0 <= i < |s| && s[i] == k;
      assert s[1..][i - 1] == k;
    }
  }

  // ----- The index

  ghost predicate Shipped(entries: seq<ContentsEntry>, path: string, package: string) {
    exists e :: 0 <= e < |entries| && entries[e].qualifiedName == package && path in entries[e].files
  }

  ghost predicate Listed(lines: seq<Line>, path: string, package: string) {
    exists i :: 0 <= i < |lines| && lines[i].path == path && package in lines[i].packages
  }

  function Paths(lines: seq<Line>): (paths: seq<string>)
    ensures |paths| == |lines| && forall i :: 0 <= i < |lines| ==> paths[i] == lines[i].path
  {
    seq(|lines|, i requires 0 <= i < |lines| => lines[i].path)
  }

  /** One line a path, in order; on it the packages that ship the path, in order. */
  ghost predicate IsIndex(entries: seq<ContentsEntry>, lines: seq<Line>) {
    && Ascending(Paths(lines))
    && (forall i :: 0 <= i < |lines| ==> Ascending(lines[i].packages) && lines[i].packages != [])
    && forall path, package :: Listed(lines, path, package) <==> Shipped(entries, path, package)
  }

  lemma ListedAt(lines: seq<Line>, i: nat, package: string)
    requires Ascending(Paths(lines)) && i < |lines|
    ensures Listed(lines, lines[i].path, package) <==> package in lines[i].packages
  {
    hide Less;
    if Listed(lines, lines[i].path, package) {
      var j :| 0 <= j < |lines| && lines[j].path == lines[i].path && package in lines[j].packages;
      LessTotal(lines[i].path, lines[i].path);
      assert Paths(lines)[i] == Paths(lines)[j];
    }
  }

  lemma PathListed(lines: seq<Line>, path: string)
    requires forall i :: 0 <= i < |lines| ==> lines[i].packages != []
    ensures path in Paths(lines) <==> exists package :: Listed(lines, path, package)
  {
    if path in Paths(lines) {
      var i :| 0 <= i < |lines| && Paths(lines)[i] == path;
      assert lines[i].packages[0] in lines[i].packages;
      assert Listed(lines, path, lines[i].packages[0]);
    }
    if exists package :: Listed(lines, path, package) {
      var package :| Listed(lines, path, package);
      var i :| 0 <= i < |lines| && lines[i].path == path && package in lines[i].packages;
      assert Paths(lines)[i] == path;
    }
  }

  /** There is only one index of given entries. */
  lemma IndexIsUnique(entries: seq<ContentsEntry>, a: seq<Line>, b: seq<Line>)
    requires IsIndex(entries, a) && IsIndex(entries, b)
    ensures a == b
  {
    hide Shipped, Ascending, Listed;
    forall path ensures path in Paths(a) <==> path in Paths(b) {
      PathListed(a, path);
      PathListed(b, path);
      if package: string :| Listed(a, path, package) { assert Shipped(entries, path, package); }
      if package: string :| Listed(b, path, package) { assert Shipped(entries, path, package); }
    }
    AscendingUnique(Paths(a), Paths(b));
    forall i | 0 <= i < |a| ensures a[i] == b[i] {
      assert Paths(a)[i] == Paths(b)[i];
      forall package ensures package in a[i].packages <==> package in b[i].packages {
        ListedAt(a, i, package);
        ListedAt(b, i, package);
      }
      AscendingUnique(a[i].packages, b[i].packages);
    }
  }

  // ----- The text

  const PATH_WIDTH: nat := 55

  function Spaces(n: nat): string {
    seq(n, _ => ' ')
  }

  function Padded(path: string): string {
    path + if |path| < PATH_WIDTH then Spaces(PATH_WIDTH - |path|) else ""
  }

  function Joined(packages: seq<string>): string {
    if packages == [] then "" else if |packages| == 1 then packages[0] else packages[0] + "," + Joined(packages[1..])
  }

  function Text(lines: seq<Line>): string {
    if lines == [] then ""
    else Text(lines[..|lines| - 1]) + Padded(lines[|lines| - 1].path) + " " + Joined(lines[|lines| - 1].packages) + "\n"
  }

  // ----- Reading it back

  function FirstIndex(text: string, c: char): (i: nat)
    ensures i <= |text| && (c in text ==> i < |text| && text[i] == c) && c !in text[..i]
  {
    if text == "" || text[0] == c then 0 else 1 + FirstIndex(text[1..], c)
  }

  function Split(text: string, c: char): (parts: seq<string>)
    ensures parts != []
    decreases |text|
  {
    var i := FirstIndex(text, c);
    if i == |text| then [text] else [text[..i]] + Split(text[i + 1..], c)
  }

  /** Without trailing spaces. */
  function Stripped(text: string): string
    decreases |text|
  {
    if text != "" && text[|text| - 1] == ' ' then Stripped(text[..|text| - 1]) else text
  }

  /** The packages come after the last space, separated by commas; the path comes before, and
      is followed by spaces up to its column. */
  function ReadLine(line: string): Line {
    var words := Split(line, ' ');
    var last := words[|words| - 1];
    Line(Stripped(if |last| < |line| then line[..|line| - |last| - 1] else ""), Split(last, ','))
  }

  function ReadLines(lines: seq<string>): seq<Line> {
    if lines == [] then [] else [ReadLine(lines[0])] + ReadLines(lines[1..])
  }

  /** Every line ends with a newline. */
  function ReadText(text: string): seq<Line> {
    var lines := Split(text, '\n');
    ReadLines(lines[..|lines| - 1])
  }

  ghost predicate GoodLine(line: Line) {
    && '\n' !in line.path && (line.path != "" ==> line.path[|line.path| - 1] != ' ')
    && line.packages != []
    && forall i :: 0 <= i < |line.packages| ==> ' ' !in line.packages[i] && ',' !in line.packages[i] && '\n' !in line.packages[i]
  }

  lemma {:induction false} FirstIndexOf(first: string, c: char, rest: string)
    requires c !in first
    ensures FirstIndex(first + [c] + rest, c) == |first|
  {
    var text := first + [c] + rest;
    if first != "" {
      assert text[1..] == first[1..] + [c] + rest && text[0] == first[0];
      FirstIndexOf(first[1..], c, rest);
    }
  }

  lemma SplitFirst(first: string, c: char, rest: string)
    requires c !in first
    ensures Split(first + [c] + rest, c) == [first] + Split(rest, c)
  {
    FirstIndexOf(first, c, rest);
    assert (first + [c] + rest)[..|first|] == first && (first + [c] + rest)[|first| + 1..] == rest;
  }

  lemma SplitNone(text: string, c: char)
    requires c !in text
    ensures Split(text, c) == [text]
  {
  }

  /** The part after the last separator. */
  lemma {:induction false} SplitLast(before: string, c: char, last: string)
    requires c !in last
    ensures
      var parts := Split(before + [c] + last, c);
      parts[|parts| - 1] == last
    decreases |before|
  {
    hide Split, FirstIndex;
    var text := before + [c] + last;
    if c in before {
      var i := FirstIndex(before, c);
      assert before == before[..i] + [c] + before[i + 1..];
      var rest := before[i + 1..] + [c] + last;
      assert text == before[..i] + [c] + rest;
      SplitFirst(before[..i], c, rest);
      SplitLast(before[i + 1..], c, last);
    } else {
      SplitFirst(before, c, last);
      SplitNone(last, c);
    }
  }

  lemma {:induction false} ReadPackages(packages: seq<string>)
    requires packages != [] && forall i :: 0 <= i < |packages| ==> ',' !in packages[i]
    ensures Split(Joined(packages), ',') == packages
  {
    if |packages| == 1 {
      SplitNone(packages[0], ',');
    } else {
      ReadPackages(packages[1..]);
      assert packages[0] + "," + Joined(packages[1..]) == packages[0] + [','] + Joined(packages[1..]);
      SplitFirst(packages[0], ',', Joined(packages[1..]));
      assert packages == [packages[0]] + packages[1..];
    }
  }

  lemma {:induction false} JoinedHas(packages: seq<string>, c: char)
    requires c != ',' && forall i :: 0 <= i < |packages| ==> c !in packages[i]
    ensures c !in Joined(packages)
  {
    if |packages| > 1 {
      JoinedHas(packages[1..], c);
      assert c !in ",";
    }
  }

  lemma {:induction false} StripSpaces(path: string, n: nat)
    requires path != "" ==> path[|path| - 1] != ' '
    ensures Stripped(path + Spaces(n)) == path
  {
    if n == 0 {
      assert path + Spaces(0) == path;
    } else {
      assert (path + Spaces(n))[..|path| + n - 1] == path + Spaces(n - 1);
      StripSpaces(path, n - 1);
    }
  }

  /** The columns: the packages start after at least 55 characters and a space. */
  lemma PathColumn(path: string)
    ensures |Padded(path)| == (if |path| < 55 then 55 else |path|) && path <= Padded(path)
    ensures forall i :: |path| <= i < |Padded(path)| ==> Padded(path)[i] == ' '
  {
  }

  lemma LineReadsBack(line: Line)
    requires GoodLine(line)
    ensures ReadLine(Padded(line.path) + " " + Joined(line.packages)) == line
    ensures '\n' !in Padded(line.path) + " " + Joined(line.packages)
  {
    hide Split, Joined, Stripped, Padded;
    var padded, joined := Padded(line.path), Joined(line.packages);
    var text := padded + " " + joined;
    JoinedHas(line.packages, ' ');
    JoinedHas(line.packages, '\n');
    PathColumn(line.path);
    assert '\n' !in padded by {
      forall i | 0 <= i < |padded| ensures padded[i] != '\n' {
        if i < |line.path| { assert padded[i] == line.path[i]; }
      }
    }
    assert text == padded + [' '] + joined;
    SplitLast(padded, ' ', joined);
    assert text[..|text| - |joined| - 1] == padded;
    StripPadded(line.path);
    ReadPackages(line.packages);
  }

  lemma StripPadded(path: string)
    requires path != "" ==> path[|path| - 1] != ' '
    ensures Stripped(Padded(path)) == path
  {
    hide Stripped;
    if |path| < PATH_WIDTH {
      StripSpaces(path, PATH_WIDTH - |path|);
    } else {
      StripSpaces(path, 0);
      assert Padded(path) == path + "" == path && path + Spaces(0) == path;
    }
  }

  lemma {:induction false} ReadLinesBoth(a: seq<string>, b: seq<string>)
    ensures ReadLines(a + b) == ReadLines(a) + ReadLines(b)
  {
    hide ReadLine;
    if a == [] {
      assert a + b == b;
    } else {
      assert (a + b)[1..] == a[1..] + b;
      ReadLinesBoth(a[1..], b);
    }
  }

  lemma {:induction false} SplitBoth(a: string, c: char, b: string)
    ensures Split(a + [c] + b, c) == Split(a, c) + Split(b, c)
    decreases |a|
  {
    hide Split, FirstIndex;
    if c in a {
      var i := FirstIndex(a, c);
      assert a == a[..i] + [c] + a[i + 1..];
      SplitFirst(a[..i], c, a[i + 1..]);
      var rest := a[i + 1..] + [c] + b;
      assert a + [c] + b == a[..i] + [c] + rest;
      SplitFirst(a[..i], c, rest);
      SplitBoth(a[i + 1..], c, b);
    } else {
      SplitNone(a, c);
      SplitFirst(a, c, b);
    }
  }

  lemma {:induction false} ReadsBack(lines: seq<Line>)
    requires forall i :: 0 <= i < |lines| ==> GoodLine(lines[i])
    ensures ReadText(Text(lines)) == lines
    ensures Split(Text(lines), '\n')[|Split(Text(lines), '\n')| - 1] == ""
    decreases |lines|
  {
    hide ReadLine, GoodLine, Split, Padded, Joined;
    if lines == [] {
      SplitNone("", '\n');
    } else {
      var n := |lines| - 1;
      ReadsBack(lines[..n]);
      var before, last := Text(lines[..n]), Padded(lines[n].path) + " " + Joined(lines[n].packages);
      LineReadsBack(lines[n]);
      LastTextLine(before, last);
      var parts := Split(before, '\n');
      ReadLinesBoth(parts[..|parts| - 1], [last]);
      assert [last][1..] == [] && ReadLines([last]) == [ReadLine(last)] + ReadLines([]);
      assert Text(lines) == before + last + "\n" by { assert before + (last + "\n") == before + last + "\n"; TextOfLast(lines); }
      assert lines == lines[..n] + [lines[n]];
    }
  }

  lemma TextOfLast(lines: seq<Line>)
    requires lines != []
    ensures
      var n := |lines| - 1;
      Text(lines) == Text(lines[..n]) + (Padded(lines[n].path) + " " + Joined(lines[n].packages)) + "\n"
  {
    hide Padded, Joined;
  }

  lemma LastTextLine(before: string, last: string)
    requires '\n' !in last && Split(before, '\n')[|Split(before, '\n')| - 1] == ""
    ensures
      var parts, all := Split(before, '\n'), Split(before + last + "\n", '\n');
      all == parts[..|parts| - 1] + [last] + [""]
  {
    var parts := Split(before, '\n');
    assert before + last + "\n" == (before + last) + ['\n'] + "";
    SplitBoth(before + last, '\n', "");
    SplitNone("", '\n');
    SplitExtend(before, '\n', last);
  }

  lemma {:induction false} SplitExtend(before: string, c: char, last: string)
    requires c !in last && Split(before, c)[|Split(before, c)| - 1] == ""
    ensures Split(before + last, c) == Split(before, c)[..|Split(before, c)| - 1] + [last]
    decreases |before|
  {
    hide Split, FirstIndex;
    if c in before {
      var i := FirstIndex(before, c);
      assert before == before[..i] + [c] + before[i + 1..];
      SplitFirst(before[..i], c, before[i + 1..]);
      assert before + last == before[..i] + [c] + (before[i + 1..] + last);
      SplitFirst(before[..i], c, before[i + 1..] + last);
      SplitExtend(before[i + 1..], c, last);
    } else {
      SplitNone(before, c);
      assert before == "" && before + last == last;
      SplitNone(last, c);
    }
  }

  /** Reading the text back gives an index of the entries: every path once, in order, with
      all the packages that ship it and no others. */
  lemma TextReadsBack(entries: seq<ContentsEntry>, out: string)
    requires IsTextOf(entries, out)
    requires forall e, path :: 0 <= e < |entries| && path in entries[e].files ==>
      && '\n' !in path && (path != "" ==> path[|path| - 1] != ' ')
      && ' ' !in entries[e].qualifiedName && ',' !in entries[e].qualifiedName && '\n' !in entries[e].qualifiedName
    ensures IsIndex(entries, ReadText(out))
  {
    hide Text, Ascending, ReadText;
    var lines: seq<Line> :| IsIndex(entries, lines) && out == Text(lines);
    forall i | 0 <= i < |lines| ensures GoodLine(lines[i]) {
      forall p | p in lines[i].packages ensures Shipped(entries, lines[i].path, p) {
        assert Listed(lines, lines[i].path, p);
      }
      assert lines[i].packages[0] in lines[i].packages;
      forall k | 0 <= k < |lines[i].packages|
        ensures ' ' !in lines[i].packages[k] && ',' !in lines[i].packages[k] && '\n' !in lines[i].packages[k]
      {
        assert lines[i].packages[k] in lines[i].packages;
      }
    }
    ReadsBack(lines);
  }

  ghost predicate Indexed(byPath: map<string, set<string>>, path: string, package: string) {
    path in byPath && package in byPath[path]
  }

  /** The reverse index. */
  method ByPath(entries: seq<ContentsEntry>) returns (byPath: map<string, set<string>>)
    ensures forall path, package :: Indexed(byPath, path, package) <==> Shipped(entries, path, package)
    ensures forall path :: path in byPath ==> byPath[path] != {}
  {
    byPath := map[];
    for e := 0 to |entries|
      invariant forall path, package :: Indexed(byPath, path, package) <==> Shipped(entries[..e], path, package)
      invariant forall path :: path in byPath ==> byPath[path] != {}
    {
      var entry := entries[e];
      for f := 0 to |entry.files|
        invariant forall path, package :: Indexed(byPath, path, package) <==>
          Shipped(entries[..e], path, package) || (package == entry.qualifiedName && path in entry.files[..f])
        invariant forall path :: path in byPath ==> byPath[path] != {}
      {
        var file := entry.files[f];
        assert entry.files[..f + 1] == entry.files[..f] + [file];
        ghost var before := byPath;
        byPath := byPath[file := (if file in byPath then byPath[file] else {}) + {entry.qualifiedName}];
        forall path, package
          ensures Indexed(byPath, path, package) <==> Indexed(before, path, package) || (path == file && package == entry.qualifiedName)
        {
        }
      }
      assert entry.files[..|entry.files|] == entry.files;
      forall path, package
        ensures Shipped(entries[..e + 1], path, package) <==>
          Shipped(entries[..e], path, package) || (package == entry.qualifiedName && path in entry.files)
      {
        OneMoreEntry(entries, e, path, package);
      }
    }
    assert entries[..|entries|] == entries;
  }

  lemma OneMoreEntry(entries: seq<ContentsEntry>, e: nat, path: string, package: string)
    requires e < |entries|
    ensures Shipped(entries[..e + 1], path, package) <==>
      Shipped(entries[..e], path, package) || (package == entries[e].qualifiedName && path in entries[e].files)
  {
    if Shipped(entries[..e], path, package) {
      var i :| 0 <= i < e && entries[..e][i].qualifiedName == package && path in entries[..e][i].files;
      assert entries[..e + 1][i] == entries[..e][i];
    }
    if package == entries[e].qualifiedName && path in entries[e].files { assert entries[..e + 1][e] == entries[e]; }
    if Shipped(entries[..e + 1], path, package) {
      var i :| 0 <= i < e + 1 && entries[..e + 1][i].qualifiedName == package && path in entries[..e + 1][i].files;
      if i < e { assert entries[..e][i] == entries[..e + 1][i]; }
    }
  }

  /** The text of the index of the entries. */
  ghost predicate IsTextOf(entries: seq<ContentsEntry>, out: string) {
    exists lines :: IsIndex(entries, lines) && out == Text(lines)
  }

  /** The entries determine the text. */
  lemma TextIsUnique(entries: seq<ContentsEntry>, a: string, b: string)
    requires IsTextOf(entries, a) && IsTextOf(entries, b)
    ensures a == b
  {
    hide IsIndex, Text;
    var lines :| IsIndex(entries, lines) && a == Text(lines);
    var more :| IsIndex(entries, more) && b == Text(more);
    IndexIsUnique(entries, lines, more);
  }

  method FormatContents(entries: seq<ContentsEntry>) returns (out: string)
    ensures IsTextOf(entries, out)
  {
    hide Less, Shipped, Padded, Joined, Text, Ascending, LinesOf, IsIndex, Indexed;
    var byPath := ByPath(entries);
    var paths := InOrder(byPath.Keys);
    out := "";
    ghost var lines: seq<Line> := [];
    assert LinesOf(byPath, paths, []) && Text([]) == "" by { hide *; NoLines(byPath, paths); }
    for i := 0 to |paths|
      invariant |lines| == i && LinesOf(byPath, paths, lines) && out == Text(lines)
    {
      assert paths[i] in paths;
      var packages := InOrder(byPath[paths[i]]);
      NextLine(byPath, paths, lines, packages);
      out := out + Padded(paths[i]) + " " + Joined(packages) + "\n";
      lines := lines + [Line(paths[i], packages)];
    }
    MakesIndex(entries, byPath, paths, lines);
  }

  /** The lines of the first paths. */
  ghost predicate LinesOf(byPath: map<string, set<string>>, paths: seq<string>, lines: seq<Line>) {
    |lines| <= |paths| && forall k :: 0 <= k < |lines| ==> LineOf(byPath, paths[k], lines[k])
  }

  lemma NoLines(byPath: map<string, set<string>>, paths: seq<string>)
    ensures LinesOf(byPath, paths, []) && Text([]) == ""
  {
  }

  lemma NextLine(byPath: map<string, set<string>>, paths: seq<string>, lines: seq<Line>, packages: seq<string>)
    requires LinesOf(byPath, paths, lines) && |lines| < |paths|
    requires paths[|lines|] in byPath && byPath[paths[|lines|]] != {}
    requires Ascending(packages) && forall p :: p in packages <==> p in byPath[paths[|lines|]]
    ensures
      var line := Line(paths[|lines|], packages);
      && LinesOf(byPath, paths, lines + [line])
      && Text(lines + [line]) == Text(lines) + Padded(line.path) + " " + Joined(packages) + "\n"
  {
    hide Ascending, Padded, Joined;
    var more := lines + [Line(paths[|lines|], packages)];
    assert more[..|lines|] == lines;
    NotNone(byPath[paths[|lines|]], packages);
  }

  ghost predicate LineOf(byPath: map<string, set<string>>, path: string, line: Line) {
    && path in byPath && line.path == path && Ascending(line.packages) && line.packages != []
    && forall p :: p in byPath[path] <==> p in line.packages
  }

  lemma NotNone(packages: set<string>, s: seq<string>)
    requires packages != {} && forall p :: p in packages <==> p in s
    ensures s != []
  {
    var p :| p in packages;
    assert p in s;
  }

  lemma MakesIndex(entries: seq<ContentsEntry>, byPath: map<string, set<string>>, paths: seq<string>, lines: seq<Line>)
    requires forall path, package :: Indexed(byPath, path, package) <==> Shipped(entries, path, package)
    requires Ascending(paths) && forall k :: k in byPath.Keys <==> k in paths
    requires |lines| == |paths| && LinesOf(byPath, paths, lines)
    ensures IsIndex(entries, lines)
  {
    hide Less, Shipped;
    assert Paths(lines) == paths;
    forall path, package ensures Listed(lines, path, package) <==> Indexed(byPath, path, package) {
      if Indexed(byPath, path, package) {
        assert path in paths;
        var i :| 0 <= i < |paths| && paths[i] == path;
        assert LineOf(byPath, paths[i], lines[i]);
      }
    }
  }
}
