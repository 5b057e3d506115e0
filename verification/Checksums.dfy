/** The checksum list of a release: its canonical line format, and the test that binds it to the
    payload of the manifest. Digests are opaque lowercase text. */
module Checksums {
  import opened Basics
  import opened Paths

  datatype InventoryItem = InventoryItem(sha256: string, sizeBytes: nat)

  datatype Line = Line(path: string, digest: string)

  const MANIFEST_PATH := "metadata/release-manifest.json"
  const MINIMUM_LINE: nat := 67

  // ---------------------------------------------------------------- reading

  function NonEmpty(parts: seq<string>): (kept: seq<string>)
    ensures forall p :: p in kept <==> p in parts && p != ""
  {
    if parts == [] then [] else (if parts[0] != "" then [parts[0]] else []) + NonEmpty(parts[1..])
  }

  function ReadLine(line: string): Result<Line> {
    if |line| < MINIMUM_LINE || line[64] != ' ' || line[65] != '*' then Failure("release checksum line is malformed")
    else if !IsSha256(line[..64]) then Failure("SHA-256 is not lowercase hexadecimal")
    else if !SafePath(line[66..]) then Failure("unsafe release path")
    else Success(Line(line[66..], line[..64]))
  }

  function ReadLines(lines: seq<string>, result: map<string, string>): Result<map<string, string>>
    decreases |lines|
  {
    if lines == [] then Success(result)
    else
      var line := ReadLine(lines[0]);
      if line.Failure? then Failure(line.error)
      else if line.value.path in result then Failure("duplicate checksum path")
      else ReadLines(lines[1..], result[line.value.path := line.value.digest])
  }

  function Parsed(text: string): Result<map<string, string>> {
    if text == "" || text[|text| - 1] != '\n' || '\r' in text then
      Failure("release checksums are not canonical LF UTF-8")
    else ReadLines(NonEmpty(Split(text, '\n')), map[])
  }

  method ParseChecksums(text: string) returns (result: Result<map<string, string>>)
    ensures result == Parsed(text)
  {
    hide ReadLine, Split;
    if text == "" || text[|text| - 1] != '\n' || '\r' in text {
      return Failure("release checksums are not canonical LF UTF-8");
    }
    var lines, entries := NonEmpty(Split(text, '\n')), map[];
    for i := 0 to |lines|
      invariant ReadLines(lines[i..], entries) == Parsed(text)
    {
      var line := ReadLine(lines[i]);
      assert lines[i..][1..] == lines[i + 1..];
      if line.Failure? {
        return Failure(line.error);
      }
      if line.value.path in entries {
        return Failure("duplicate checksum path");
      }
      entries := entries[line.value.path := line.value.digest];
    }
    result := Success(entries);
  }

  // ---------------------------------------------------------------- printing

  function PrintLine(line: Line): string { line.digest + " *" + line.path }

  function PrintAll(lines: seq<Line>): seq<string> {
    if lines == [] then [] else [PrintLine(lines[0])] + PrintAll(lines[1..])
  }

  /** The canonical list: one line per entry, each ended by a line feed. */
  function Print(lines: seq<Line>): string {
    if lines == [] then "" else PrintLine(lines[0]) + "\n" + Print(lines[1..])
  }

  ghost predicate Printable(lines: seq<Line>) {
    && (forall i :: 0 <= i < |lines| ==> SafePath(lines[i].path) && IsSha256(lines[i].digest))
    && (forall i, j :: 0 <= i < j < |lines| ==> lines[i].path != lines[j].path)
  }

  function Entries(lines: seq<Line>): map<string, string> {
    if lines == [] then map[] else Entries(lines[..|lines| - 1])[lines[|lines| - 1].path := lines[|lines| - 1].digest]
  }

  lemma PrintedLine(line: Line)
    requires SafePath(line.path) && IsSha256(line.digest)
    ensures ReadLine(PrintLine(line)) == Success(line)
    ensures '\n' !in PrintLine(line) && '\r' !in PrintLine(line) && PrintLine(line) != ""
  {
    hide SafePart, Split, IsHex;
    var text := PrintLine(line);
    assert text[..64] == line.digest && text[66..] == line.path && text[64] == ' ' && text[65] == '*';
    SafePathHasNoBreak(line.path);
    HexHasNoBreak(line.digest);
    forall i | 0 <= i < |text| ensures text[i] != '\n' && text[i] != '\r' {
      if i < 64 {
        assert text[i] == line.digest[i];
      } else if i > 65 {
        assert text[i] == line.path[i - 66];
      }
    }
    assert line.path != "";
  }

  lemma HexHasNoBreak(text: string)
    requires IsSha256(text)
    ensures '\n' !in text && '\r' !in text
  {
  }

  lemma {:induction false} PrintEnds(lines: seq<Line>)
    requires Printable(lines)
    ensures '\r' !in Print(lines)
    ensures lines != [] ==> Print(lines) != "" && Print(lines)[|Print(lines)| - 1] == '\n'
  {
    hide SafePath, IsSha256, PrintLine;
    if lines != [] {
      PrintedLine(lines[0]);
      PrintEnds(lines[1..]);
      var line, rest := PrintLine(lines[0]) + "\n", Print(lines[1..]);
      assert rest != "" ==> (line + rest)[|line + rest| - 1] == rest[|rest| - 1];
    }
  }

  lemma {:induction false} PrintSplits(lines: seq<Line>)
    requires Printable(lines)
    ensures NonEmpty(Split(Print(lines), '\n')) == PrintAll(lines)
  {
    hide SafePath, IsSha256, PrintLine;
    if lines == [] {
      assert Split("", '\n') == [""];
    } else {
      var first, rest := PrintLine(lines[0]), Print(lines[1..]);
      PrintedLine(lines[0]);
      PrintSplits(lines[1..]);
      assert first + "\n" + rest == first + ['\n'] + rest;
      SplitHead(first, rest, '\n');
      hide Split;
      var parts := [first] + Split(rest, '\n');
      assert parts[1..] == Split(rest, '\n');
    }
  }

  lemma {:induction false} ReadPrinted(done: seq<Line>, lines: seq<Line>)
    requires Printable(done + lines)
    ensures ReadLines(PrintAll(lines), Entries(done)) ==
            Success(Entries(done + lines))
    decreases |lines|
  {
    hide SafePath, IsSha256, PrintLine, ReadLine;
    var texts := PrintAll(lines);
    if lines == [] {
      assert done + lines == done;
    } else {
      var all, line, rest, more := done + lines, lines[0], lines[1..], done + [lines[0]];
      assert all[|done|] == line && all == more + rest;
      PrintedLine(line);
      EntriesPaths(done);
      forall i | 0 <= i < |done| ensures done[i].path != line.path {
        assert all[i] == done[i] && all[|done|] == line;
      }
      assert more[..|done|] == done;
      ReadPrinted(more, rest);
      assert texts[1..] == PrintAll(rest) && texts[0] == PrintLine(line);
    }
  }

  lemma {:induction false} EntriesPaths(lines: seq<Line>)
    ensures forall p :: p in Entries(lines) <==> exists i :: 0 <= i < |lines| && lines[i].path == p
  {
    if lines != [] {
      EntriesPaths(lines[..|lines| - 1]);
    }
  }

  /** Parsing undoes printing for every nonempty list of distinct safe paths with their digests.
      The empty list prints to the empty text, which is refused. */
  lemma ParsePrint(lines: seq<Line>)
    requires Printable(lines)
    ensures lines != [] ==> Parsed(Print(lines)) == Success(Entries(lines))
    ensures lines == [] ==> Parsed(Print(lines)).Failure?
  {
    hide Printable, ReadLines, Entries, PrintLine, Split, NonEmpty;
    if lines != [] {
      PrintEnds(lines);
      PrintSplits(lines);
      assert [] + lines == lines;
      ReadPrinted([], lines);
      assert Entries([]) == map[] by { NoEntries(); }
    }
  }

  lemma NoEntries()
    ensures Entries([]) == map[]
  {
  }

  lemma ReadLineMeans(text: string)
    ensures ReadLine(text).Success? ==>
      var line := ReadLine(text).value;
      PrintLine(line) == text && SafePath(line.path) && IsSha256(line.digest)
  {
    hide SafePath, IsSha256;
    if ReadLine(text).Success? {
      assert text == text[..64] + text[64..66] + text[66..];
    }
  }

  /** Adding a line under a new path keeps a list printable. */
  lemma PrintableMore(done: seq<Line>, line: Line)
    requires Printable(done) && SafePath(line.path) && IsSha256(line.digest) && line.path !in Entries(done)
    ensures Printable(done + [line]) && Entries(done + [line]) == Entries(done)[line.path := line.digest]
  {
    hide SafePath, IsSha256;
    EntriesPaths(done);
    var more := done + [line];
    assert more[..|done|] == done;
    forall i | 0 <= i < |done| ensures done[i].path != line.path {
    }
  }

  /** Only printed lines parse: an accepted text is a canonical list up to blank lines. */
  lemma {:induction false} ReadMeans(done: seq<Line>, texts: seq<string>) returns (lines: seq<Line>)
    requires Printable(done) && ReadLines(texts, Entries(done)).Success?
    ensures Printable(done + lines) && ReadLines(texts, Entries(done)) == Success(Entries(done + lines))
    ensures texts == PrintAll(lines)
    decreases |texts|
  {
    hide Printable, Entries, PrintLine, ReadLine;
    if texts == [] {
      lines := [];
      assert done + lines == done;
    } else {
      ReadLineMeans(texts[0]);
      var line := ReadLine(texts[0]).value;
      PrintableMore(done, line);
      var rest := ReadMeans(done + [line], texts[1..]);
      lines := [line] + rest;
      assert done + lines == done + [line] + rest;
      assert lines[0] == line && lines[1..] == rest;
    }
  }

  /** What acceptance of a text says about it. */
  lemma ParsedMeans(text: string) returns (lines: seq<Line>)
    requires Parsed(text).Success?
    ensures Printable(lines) && Parsed(text) == Success(Entries(lines))
    ensures NonEmpty(Split(text, '\n')) == PrintAll(lines)
  {
    lines := ReadMeans([], NonEmpty(Split(text, '\n')));
    assert [] + lines == lines;
  }

  // ---------------------------------------------------------------- binding

  ghost function Expected(payload: map<string, InventoryItem>, manifestSha256: string): map<string, string> {
    (map p | p in payload :: payload[p].sha256)[MANIFEST_PATH := manifestSha256]
  }

  /** The checksums bind the payload exactly: accepted if and only if the parsed map is the payload
      with the manifest. A payload that already lists the manifest makes the second Add throw. */
  method BindChecksums(payload: map<string, InventoryItem>, manifestSha256: string, entries: map<string, string>)
    returns (bound: bool)
    requires IsSha256(manifestSha256)
    requires forall p :: p in payload ==> IsSha256(payload[p].sha256)
    requires forall p :: p in entries ==> IsSha256(entries[p])
    ensures bound <==> MANIFEST_PATH !in payload && entries == Expected(payload, manifestSha256)
  {
    hide IsSha256, FixedEqualsHex;
    if MANIFEST_PATH in payload {
      return false;
    }
    var expected := (map p | p in payload :: payload[p].sha256)[MANIFEST_PATH := manifestSha256];
    if |entries| != |expected| {
      return false;
    }
    var rest := expected.Keys;
    while rest != {}
      invariant rest <= expected.Keys
      invariant forall p :: p in expected && p !in rest ==> p in entries && entries[p] == expected[p]
    {
      var path :| path in rest;
      if path !in entries {
        return false;
      }
      FixedEqualsExact(expected[path], entries[path]);
      if !FixedEqualsHex(expected[path], entries[path]) {
        return false;
      }
      rest := rest - {path};
    }
    assert |entries.Keys| == |entries| && |expected.Keys| == |expected|;
    SubsetCardinality(expected.Keys, entries.Keys);
    bound := true;
  }
}
