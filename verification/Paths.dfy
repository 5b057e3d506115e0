/** Text checks shared by the Setup engine: lowercase digests and safe relative paths. */
module Paths {

  predicate IsHexDigit(c: char) { '0' <= c <= '9' || 'a' <= c <= 'f' }

  predicate IsHex(text: string) { forall i :: 0 <= i < |text| ==> IsHexDigit(text[i]) }

  predicate IsSha256(text: string) { |text| == 64 && IsHex(text) }

  function HexValue(c: char): nat
    requires IsHexDigit(c)
  {
    if c <= '9' then (c - '0') as nat else (c - 'a') as nat + 10
  }

  function HexBytes(text: string): seq<nat>
    requires IsSha256(text)
  {
    seq(32, i requires 0 <= i < 32 => 16 * HexValue(text[2 * i]) + HexValue(text[2 * i + 1]))
  }

  /** Digests are compared as bytes; on lowercase digests that is equality of the text. */
  predicate FixedEqualsHex(left: string, right: string)
    requires IsSha256(left) && IsSha256(right)
  {
    HexBytes(left) == HexBytes(right)
  }

  lemma FixedEqualsExact(left: string, right: string)
    requires IsSha256(left) && IsSha256(right)
    ensures FixedEqualsHex(left, right) <==> left == right
  {
    if FixedEqualsHex(left, right) {
      forall k | 0 <= k < 64 ensures left[k] == right[k] {
        assert HexBytes(left)[k / 2] == HexBytes(right)[k / 2];
        SameDigits(left[2 * (k / 2)], left[2 * (k / 2) + 1], right[2 * (k / 2)], right[2 * (k / 2) + 1]);
      }
    }
  }

  lemma SameDigits(a: char, b: char, c: char, d: char)
    requires IsHexDigit(a) && IsHexDigit(b) && IsHexDigit(c) && IsHexDigit(d)
    requires 16 * HexValue(a) + HexValue(b) == 16 * HexValue(c) + HexValue(d)
    ensures a == c && b == d
  {
    assert HexValue(b) < 16 && HexValue(d) < 16;
  }

  predicate IsBlank(text: string) {
    forall i :: 0 <= i < |text| ==> text[i] in {' ', '\t', '\r', '\n'}
  }

  /** String.Split on one character: never empty, parts free of the separator. */
  function Split(text: string, separator: char): (parts: seq<string>)
    ensures |parts| >= 1
    ensures forall i :: 0 <= i < |parts| ==> separator !in parts[i]
  {
    if text == [] then [""]
    else if text[0] == separator then [""] + Split(text[1..], separator)
    else
      var rest := Split(text[1..], separator);
      [[text[0]] + rest[0]] + rest[1..]
  }

  function Join(parts: seq<string>, separator: char): string
    requires |parts| >= 1
  {
    if |parts| == 1 then parts[0] else parts[0] + [separator] + Join(parts[1..], separator)
  }

  /** Splitting undoes joining, for parts that do not contain the separator. */
  lemma {:induction false} SplitJoin(parts: seq<string>, separator: char)
    requires |parts| >= 1 && forall i :: 0 <= i < |parts| ==> separator !in parts[i]
    ensures Split(Join(parts, separator), separator) == parts
  {
    if |parts| == 1 {
      SplitWhole(parts[0], separator);
    } else {
      var rest := Join(parts[1..], separator);
      SplitJoin(parts[1..], separator);
      SplitHead(parts[0], rest, separator);
      assert parts[0] + [separator] + rest == Join(parts, separator);
    }
  }

  lemma {:induction false} SplitWhole(text: string, separator: char)
    requires separator !in text
    ensures Split(text, separator) == [text]
  {
    if text != [] {
      SplitWhole(text[1..], separator);
      assert [text[0]] + text[1..] == text;
    }
  }

  lemma {:induction false} SplitHead(head: string, rest: string, separator: char)
    requires separator !in head
    ensures Split(head + [separator] + rest, separator) == [head] + Split(rest, separator)
  {
    var text := head + [separator] + rest;
    if head == [] {
      assert text[1..] == rest;
    } else {
      assert text[1..] == head[1..] + [separator] + rest;
      SplitHead(head[1..], rest, separator);
      assert [head[0]] + head[1..] == head;
    }
  }

  function Upper(text: string): string {
    seq(|text|, i requires 0 <= i < |text| =>
      if 'a' <= text[i] <= 'z' then text[i] - 'a' + 'A' else text[i])
  }

  /** The Windows device names, which name no file whatever their extension. */
  predicate IsReservedName(name: string) {
    || name in {"CON", "PRN", "AUX", "NUL"}
    || (|name| == 4 && name[..3] in {"COM", "LPT"} && '1' <= name[3] <= '9')
  }

  predicate SafePart(part: string) {
    && part !in {"", ".", ".."}
    && part[|part| - 1] !in {' ', '.'}
    && (forall i :: 0 <= i < |part| ==>
          part[i] >= ' ' && part[i] !in {'<', '>', ':', '"', '|', '?', '*'})
    && !IsReservedName(Upper(Split(part, '.')[0]))
  }

  /** PathPolicy.ValidateRelative. A fully qualified path without a backslash or a leading
      slash carries a colon, which no part may hold. */
  predicate SafePath(path: string) {
    && !IsBlank(path) && '\\' !in path
    && path[0] != '/' && path[|path| - 1] != '/'
    && forall i :: 0 <= i < |Split(path, '/')| ==> SafePart(Split(path, '/')[i])
  }

  /** A safe path holds no control character, so no line break. */
  lemma {:induction false} PartsCoverText(text: string, separator: char, bound: char)
    requires forall i, k :: 0 <= i < |Split(text, separator)| && 0 <= k < |Split(text, separator)[i]| ==>
      Split(text, separator)[i][k] >= bound
    ensures forall k :: 0 <= k < |text| ==> text[k] >= bound || text[k] == separator
  {
    if text != [] {
      var parts, rest := Split(text, separator), Split(text[1..], separator);
      if text[0] == separator {
        assert forall i :: 0 <= i < |rest| ==> rest[i] == parts[i + 1];
      } else {
        assert parts[0][0] == text[0];
        assert forall k :: 0 <= k < |rest[0]| ==> rest[0][k] == parts[0][k + 1];
        assert forall i :: 1 <= i < |rest| ==> rest[i] == parts[i];
      }
      PartsCoverText(text[1..], separator, bound);
      assert forall k :: 1 <= k < |text| ==> text[k] == text[1..][k - 1];
    }
  }

  lemma SafePathHasNoBreak(path: string)
    requires SafePath(path)
    ensures '\n' !in path && '\r' !in path && '\0' !in path
  {
    PartsCoverText(path, '/', ' ');
  }

  // ---------------------------------------------------------------- which paths and digests pass

  const HEX_DIGITS := "0123456789abcdef"

  /** A digit stands for its place in the list of digits. */
  lemma HexDigitMeans(c: char)
    ensures IsHexDigit(c) <==> c in HEX_DIGITS
    ensures forall i :: 0 <= i < 16 && HEX_DIGITS[i] == c ==> IsHexDigit(c) && HexValue(c) == i
  {
    if IsHexDigit(c) {
      assert HEX_DIGITS[HexValue(c)] == c;
    }
  }

  const DEVICES := {
    "CON", "PRN", "AUX", "NUL", "COM1", "COM2", "COM3", "COM4", "COM5", "COM6", "COM7", "COM8", "COM9",
    "LPT1", "LPT2", "LPT3", "LPT4", "LPT5", "LPT6", "LPT7", "LPT8", "LPT9"}

  predicate SameLetter(c: char, upper: char) { c == upper || ('A' <= upper <= 'Z' && c == upper - 'A' + 'a') }

  /** The part is the device name in any case, bare or with an extension. */
  predicate NamesDevice(part: string, device: string) {
    && |device| <= |part| && (forall i :: 0 <= i < |device| ==> SameLetter(part[i], device[i]))
    && (|part| == |device| || part[|device|] == '.')
  }

  /** What one component of a path may be. */
  predicate PlainName(part: string) {
    && part != "" && part[|part| - 1] != ' ' && part[|part| - 1] != '.'
    && (forall c :: c in part ==> 32 <= c as int && c !in "<>:\"|?*/\\")
    && (forall device :: device in DEVICES ==> !NamesDevice(part, device))
  }

  lemma DevicesMean(name: string)
    ensures IsReservedName(name) <==> name in DEVICES
  {
    if |name| == 4 {
      assert name == [name[0], name[1], name[2], name[3]];
      assert name[..3] == [name[0], name[1], name[2]];
    }
  }

  lemma UpperMeans(text: string, name: string)
    requires forall i :: 0 <= i < |name| ==> 'A' <= name[i] <= 'Z' || '0' <= name[i] <= '9'
    ensures Upper(text) == name <==> |text| == |name| && forall i :: 0 <= i < |name| ==> SameLetter(text[i], name[i])
  {
    if |text| == |name| && forall i :: 0 <= i < |name| ==> SameLetter(text[i], name[i]) {
      forall i | 0 <= i < |name| ensures Upper(text)[i] == name[i] {
        assert SameLetter(text[i], name[i]);
      }
    }
    if Upper(text) == name {
      forall i | 0 <= i < |name| ensures SameLetter(text[i], name[i]) {
        assert Upper(text)[i] == name[i];
      }
    }
  }

  /** The stem ends before the first dot. */
  lemma {:induction false} StemMeans(part: string)
    ensures var stem := Split(part, '.')[0];
            stem <= part && (stem == part || part[|stem|] == '.')
  {
    if part != "" && part[0] != '.' {
      StemMeans(part[1..]);
      assert [part[0]] + part[1..] == part;
    }
  }

  lemma DeviceStem(part: string, device: string)
    requires device in DEVICES
    ensures Upper(Split(part, '.')[0]) == device <==> NamesDevice(part, device)
  {
    var stem := Split(part, '.')[0];
    StemMeans(part);
    UpperMeans(stem, device);
    if NamesDevice(part, device) {
      forall i | 0 <= i < |device| ensures part[i] != '.' {
        assert SameLetter(part[i], device[i]);
      }
      assert |stem| == |device|;
    }
    if Upper(stem) == device {
      assert forall i :: 0 <= i < |stem| ==> stem[i] == part[i];
    }
  }

  lemma PartIff(part: string)
    ensures PlainName(part) <==> SafePart(part) && '/' !in part && '\\' !in part
  {
    var stem := Split(part, '.')[0];
    DevicesMean(Upper(stem));
    forall device | device in DEVICES ensures Upper(stem) == device <==> NamesDevice(part, device) {
      DeviceStem(part, device);
    }
    hide Split, Upper, NamesDevice, IsReservedName;
    assert forall i :: 0 <= i < |part| ==> part[i] in part;
  }

  lemma {:induction false} JoinSplit(text: string, separator: char)
    ensures Join(Split(text, separator), separator) == text
    ensures forall i, c :: 0 <= i < |Split(text, separator)| && c in Split(text, separator)[i] ==> c in text
    ensures forall c :: c in text ==> c == separator || exists i :: 0 <= i < |Split(text, separator)| && c in Split(text, separator)[i]
  {
    if text != [] {
      var tail, parts := text[1..], Split(text, separator);
      var rest := Split(tail, separator);
      JoinSplit(tail, separator);
      assert text == [text[0]] + tail;
      if text[0] == separator {
        assert parts == [""] + rest && parts[1..] == rest;
        assert forall i :: 0 <= i < |rest| ==> parts[i + 1] == rest[i];
      } else {
        assert parts == [[text[0]] + rest[0]] + rest[1..] && parts[1..] == rest[1..];
        assert forall i :: 1 <= i < |rest| ==> parts[i] == rest[i];
        assert forall c :: c in parts[0] <==> c == text[0] || c in rest[0];
      }
    }
  }

  /** Exactly which paths pass: plain names joined by slashes. */
  ghost predicate PlainPath(path: string) {
    exists parts :: |parts| >= 1 && Join(parts, '/') == path && forall part :: part in parts ==> PlainName(part)
  }

  lemma SafePathIff(path: string)
    ensures SafePath(path) <==> PlainPath(path)
  {
    if SafePath(path) {
      SafeIsPlain(path);
    }
    if parts :| |parts| >= 1 && Join(parts, '/') == path && forall part :: part in parts ==> PlainName(part) {
      PlainIsSafe(parts);
    }
  }

  lemma SafeIsPlain(path: string)
    requires SafePath(path)
    ensures PlainPath(path)
  {
    hide SafePart, PlainName, Join, Split;
    var parts := Split(path, '/');
    JoinSplit(path, '/');
    forall part | part in parts ensures PlainName(part) {
      var i :| 0 <= i < |parts| && parts[i] == part;
      PartIff(part);
    }
  }

  lemma PlainIsSafe(parts: seq<string>)
    requires |parts| >= 1 && forall part :: part in parts ==> PlainName(part)
    ensures SafePath(Join(parts, '/'))
  {
    hide Join, Split, SafePart, IsBlank, PlainName;
    var path := Join(parts, '/');
    PlainParts(parts);
    SplitJoin(parts, '/');
    JoinedEnds(parts);
    NoBackslash(parts);
  }

  lemma PlainParts(parts: seq<string>)
    requires forall part :: part in parts ==> PlainName(part)
    ensures forall i :: 0 <= i < |parts| ==> SafePart(parts[i]) && '/' !in parts[i] && '\\' !in parts[i] && parts[i] != ""
  {
    hide PlainName;
    forall i | 0 <= i < |parts| ensures SafePart(parts[i]) && '/' !in parts[i] && '\\' !in parts[i] && parts[i] != "" {
      assert parts[i] in parts;
      PartIff(parts[i]);
    }
  }

  lemma NoBackslash(parts: seq<string>)
    requires |parts| >= 1 && forall i :: 0 <= i < |parts| ==> '/' !in parts[i] && '\\' !in parts[i]
    ensures '\\' !in Join(parts, '/')
  {
    hide Join, Split;
    SplitJoin(parts, '/');
    JoinSplit(Join(parts, '/'), '/');
  }

  lemma JoinedEnds(parts: seq<string>)
    requires |parts| >= 1
    requires forall i :: 0 <= i < |parts| ==> SafePart(parts[i]) && '/' !in parts[i] && parts[i] != ""
    ensures var path := Join(parts, '/');
            !IsBlank(path) && path != "" && path[0] != '/' && path[|path| - 1] != '/'
  {
    hide Join, SafePart;
    var path, last := Join(parts, '/'), parts[|parts| - 1];
    JoinEnds(parts);
    NotBlankAtEnd(last);
    assert parts[0][0] in parts[0] && last[|last| - 1] in last;
    assert path[|path| - 1] == last[|last| - 1];
  }

  lemma NotBlankAtEnd(part: string)
    requires SafePart(part)
    ensures part != "" && part[|part| - 1] !in {' ', '\t', '\r', '\n'}
  {
    assert part[|part| - 1] >= ' ';
  }

  /** A joined path begins and ends as its parts do. */
  lemma {:induction false} JoinEnds(parts: seq<string>)
    requires |parts| >= 1 && forall i :: 0 <= i < |parts| ==> parts[i] != ""
    ensures var path := Join(parts, '/');
            path != "" && path[0] == parts[0][0] && path[|path| - 1] == parts[|parts| - 1][|parts[|parts| - 1]| - 1]
  {
    if |parts| > 1 {
      JoinEnds(parts[1..]);
    }
  }
}
