/** The section parser of `build_sdp_answer_with_ice` in src/protocol/sdp.rs. */
module SdpParse {
  import opened Basics
  import opened Text

  datatype Direction = SendRecv | RecvOnly | SendOnly | Inactive {
    function Name(): string {
      match this
      case SendRecv => "sendrecv"
      case RecvOnly => "recvonly"
      case SendOnly => "sendonly"
      case Inactive => "inactive"
    }
  }

  datatype MediaType = AudioMedia | VideoMedia | OtherMedia

  datatype Section = Section(
    mLine: string,
    codecLines: seq<string>,
    mid: string,
    direction: Direction,
    rsize: bool,
    mediaType: MediaType
  )

  /** What the parser does with a line of a section. */
  datatype LineKind = Media | Directs(direction: Direction) | Rsize | Skipped | Mid(mid: string) | Kept

  const SKIP_PREFIXES: seq<string> :=
    ["a=ice-", "a=fingerprint", "a=setup", "a=candidate",
     "a=sendrecv", "a=sendonly", "a=recvonly", "a=inactive",
     "a=rtcp-mux", "a=rtcp-rsize", "c=",
     "a=ssrc", "a=ssrc-group",
     "a=msid"]

  predicate Skips(line: string) {
    exists i :: 0 <= i < |SKIP_PREFIXES| && StartsWith(line, SKIP_PREFIXES[i])
  }

  function KindOf(line: string): LineKind {
    if StartsWith(line, "m=") then Media
    else if StartsWith(line, "a=sendrecv") then Directs(SendRecv)
    else if StartsWith(line, "a=recvonly") then Directs(RecvOnly)
    else if StartsWith(line, "a=sendonly") then Directs(SendOnly)
    else if StartsWith(line, "a=inactive") then Directs(Inactive)
    else if StartsWith(line, "a=rtcp-rsize") then Rsize
    else if Skips(line) then Skipped
    else if StartsWith(line, "a=mid:") then Mid(Trim(line[6..]))
    else Kept
  }

  /** Replaces the port of an m= line that has all four parts. */
  function SetPort(line: string, port: string): string {
    var parts := SplitN(line, 4);
    if |parts| == 4 then Spaced(parts[0], port, parts[2], parts[3]) else line
  }

  function MediaTypeOf(line: string): MediaType {
    if StartsWith(line, "m=audio") then AudioMedia
    else if StartsWith(line, "m=video") then VideoMedia
    else OtherMedia
  }

  function NewSection(line: string, port: string): Section {
    Section(SetPort(line, port), [], "", SendRecv, false, MediaTypeOf(line))
  }

  function Absorb(s: Section, line: string): Section {
    match KindOf(line)
    case Media => s
    case Directs(d) => s.(direction := d)
    case Rsize => s.(rsize := true)
    case Skipped => s
    case Mid(mid) => s.(mid := mid, codecLines := s.codecLines + [line])
    case Kept => s.(codecLines := s.codecLines + [line])
  }

  /** One line after the sections parsed so far; the last of them is the current one. */
  function Feed(sections: seq<Section>, line: string, port: string): seq<Section> {
    if KindOf(line).Media? then sections + [NewSection(line, port)]
    else if sections == [] then []
    else sections[|sections| - 1 := Absorb(sections[|sections| - 1], line)]
  }

  function Parse(lines: seq<string>, port: string): seq<Section> {
    if lines == [] then []
    else Feed(Parse(lines[..|lines| - 1], port), lines[|lines| - 1], port)
  }

  method ParseOffer(lines: seq<string>, port: string) returns (sections: seq<Section>)
    ensures sections == Parse(lines, port)
  {
    hide IndexOf, SplitN, Spaced, Trim, MediaTypeOf;
    sections := [];
    var current: Option<Section> := None;
    for i := 0 to |lines|
      invariant Parse(lines[..i], port) == if current.Some? then sections + [current.value] else sections
      invariant current.None? ==> sections == []
    {
      assert lines[..i + 1][..i] == lines[..i];
      var line := lines[i];
      if StartsWith(line, "m=") {
        if current.Some? {
          sections := sections + [current.value];
        }
        var parts := SplitN(line, 4);
        var mLine := if |parts| == 4 then Spaced(parts[0], port, parts[2], parts[3]) else line;
        current := Some(Section(mLine, [], "", SendRecv, false, MediaTypeOf(line)));
      } else if current.Some? {
        var s := current.value;
        assert KindOf(line) != Media;
        if StartsWith(line, "a=sendrecv") { s := s.(direction := SendRecv); }
        else if StartsWith(line, "a=recvonly") { s := s.(direction := RecvOnly); }
        else if StartsWith(line, "a=sendonly") { s := s.(direction := SendOnly); }
        else if StartsWith(line, "a=inactive") { s := s.(direction := Inactive); }
        else {
          if StartsWith(line, "a=rtcp-rsize") {
            assert StartsWith(line, SKIP_PREFIXES[9]);
            s := s.(rsize := true);
          }
          if !Skips(line) {
            if StartsWith(line, "a=mid:") {
              s := s.(mid := Trim(line[6..]));
            }
            s := s.(codecLines := s.codecLines + [line]);
          }
        }
        assert s == Absorb(current.value, line);
        current := Some(s);
      }
    }
    assert lines[..|lines|] == lines;
    if current.Some? {
      sections := sections + [current.value];
    }
  }

  // ------------------------------------------------------------------------
  // Parsing section by section
  // ------------------------------------------------------------------------

  predicate NoMedia(lines: seq<string>) {
    forall i :: 0 <= i < |lines| ==> !KindOf(lines[i]).Media?
  }

  function AbsorbAll(s: Section, lines: seq<string>): Section {
    if lines == [] then s
    else Absorb(AbsorbAll(s, lines[..|lines| - 1]), lines[|lines| - 1])
  }

  lemma {:induction false} AbsorbAppend(s: Section, a: seq<string>, b: seq<string>)
    ensures AbsorbAll(s, a + b) == AbsorbAll(AbsorbAll(s, a), b)
    decreases |b|
  {
    if b == [] {
      assert a + b == a;
    } else {
      var n := |b| - 1;
      AbsorbAppend(s, a, b[..n]);
      assert (a + b)[..|a + b| - 1] == a + b[..n];
    }
  }

  lemma AbsorbCons(s: Section, line: string, rest: seq<string>)
    ensures AbsorbAll(s, [line] + rest) == AbsorbAll(Absorb(s, line), rest)
  {
    AbsorbAppend(s, [line], rest);
    assert [line][..0] == [];
  }

  /** Lines in front of the first m= line are skipped. */
  lemma {:induction false} ParseHeader(lines: seq<string>, port: string)
    requires NoMedia(lines)
    ensures Parse(lines, port) == []
  {
    if lines != [] {
      ParseHeader(lines[..|lines| - 1], port);
    }
  }

  /** An m= line and the lines up to the next one make one section. */
  lemma {:induction false} ParseSection(before: seq<string>, m: string, body: seq<string>, port: string)
    requires KindOf(m).Media? && NoMedia(body)
    ensures Parse(before + [m] + body, port) == Parse(before, port) + [AbsorbAll(NewSection(m, port), body)]
    decreases |body|
  {
    hide KindOf, Absorb, NewSection;
    var lines := before + [m] + body;
    if body == [] {
      assert lines[..|lines| - 1] == before && lines[|lines| - 1] == m;
    } else {
      var n := |body| - 1;
      ParseSection(before, m, body[..n], port);
      assert lines[..|lines| - 1] == before + [m] + body[..n] && lines[|lines| - 1] == body[n];
    }
  }

  // ------------------------------------------------------------------------
  // What a parsed section is made of
  // ------------------------------------------------------------------------

  predicate IsCodecLine(line: string) {
    OneLine(line) && (KindOf(line).Mid? || KindOf(line).Kept?)
  }

  /** The mid of the last a=mid line. */
  function MidOf(lines: seq<string>): string {
    if lines == [] then ""
    else if KindOf(lines[|lines| - 1]).Mid? then KindOf(lines[|lines| - 1]).mid
    else MidOf(lines[..|lines| - 1])
  }

  /** A media line with the server's port: one line that starts with m= and tells the media type. */
  predicate ParsedSection(s: Section) {
    && StartsWith(s.mLine, "m=") && OneLine(s.mLine)
    && s.mediaType == MediaTypeOf(s.mLine)
    && (forall i :: 0 <= i < |s.codecLines| ==> IsCodecLine(s.codecLines[i]))
    && s.mid == MidOf(s.codecLines)
  }

  /** The first piece of an m= line still starts with m= and decides the media type. */
  lemma FirstPart(line: string, rest: string)
    requires StartsWith(line, "m=")
    ensures var first := line[..IndexOf(line, ' ')];
            StartsWith(first + " " + rest, "m=") && MediaTypeOf(first + " " + rest) == MediaTypeOf(line)
  {
    var n := IndexOf(line, ' ');
    var first := line[..n];
    var other := first + " " + rest;
    assert line[0] == 'm' && line[1] == '=';
    assert n >= 2;
    SamePrefix(line, other, n, "m=audio");
    SamePrefix(line, other, n, "m=video");
  }

  /** Two strings with the same text in front of their first blank start with the same blank-free words. */
  lemma SamePrefix(a: string, b: string, n: nat, word: string)
    requires n == IndexOf(a, ' ') && n < |b| && b[..n] == a[..n] && b[n] == ' '
    requires forall i :: 0 <= i < |word| ==> word[i] != ' '
    ensures StartsWith(a, word) <==> StartsWith(b, word)
  {
    if |word| <= n {
      assert forall i :: 0 <= i < |word| ==> a[i] == a[..n][i] && b[i] == b[..n][i];
      if StartsWith(a, word) { assert b[..|word|] == word; }
      if StartsWith(b, word) { assert a[..|word|] == word; }
    } else {
      assert word[n] != ' ' && b[n] == ' ' && (n < |a| ==> a[n] == ' ');
    }
  }

  lemma PartsOfMedia(line: string)
    requires |SplitN(line, 4)| == 4
    ensures SplitN(line, 4)[0] == line[..IndexOf(line, ' ')] && IndexOf(line, ' ') < |line|
  {
  }

  lemma OneLineParts(line: string, n: nat)
    requires OneLine(line) && n > 0
    ensures forall i :: 0 <= i < |SplitN(line, n)| ==> OneLine(SplitN(line, n)[i])
    decreases n
  {
    var i := IndexOf(line, ' ');
    if n > 1 && i < |line| {
      OneLineParts(line[i + 1..], n - 1);
    }
  }

  lemma SetPortParsed(line: string, port: string)
    requires StartsWith(line, "m=") && OneLine(line) && OneLine(port)
    ensures ParsedSection(NewSection(line, port))
  {
    hide KindOf, MediaTypeOf, IndexOf, SplitN, Spaced, Has;
    var parts := SplitN(line, 4);
    if |parts| == 4 {
      PartsOfMedia(line);
      OneLineParts(line, 4);
      OneLineSpaced(parts[0], port, parts[2], parts[3]);
      SpacedFromRight(parts[0], port, parts[2], parts[3]);
      FirstPart(line, port + " " + (parts[2] + " " + parts[3]));
    }
  }

  lemma {:induction false} ParseMakesSections(lines: seq<string>, port: string)
    requires AllOneLine(lines) && OneLine(port)
    ensures forall i :: 0 <= i < |Parse(lines, port)| ==> ParsedSection(Parse(lines, port)[i])
  {
    if lines != [] {
      var n := |lines| - 1;
      var before, line := Parse(lines[..n], port), lines[n];
      ParseMakesSections(lines[..n], port);
      if KindOf(line).Media? {
        SetPortParsed(line, port);
      } else if before != [] {
        AbsorbParsed(before[|before| - 1], line);
      }
    }
  }

  lemma AbsorbParsed(s: Section, line: string)
    requires ParsedSection(s) && OneLine(line)
    ensures ParsedSection(Absorb(s, line))
  {
    hide OneLine, StartsWith, Trim;
    var t := Absorb(s, line);
    if t.codecLines != s.codecLines {
      assert t.codecLines[..|t.codecLines| - 1] == s.codecLines;
    }
  }
}
