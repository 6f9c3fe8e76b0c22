/** The answer built from the parsed offer: the second half of `build_sdp_answer_with_ice` in src/protocol/sdp.rs. */
module SdpAnswer {
  import opened Basics
  import opened Text
  import opened SdpParse

  /** What the server puts in: session id, address, port and ICE/DTLS credentials. */
  datatype Env = Env(sessionId: string, ip: string, port: string, ufrag: string, pwd: string, fingerprint: string)

  function AnswerDirection(offered: Direction, conference: bool): Direction {
    match offered
    case RecvOnly => SendOnly
    case SendOnly => RecvOnly
    case Inactive => Inactive
    case SendRecv => if conference then RecvOnly else SendRecv
  }

  // ------------------------------------------------------------------------
  // Codec filter of a sendonly section
  // ------------------------------------------------------------------------

  /** Payload types of the fmtp lines that mention `apt=first`. */
  function RtxPts(lines: seq<string>, first: string): seq<string> {
    if lines == [] then []
    else
      var line := lines[|lines| - 1];
      var before := RtxPts(lines[..|lines| - 1], first);
      if StartsWith(line, "a=fmtp:") && Contains(line, "apt=" + first) && Words(line[7..]) != []
      then before + [Words(line[7..])[0]] else before
  }

  function AllowedPts(s: Section): seq<string> {
    if s.mediaType.AudioMedia? then ["111"]
    else
      var parts := Words(s.mLine);
      if |parts| > 3 then [parts[3]] + RtxPts(s.codecLines, parts[3]) else []
  }

  function Filter(pts: seq<string>, allowed: seq<string>): seq<string> {
    if pts == [] then []
    else
      var before, last := Filter(pts[..|pts| - 1], allowed), pts[|pts| - 1];
      if last in allowed then before + [last] else before
  }

  /** The payload types listed by an m= line. */
  function MediaPts(mLine: string): seq<string> {
    var parts := SplitN(mLine, 4);
    if |parts| == 4 then Words(parts[3]) else []
  }

  /** The m= line with only the allowed payload types, when some of them are listed. */
  function FilteredMLine(s: Section): Option<string> {
    var allowed := AllowedPts(s);
    var parts := SplitN(s.mLine, 4);
    if allowed == [] || |parts| != 4 then None
    else
      var pts := Filter(Words(parts[3]), allowed);
      if pts == [] then None
      else Some(Spaced(parts[0], parts[1], parts[2], JoinWith(pts, " ")))
  }

  predicate IsPtLine(line: string) {
    StartsWith(line, "a=rtpmap:") || StartsWith(line, "a=fmtp:") || StartsWith(line, "a=rtcp-fb:")
  }

  /** The first word after the first colon and before the next. */
  function PtOf(line: string): string {
    var i := IndexOf(line, ':');
    if i == |line| then ""
    else
      var rest := line[i + 1..];
      var words := Words(rest[..IndexOf(rest, ':')]);
      if words == [] then "" else words[0]
  }

  predicate KeepsCodec(line: string, allowed: seq<string>) {
    IsPtLine(line) && allowed != [] ==> PtOf(line) in allowed
  }

  function FilterCodecs(lines: seq<string>, allowed: seq<string>): seq<string> {
    if lines == [] then []
    else
      var before, last := FilterCodecs(lines[..|lines| - 1], allowed), lines[|lines| - 1];
      if KeepsCodec(last, allowed) then before + [last] else before
  }

  // ------------------------------------------------------------------------
  // The lines of the answer
  // ------------------------------------------------------------------------

  function Mids(sections: seq<Section>): seq<string> {
    seq(|sections|, i requires 0 <= i < |sections| => sections[i].mid)
  }

  function HeaderLines(sections: seq<Section>, env: Env): seq<string> {
    ["v=0",
     "o=mini-livechat " + env.sessionId + " " + env.sessionId + " IN IP4 " + env.ip,
     "s=-",
     "t=0 0",
     "a=group:BUNDLE " + JoinWith(Mids(sections), " "),
     "a=ice-lite"]
  }

  function MsidLine(mid: string): string {
    "a=msid:server-" + mid + " server-" + mid + "-track"
  }

  function Credentials(env: Env): seq<string> {
    ["c=IN IP4 " + env.ip,
     "a=ice-ufrag:" + env.ufrag,
     "a=ice-pwd:" + env.pwd,
     "a=fingerprint:" + env.fingerprint,
     "a=setup:passive",
     "a=rtcp-mux"]
  }

  /** The lines behind the credentials. */
  function FlagLines(s: Section, conference: bool): seq<string> {
    var direction := AnswerDirection(s.direction, conference);
    (if s.rsize then ["a=rtcp-rsize"] else [])
    + (["a=" + direction.Name()] + (if direction.SendOnly? then [MsidLine(s.mid)] else []))
  }

  /** The attributes printed between the m= line and the codec lines. */
  function HeadLines(s: Section, env: Env, conference: bool): seq<string> {
    Credentials(env) + FlagLines(s, conference)
  }

  function CodecLines(s: Section, conference: bool): seq<string> {
    if AnswerDirection(s.direction, conference).SendOnly? then FilterCodecs(s.codecLines, AllowedPts(s))
    else s.codecLines
  }

  function CandidateLine(env: Env): string {
    "a=candidate:1 1 udp 2113937151 " + env.ip + " " + env.port + " typ host generation 0"
  }

  const END_OF_CANDIDATES := "a=end-of-candidates"

  function TailLines(s: Section, env: Env, conference: bool): seq<string> {
    CodecLines(s, conference) + [CandidateLine(env), END_OF_CANDIDATES]
  }

  /** The m= line of the answer. */
  function AnswerMLine(s: Section, conference: bool): string {
    if AnswerDirection(s.direction, conference).SendOnly? then FilteredMLine(s).GetOr(s.mLine) else s.mLine
  }

  function SectionLines(s: Section, env: Env, conference: bool): seq<string> {
    [AnswerMLine(s, conference)] + (HeadLines(s, env, conference) + TailLines(s, env, conference))
  }

  function AllSectionLines(sections: seq<Section>, env: Env, conference: bool): seq<string> {
    if sections == [] then []
    else AllSectionLines(sections[..|sections| - 1], env, conference)
         + SectionLines(sections[|sections| - 1], env, conference)
  }

  function AnswerLines(sections: seq<Section>, env: Env, conference: bool): seq<string> {
    HeaderLines(sections, env) + AllSectionLines(sections, env, conference)
  }

  // ------------------------------------------------------------------------
  // The text as it is built, with the patch of text already printed
  // ------------------------------------------------------------------------

  function PrintSection(text: string, s: Section, env: Env, conference: bool): string {
    var printed := text + s.mLine + "\r\n" + Join(HeadLines(s, env, conference));
    var patched :=
      if AnswerDirection(s.direction, conference).SendOnly? && FilteredMLine(s).Some?
      then ReplaceLast(printed, s.mLine, FilteredMLine(s).value) else printed;
    patched + Join(TailLines(s, env, conference))
  }

  function PrintSections(text: string, sections: seq<Section>, env: Env, conference: bool): string {
    if sections == [] then text
    else PrintSection(PrintSections(text, sections[..|sections| - 1], env, conference),
                      sections[|sections| - 1], env, conference)
  }

  function AnswerText(sections: seq<Section>, env: Env, conference: bool): string {
    PrintSections(Join(HeaderLines(sections, env)), sections, env, conference)
  }

  // ------------------------------------------------------------------------
  // Building it
  // ------------------------------------------------------------------------

  lemma JoinSnoc(lines: seq<string>, line: string)
    ensures Join(lines + [line]) == Join(lines) + line + "\r\n"
  {
    assert (lines + [line])[..|lines|] == lines;
  }

  method PushAll(sdp: string, lines: seq<string>) returns (r: string)
    ensures r == sdp + Join(lines)
  {
    r := sdp;
    for i := 0 to |lines|
      invariant r == sdp + Join(lines[..i])
    {
      JoinSnoc(lines[..i], lines[i]);
      assert lines[..i + 1] == lines[..i] + [lines[i]];
      r := r + lines[i];
      r := r + "\r\n";
    }
    assert lines[..|lines|] == lines;
  }

  method ComputeAllowedPts(s: Section) returns (pts: seq<string>)
    ensures pts == AllowedPts(s)
  {
    if s.mediaType.AudioMedia? {
      return ["111"];
    }
    var parts := Words(s.mLine);
    if |parts| <= 3 {
      return [];
    }
    var first := parts[3];
    var rtx: seq<string> := [];
    for i := 0 to |s.codecLines|
      invariant rtx == RtxPts(s.codecLines[..i], first)
    {
      assert s.codecLines[..i + 1][..i] == s.codecLines[..i];
      var line := s.codecLines[i];
      if StartsWith(line, "a=fmtp:") && Contains(line, "apt=" + first) {
        var words := Words(line[7..]);
        if words != [] {
          rtx := rtx + [words[0]];
        }
      }
    }
    assert s.codecLines[..|s.codecLines|] == s.codecLines;
    pts := [first] + rtx;
  }

  method ComputeFilter(pts: seq<string>, allowed: seq<string>) returns (r: seq<string>)
    ensures r == Filter(pts, allowed)
  {
    r := [];
    for i := 0 to |pts|
      invariant r == Filter(pts[..i], allowed)
    {
      assert pts[..i + 1][..i] == pts[..i];
      if pts[i] in allowed {
        r := r + [pts[i]];
      }
    }
    assert pts[..|pts|] == pts;
  }

  /** Replaces the last occurrence of the m= line in the text printed so far. */
  method PatchMLine(sdp: string, mLine: string, newMLine: string) returns (r: string)
    ensures r == ReplaceLast(sdp, mLine, newMLine)
  {
    var pos := RFind(sdp, mLine);
    LastFromIs(sdp, mLine, |sdp|, pos);
    match pos
    case None => r := sdp;
    case Some(i) => r := sdp[..i] + newMLine + sdp[i + |mLine|..];
  }

  lemma JoinFiltered(sdp: string, lines: seq<string>, line: string, allowed: seq<string>)
    ensures sdp + Join(FilterCodecs(lines + [line], allowed))
         == sdp + Join(FilterCodecs(lines, allowed)) + (if KeepsCodec(line, allowed) then line + "\r\n" else "")
  {
    assert (lines + [line])[..|lines|] == lines;
    var kept := FilterCodecs(lines, allowed);
    if KeepsCodec(line, allowed) {
      JoinSnoc(kept, line);
      hide Join;
      assert sdp + (Join(kept) + line + "\r\n") == sdp + Join(kept) + (line + "\r\n");
    }
  }

  lemma NothingFiltered(allowed: seq<string>)
    ensures Join(FilterCodecs([], allowed)) == ""
  {
  }

  /** Prints a codec line unless its payload type was dropped. */
  method PushCodec(sdp: string, line: string, allowed: seq<string>) returns (r: string)
    ensures r == sdp + (if KeepsCodec(line, allowed) then line + "\r\n" else "")
  {
    if IsPtLine(line) {
      var pt := PtOf(line);
      if allowed != [] && pt !in allowed {
        return sdp;
      }
    }
    r := sdp + line;
    r := r + "\r\n";
  }

  method PushCodecs(sdp: string, lines: seq<string>, allowed: seq<string>) returns (r: string)
    ensures r == sdp + Join(FilterCodecs(lines, allowed))
  {
    hide KeepsCodec, FilterCodecs, Join;
    NothingFiltered(allowed);
    assert lines[..0] == [] && sdp + "" == sdp;
    r := sdp;
    for i := 0 to |lines|
      invariant r == sdp + Join(FilterCodecs(lines[..i], allowed))
    {
      JoinFiltered(sdp, lines[..i], lines[i], allowed);
      assert lines[..i + 1] == lines[..i] + [lines[i]];
      r := PushCodec(r, lines[i], allowed);
    }
    assert lines[..|lines|] == lines;
  }

  /** The m= line of a sendonly section is patched in place; then its remaining codec lines follow. */
  method PushSendOnly(sdp: string, s: Section) returns (r: string)
    ensures r == (if FilteredMLine(s).Some? then ReplaceLast(sdp, s.mLine, FilteredMLine(s).value) else sdp)
                 + Join(FilterCodecs(s.codecLines, AllowedPts(s)))
  {
    hide AllowedPts, Words, SplitN, Filter, JoinWith, ReplaceLast, FilterCodecs, Join;
    r := sdp;
    var allowed := ComputeAllowedPts(s);
    if allowed != [] {
      var parts := SplitN(s.mLine, 4);
      if |parts| == 4 {
        var pts := ComputeFilter(Words(parts[3]), allowed);
        if pts != [] {
          var newMLine := Spaced(parts[0], parts[1], parts[2], JoinWith(pts, " "));
          r := PatchMLine(r, s.mLine, newMLine);
        }
      }
    }
    r := PushCodecs(r, s.codecLines, allowed);
  }

  method PushSection(sdp: string, s: Section, env: Env, conference: bool) returns (r: string)
    ensures r == PrintSection(sdp, s, env, conference)
  {
    hide HeadLines, FilteredMLine, AllowedPts, ReplaceLast, FilterCodecs, Join;
    var tail := [CandidateLine(env), END_OF_CANDIDATES];
    JoinAppend(CodecLines(s, conference), tail);
    r := sdp + s.mLine;
    r := r + "\r\n";
    r := PushAll(r, HeadLines(s, env, conference));
    if AnswerDirection(s.direction, conference).SendOnly? {
      r := PushSendOnly(r, s);
    } else {
      r := PushAll(r, s.codecLines);
    }
    r := PushAll(r, tail);
  }

  /** Parses the offer and prints the answer. */
  method BuildSdpAnswerWithIce(offer: string, env: Env, conference: bool) returns (sdp: string)
    ensures sdp == AnswerText(Parse(Lines(offer), env.port), env, conference)
  {
    hide Parse, Lines, HeaderLines, PrintSection, Join;
    var sections := ParseOffer(Lines(offer), env.port);
    sdp := PushAll("", HeaderLines(sections, env));
    assert "" + Join(HeaderLines(sections, env)) == Join(HeaderLines(sections, env));
    ghost var header := sdp;
    for i := 0 to |sections|
      invariant sdp == PrintSections(header, sections[..i], env, conference)
    {
      assert sections[..i + 1][..i] == sections[..i];
      sdp := PushSection(sdp, sections[i], env, conference);
    }
    assert sections[..|sections|] == sections;
  }
}
