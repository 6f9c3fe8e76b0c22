/**
 * What the answer of src/protocol/sdp.rs says to the client that reads it: who sends and who receives in each media
 * section, and what each section carries.
 */
module SdpRoles {
  import opened Basics
  import opened Text
  import opened SdpParse
  import opened SdpAnswer
  import opened SdpPatch
  import opened SdpReparse
  import opened SdpRenego

  // ------------------------------------------------------------------------
  // The direction that a section states
  // ------------------------------------------------------------------------

  predicate StatesDirection(line: string, d: Direction) {
    StartsWith(line, "a=" + d.Name())
  }

  /** Direction `d` is that of the last direction line, or sendrecv if there is none. */
  predicate StatedDirection(lines: seq<string>, d: Direction) {
    || (d.SendRecv? && forall i, e :: 0 <= i < |lines| ==> !StatesDirection(lines[i], e))
    || exists k :: 0 <= k < |lines| && StatesDirection(lines[k], d)
                   && forall i, e :: k < i < |lines| ==> !StatesDirection(lines[i], e)
  }

  function DirectionPrefix(d: Direction): string {
    match d
    case SendRecv => "a=sendrecv"
    case RecvOnly => "a=recvonly"
    case SendOnly => "a=sendonly"
    case Inactive => "a=inactive"
  }

  lemma PrefixIs(d: Direction)
    ensures DirectionPrefix(d) == "a=" + d.Name()
  {
  }

  /** A direction line is read as such, whatever else is on it. */
  lemma StatedKind(line: string, d: Direction)
    requires StartsWith(line, DirectionPrefix(d))
    ensures KindOf(line) == Directs(d)
  {
    var p := DirectionPrefix(d);
    assert line[0] == p[0] && line[2] == p[2] && line[6] == p[6];
    NotPrefix(line, "m=", 0);
    if !d.SendRecv? {
      NotPrefix(line, "a=sendrecv", if d.SendOnly? then 6 else 2);
      if !d.RecvOnly? {
        NotPrefix(line, "a=recvonly", 2);
        if !d.SendOnly? {
          NotPrefix(line, "a=sendonly", 2);
        }
      }
    }
  }

  lemma DirectionOfLine(line: string)
    ensures KindOf(line).Directs? ==> StatesDirection(line, KindOf(line).direction)
    ensures forall d :: StatesDirection(line, d) ==> KindOf(line) == Directs(d)
  {
    if KindOf(line).Directs? {
      PrefixIs(KindOf(line).direction);
    }
    hide KindOf;
    forall d | StatesDirection(line, d) ensures KindOf(line) == Directs(d) {
      PrefixIs(d);
      StatedKind(line, d);
    }
  }

  lemma {:induction false} AbsorbedDirection(t: Section, body: seq<string>)
    requires t.direction.SendRecv?
    ensures StatedDirection(body, AbsorbAll(t, body).direction)
  {
    if body != [] {
      var n := |body| - 1;
      var d := AbsorbAll(t, body[..n]).direction;
      AbsorbedDirection(t, body[..n]);
      DirectionOfLine(body[n]);
      DirectionAbsorbed(AbsorbAll(t, body[..n]), body[n]);
      hide KindOf, StatesDirection, Absorb;
      if KindOf(body[n]).Directs? {
        assert StatesDirection(body[n], KindOf(body[n]).direction);
      } else {
        StatedFurther(body[..n], body[n], d);
        assert body[..n] + [body[n]] == body;
      }
    }
  }

  lemma DirectionAbsorbed(t: Section, line: string)
    ensures Absorb(t, line).direction == if KindOf(line).Directs? then KindOf(line).direction else t.direction
  {
    hide KindOf;
  }

  lemma StatedFurther(lines: seq<string>, line: string, d: Direction)
    requires StatedDirection(lines, d) && forall e :: !StatesDirection(line, e)
    ensures StatedDirection(lines + [line], d)
  {
    hide StatesDirection;
    var all := lines + [line];
    if k :| 0 <= k < |lines| && StatesDirection(lines[k], d)
            && forall i, e :: k < i < |lines| ==> !StatesDirection(lines[i], e) {
      assert StatesDirection(all[k], d) && forall i, e :: k < i < |all| ==> !StatesDirection(all[i], e);
    }
  }

  /** What the parser makes of an m= line and the lines up to the next. */
  function ReadGroup(group: seq<string>, port: string): Section
    requires group != []
  {
    AbsorbAll(NewSection(group[0], port), group[1..])
  }

  predicate AreGroups(sections: seq<Section>, groups: seq<seq<string>>, port: string) {
    && |sections| == |groups|
    && forall k :: 0 <= k < |groups| ==> groups[k] != [] && sections[k] == ReadGroup(groups[k], port)
  }

  lemma LongerGroup(group: seq<string>, line: string, port: string)
    requires group != []
    ensures ReadGroup(group + [line], port) == Absorb(ReadGroup(group, port), line)
  {
    assert (group + [line])[1..] == group[1..] + [line];
    AbsorbAppend(NewSection(group[0], port), group[1..], [line]);
    AbsorbOne(ReadGroup(group, port), line);
  }

  lemma NewGroup(line: string, port: string)
    ensures ReadGroup([line], port) == NewSection(line, port)
  {
    assert [line][1..] == [];
  }

  /** The parser reads a text section by section. */
  lemma {:induction false} ParseOfGroups(lines: seq<string>, port: string)
    ensures AreGroups(Parse(lines, port), Groups(lines), port)
  {
    if lines != [] {
      var n := |lines| - 1;
      var before, line := Groups(lines[..n]), lines[n];
      ParseOfGroups(lines[..n], port);
      MediaLine(line);
      NewGroup(line, port);
      if before != [] {
        LongerGroup(before[|before| - 1], line, port);
      }
      hide KindOf, StartsWith, NewSection, Absorb, ReadGroup;
    }
  }

  lemma MediaLine(line: string)
    ensures StartsWith(line, "m=") <==> KindOf(line).Media?
  {
  }

  /** In any text the direction of a media section is the last one that its lines state, or sendrecv. */
  lemma DirectionIsStated(lines: seq<string>, port: string, k: nat)
    requires k < |Groups(lines)|
    ensures k < |Parse(lines, port)| && Groups(lines)[k] != []
    ensures StatedDirection(Groups(lines)[k][1..], Parse(lines, port)[k].direction)
  {
    ParseOfGroups(lines, port);
    var group := Groups(lines)[k];
    hide AbsorbAll, SetPort, MediaTypeOf, StatedDirection, Groups, Parse;
    assert Parse(lines, port)[k] == ReadGroup(group, port);
    AbsorbedDirection(NewSection(group[0], port), group[1..]);
  }

  // ------------------------------------------------------------------------
  // Offer and answer
  // ------------------------------------------------------------------------

  /** Whoever describes a section with this direction may send in it (RFC 3264, section 5.1). */
  predicate Sends(d: Direction) {
    d == SendRecv || d == SendOnly
  }

  predicate Receives(d: Direction) {
    d == SendRecv || d == RecvOnly
  }

  /**
   * In each section of the answer, as its text is read, the server receives iff the client offered to send, and sends
   * iff the client offered to receive, except that in a conference it never sends where it receives. So it does nothing
   * that was not offered (RFC 3264, section 6.1), and in an inactive section neither side sends.
   */
  lemma AnswerTakesTheOtherRole(offer: string, env: Env, conference: bool, i: nat)
    requires SingleLineEnv(env) && !Has(env.port, ' ')
    requires PatchesAreRight(Parse(Lines(offer), env.port), env, conference)
    requires i < |Parse(Lines(offer), env.port)|
    ensures var offered := Parse(Lines(offer), env.port);
            var answered := Parse(Lines(AnswerText(offered, env, conference)), env.port);
            && |answered| == |offered|
            && (Receives(answered[i].direction) <==> Sends(offered[i].direction))
            && (Sends(answered[i].direction) <==>
                  Receives(offered[i].direction) && !(conference && Sends(offered[i].direction)))
  {
    hide Parse, Lines, AnswerText, PatchesAreRight, AnswerMLine, CodecLines;
    AnswerReparses(offer, env, conference);
  }

  /** Only a section that the server does nothing but send in has its codecs filtered. */
  lemma OtherSectionsKeepCodecs(offer: string, env: Env, conference: bool, i: nat)
    requires SingleLineEnv(env) && !Has(env.port, ' ')
    requires PatchesAreRight(Parse(Lines(offer), env.port), env, conference)
    requires i < |Parse(Lines(offer), env.port)|
    ensures var offered := Parse(Lines(offer), env.port);
            var answered := Parse(Lines(AnswerText(offered, env, conference)), env.port);
            && |answered| == |offered|
            && (Receives(answered[i].direction) || !Sends(answered[i].direction) ==>
                  && answered[i].mLine == offered[i].mLine
                  && answered[i].codecLines == offered[i].codecLines + [END_OF_CANDIDATES])
  {
    hide Parse, Lines, AnswerText, PatchesAreRight;
    AnswerReparses(offer, env, conference);
  }

  /** A line for which the server has its own in the answer. */
  predicate IsServers(line: string) {
    || StartsWith(line, "m=") || StartsWith(line, "c=")
    || StartsWith(line, "a=ice-") || StartsWith(line, "a=fingerprint") || StartsWith(line, "a=setup")
    || StartsWith(line, "a=candidate") || StartsWith(line, "a=rtcp-mux") || StartsWith(line, "a=rtcp-rsize")
    || StartsWith(line, "a=sendrecv") || StartsWith(line, "a=sendonly") || StartsWith(line, "a=recvonly")
    || StartsWith(line, "a=inactive") || StartsWith(line, "a=ssrc") || StartsWith(line, "a=msid")
  }

  lemma SkipsIff(line: string)
    ensures KindOf(line).Mid? || KindOf(line).Kept? <==> !IsServers(line)
  {
    if StartsWith(line, "a=ssrc-group") {
      assert line[..6] == "a=ssrc-group"[..6] == "a=ssrc";
    }
    assert SKIP_PREFIXES[0] == "a=ice-" && SKIP_PREFIXES[1] == "a=fingerprint" && SKIP_PREFIXES[2] == "a=setup"
           && SKIP_PREFIXES[3] == "a=candidate" && SKIP_PREFIXES[4] == "a=sendrecv" && SKIP_PREFIXES[5] == "a=sendonly"
           && SKIP_PREFIXES[6] == "a=recvonly" && SKIP_PREFIXES[7] == "a=inactive" && SKIP_PREFIXES[8] == "a=rtcp-mux"
           && SKIP_PREFIXES[9] == "a=rtcp-rsize" && SKIP_PREFIXES[10] == "c=" && SKIP_PREFIXES[11] == "a=ssrc"
           && SKIP_PREFIXES[12] == "a=ssrc-group" && SKIP_PREFIXES[13] == "a=msid";
    hide StartsWith;
    assert Skips(line) ==> IsServers(line);
  }

  function ClientLines(lines: seq<string>): seq<string> {
    if lines == [] then []
    else
      var before, last := ClientLines(lines[..|lines| - 1]), lines[|lines| - 1];
      if IsServers(last) then before else before + [last]
  }

  lemma {:induction false} AbsorbedCodecs(t: Section, body: seq<string>)
    ensures AbsorbAll(t, body).codecLines == t.codecLines + ClientLines(body)
  {
    hide IsServers;
    if body != [] {
      var n := |body| - 1;
      AbsorbedCodecs(t, body[..n]);
      SkipsIff(body[n]);
      hide KindOf;
    }
  }

  /** In any text the parser collects from a media section, in order, exactly the lines that are not the server's. */
  lemma CollectedLines(lines: seq<string>, port: string, k: nat)
    requires k < |Groups(lines)|
    ensures k < |Parse(lines, port)| && Groups(lines)[k] != []
    ensures Parse(lines, port)[k].codecLines == ClientLines(Groups(lines)[k][1..])
  {
    ParseOfGroups(lines, port);
    var group := Groups(lines)[k];
    hide AbsorbAll, SetPort, MediaTypeOf, ClientLines, Groups, Parse;
    assert Parse(lines, port)[k] == ReadGroup(group, port);
    AbsorbedCodecs(NewSection(group[0], port), group[1..]);
    assert [] + ClientLines(group[1..]) == ClientLines(group[1..]);
  }

  // ------------------------------------------------------------------------
  // The media sections of the answer
  // ------------------------------------------------------------------------

  lemma {:induction false} GroupsOfSections(header: seq<string>, sections: seq<Section>, env: Env, conference: bool)
    requires NoMLine(header) && !Has(env.port, ' ')
    requires forall i :: 0 <= i < |sections| ==> ParsedSection(sections[i]) && HasPort(sections[i], env.port)
    ensures var groups := Groups(header + AllSectionLines(sections, env, conference));
            && |groups| == |sections|
            && forall k :: 0 <= k < |sections| ==> groups[k] == SectionLines(sections[k], env, conference)
  {
    hide ParsedSection, HasPort, Has, Groups, NoMLine, AnswerMLine, HeadLines, TailLines, StartsWith;
    if sections == [] {
      GroupsOfHeader(header);
      assert header + [] == header;
    } else {
      var n := |sections| - 1;
      var before := header + AllSectionLines(sections[..n], env, conference);
      var m := AnswerMLine(sections[n], conference);
      var rest := HeadLines(sections[n], env, conference) + TailLines(sections[n], env, conference);
      GroupsOfSections(header, sections[..n], env, conference);
      MLineAgain(sections[n], env.port, conference);
      HeadHasNoMedia(sections[n], env, conference);
      TailHasNoMedia(sections[n], env, conference);
      BothNoMedia(HeadLines(sections[n], env, conference), TailLines(sections[n], env, conference));
      GroupsOfOneMore(before, m, rest);
      assert header + AllSectionLines(sections, env, conference) == before + ([m] + rest);
    }
  }

  lemma BothNoMedia(a: seq<string>, b: seq<string>)
    requires NoMedia(a) && NoMedia(b)
    ensures NoMLine(a + b)
  {
    NoMLineByKind(a + b);
  }

  /** Media section `k` of the answer is what was printed for offered section `k`. */
  lemma AnswerGroups(offer: string, env: Env, conference: bool)
    requires SingleLineEnv(env) && !Has(env.port, ' ')
    requires PatchesAreRight(Parse(Lines(offer), env.port), env, conference)
    ensures var sections := Parse(Lines(offer), env.port);
            var groups := Groups(Lines(AnswerText(sections, env, conference)));
            && |groups| == |sections|
            && forall k :: 0 <= k < |sections| ==>
                 groups[k] == SectionLines(sections[k], env, conference) && ParsedSection(sections[k])
  {
    var sections := Parse(Lines(offer), env.port);
    LinesAreOneLine(offer);
    ParseMakesSections(Lines(offer), env.port);
    ParsedHasPort(Lines(offer), env.port);
    HeaderHasNoMedia(sections, env);
    NoMLineByKind(HeaderLines(sections, env));
    hide Parse, Lines, AnswerText, HeaderLines, ParsedSection, HasPort, Has, SectionLines, PatchesAreRight, Groups;
    AnswerTextLines(offer, env, conference);
    GroupsOfSections(HeaderLines(sections, env), sections, env, conference);
  }

  // ------------------------------------------------------------------------
  // What a media section carries
  // ------------------------------------------------------------------------

  predicate Lacks(lines: seq<string>, name: string) {
    forall i :: 0 <= i < |lines| ==> !StartsWith(lines[i], name)
  }

  /** One line of the section starts with that name, and the value follows. */
  predicate Carries(lines: seq<string>, name: string, value: string) {
    exists k :: 0 <= k < |lines| && lines[k] == name + value && Lacks(lines[..k], name) && Lacks(lines[k + 1..], name)
  }

  lemma CarriesBetween(before: seq<string>, lines: seq<string>, after: seq<string>, name: string, value: string)
    requires Lacks(before, name) && Carries(lines, name, value) && Lacks(after, name)
    ensures Carries(before + (lines + after), name, value)
  {
    hide StartsWith;
    var all := before + (lines + after);
    var k :| 0 <= k < |lines| && lines[k] == name + value && Lacks(lines[..k], name) && Lacks(lines[k + 1..], name);
    assert all[..|before| + k] == before + lines[..k];
    assert all[|before| + k + 1..] == lines[k + 1..] + after;
  }

  lemma LacksBoth(a: seq<string>, b: seq<string>, name: string)
    requires Lacks(a, name) && Lacks(b, name)
    ensures Lacks(a + b, name)
  {
    hide StartsWith;
  }

  /** No collected codec line starts with a skipped prefix. */
  lemma CodecLinesLack(lines: seq<string>, name: string, i: nat)
    requires forall k :: 0 <= k < |lines| ==> IsCodecLine(lines[k])
    requires i < |SKIP_PREFIXES| && StartsWith(name, SKIP_PREFIXES[i])
    ensures Lacks(lines, name)
  {
    forall k | 0 <= k < |lines| ensures !StartsWith(lines[k], name) {
      if StartsWith(lines[k], name) {
        assert StartsWith(lines[k], SKIP_PREFIXES[i]);
        assert Skips(lines[k]);
      }
    }
  }

  /** What an answer states once in each section before its codecs: where the server is, who it is and what it does. */
  function Stated(env: Env): seq<(string, string)> {
    [("c=", "IN IP4 " + env.ip), ("a=ice-ufrag:", env.ufrag), ("a=ice-pwd:", env.pwd),
     ("a=fingerprint:", env.fingerprint), ("a=setup:", "passive"), ("a=rtcp-mux", "")]
  }

  lemma StatedLines(env: Env, n: nat)
    requires n < 6
    ensures var (name, value) := Stated(env)[n];
            && Credentials(env)[n] == name + value
            && |name| >= 2 && name[0] == (if n == 0 then 'c' else 'a')
            && (n > 0 ==> |name| > 7 && name[2] == ['c', 'i', 'i', 'f', 's', 'r'][n])
            && (n == 1 ==> name[6] == 'u') && (n == 2 ==> name[6] == 'p')
            && (n == 1 || n == 2 ==> name[3] == 'c') && (n == 4 ==> name[4] == 't')
            && (n == 5 ==> name[3] == 't' && name[7] == 'm')
            && StartsWith(name, SKIP_PREFIXES[[10, 0, 0, 1, 2, 8][n]])
  {
    var name := Stated(env)[n].0;
    if n == 1 || n == 2 { assert name[..6] == SKIP_PREFIXES[0]; }
    if n == 3 { assert name[..13] == SKIP_PREFIXES[1]; }
    if n == 4 { assert name[..7] == SKIP_PREFIXES[2]; }
  }

  lemma CredentialsCarry(env: Env, n: nat)
    requires n < 6
    ensures Carries(Credentials(env), Stated(env)[n].0, Stated(env)[n].1)
  {
    var (name, value) := Stated(env)[n];
    var lines := Credentials(env);
    StatedLines(env, n);
    forall j | 0 <= j < 6 && j != n ensures !StartsWith(lines[j], name) {
      StatedLines(env, j);
      NotPrefix(lines[j], name, if n == 0 || j == 0 then 0 else if n + j == 3 then 6 else 2);
    }
    hide Credentials, Stated, StartsWith;
    assert Lacks(lines[..n], name) && Lacks(lines[n + 1..], name);
  }

  lemma DirectionLacks(d: Direction, env: Env, n: nat)
    requires n < 6
    ensures !StartsWith("a=" + d.Name(), Stated(env)[n].0)
  {
    var name := Stated(env)[n].0;
    StatedLines(env, n);
    hide Stated;
    PrefixIs(d);
    var k := if n == 0 then 0 else if d.Inactive? && (n == 1 || n == 2) then 3
             else if d.RecvOnly? && n == 5 then 3 else if (d.SendRecv? || d.SendOnly?) && n == 4 then 4 else 2;
    NotPrefix(DirectionPrefix(d), name, k);
  }

  lemma FlagsLack(s: Section, env: Env, conference: bool, n: nat)
    requires n < 6
    ensures Lacks(FlagLines(s, conference), Stated(env)[n].0)
  {
    var name := Stated(env)[n].0;
    StatedLines(env, n);
    hide Stated;
    NotPrefix("a=rtcp-rsize", name, if n == 0 then 0 else if n == 5 then 7 else 2);
    NotPrefix(MsidLine(s.mid), name, if n == 0 then 0 else 2);
    DirectionLacks(AnswerDirection(s.direction, conference), env, n);
    hide StartsWith, MsidLine, AnswerDirection;
  }

  lemma EndsLack(env: Env, n: nat)
    requires n < 6
    ensures Lacks([CandidateLine(env), END_OF_CANDIDATES], Stated(env)[n].0)
  {
    var name := Stated(env)[n].0;
    StatedLines(env, n);
    NotPrefix(CandidateLine(env), name, if n == 0 then 0 else 2);
    NotPrefix(END_OF_CANDIDATES, name, if n == 0 then 0 else 2);
    hide Stated, StartsWith, CandidateLine;
  }

  lemma CodecsLack(s: Section, env: Env, conference: bool, n: nat)
    requires n < 6 && ParsedSection(s)
    ensures Lacks(CodecLines(s, conference), Stated(env)[n].0)
  {
    StatedLines(env, n);
    KeptCodecLines(s.codecLines, AllowedPts(s));
    hide Stated, StartsWith, FilterCodecs, AllowedPts, IsCodecLine;
    CodecLinesLack(CodecLines(s, conference), Stated(env)[n].0, [10, 0, 0, 1, 2, 8][n]);
  }

  lemma MediaLineLacks(m: string, env: Env, n: nat)
    requires n < 6 && StartsWith(m, "m=")
    ensures Lacks([m], Stated(env)[n].0)
  {
    StatedLines(env, n);
    NotPrefix(m, Stated(env)[n].0, 0);
  }

  lemma CarriesInside(before: seq<string>, lines: seq<string>, a: seq<string>, b: seq<string>, c: seq<string>,
                      name: string, value: string)
    requires Lacks(before, name) && Carries(lines, name, value) && Lacks(a, name) && Lacks(b, name) && Lacks(c, name)
    ensures Carries(before + ((lines + a) + (b + c)), name, value)
  {
    hide Lacks, Carries;
    LacksBoth(b, c, name);
    LacksBoth(a, b + c, name);
    CarriesBetween(before, lines, a + (b + c), name, value);
    assert (lines + a) + (b + c) == lines + (a + (b + c));
  }

  lemma SectionStates(s: Section, env: Env, conference: bool, n: nat)
    requires n < 6 && ParsedSection(s) && StartsWith(AnswerMLine(s, conference), "m=")
    ensures |Stated(env)| == 6 && Carries(SectionLines(s, env, conference), Stated(env)[n].0, Stated(env)[n].1)
  {
    MediaLineLacks(AnswerMLine(s, conference), env, n);
    CredentialsCarry(env, n);
    FlagsLack(s, env, conference, n);
    CodecsLack(s, env, conference, n);
    EndsLack(env, n);
    hide StartsWith, Credentials, FlagLines, CodecLines, AnswerMLine, CandidateLine, Lacks, ParsedSection,
         Carries;
    CarriesInside([AnswerMLine(s, conference)], Credentials(env), FlagLines(s, conference), CodecLines(s, conference),
                  [CandidateLine(env), END_OF_CANDIDATES], Stated(env)[n].0, Stated(env)[n].1);
  }

  const CANDIDATE := "a=candidate:"

  const MSID := "a=msid:"

  lemma CredentialsLackThird(env: Env, name: string, c: char)
    requires |name| > 2 && name[0] == 'a' && name[2] == c && c !in {'i', 'f', 's', 'r'}
    ensures Lacks(Credentials(env), name)
  {
    var lines := Credentials(env);
    forall j | 0 <= j < 6 ensures !StartsWith(lines[j], name) {
      NotPrefix(lines[j], name, if j == 0 then 0 else 2);
    }
  }

  lemma FlagsLackThird(s: Section, conference: bool, name: string)
    requires |name| > 2 && name[2] == 'c'
    ensures Lacks(FlagLines(s, conference), name)
  {
    var d := AnswerDirection(s.direction, conference);
    NotPrefix("a=rtcp-rsize", name, 2);
    NotPrefix(MsidLine(s.mid), name, 2);
    PrefixIs(d);
    NotPrefix(DirectionPrefix(d), name, 2);
    hide StartsWith, MsidLine, AnswerDirection;
  }

  lemma CodecsLackSkipped(s: Section, conference: bool, name: string, i: nat)
    requires ParsedSection(s) && i < |SKIP_PREFIXES| && StartsWith(name, SKIP_PREFIXES[i])
    ensures Lacks(CodecLines(s, conference), name)
  {
    KeptCodecLines(s.codecLines, AllowedPts(s));
    hide StartsWith, FilterCodecs, AllowedPts, IsCodecLine;
    CodecLinesLack(CodecLines(s, conference), name, i);
  }

  /** The one host candidate of the server, at its address and port. */
  function CandidateOf(env: Env): string {
    "1 1 udp 2113937151 " + env.ip + " " + env.port + " typ host generation 0"
  }

  lemma CandidateIs(env: Env)
    ensures CandidateLine(env) == CANDIDATE + CandidateOf(env)
  {
    assert "a=candidate:1 1 udp 2113937151 " == CANDIDATE + "1 1 udp 2113937151 ";
    Prefixed(CANDIDATE, "1 1 udp 2113937151 ", env.ip, " ", env.port, " typ host generation 0");
  }

  lemma Prefixed(name: string, first: string, a: string, b: string, c: string, d: string)
    ensures (name + first) + a + b + c + d == name + (first + a + b + c + d)
  {
  }

  lemma EndLacks(name: string)
    requires |name| > 2 && name[2] in {'c', 'm'}
    ensures !StartsWith(END_OF_CANDIDATES, name)
  {
    NotPrefix(END_OF_CANDIDATES, name, 2);
  }

  lemma EndsCarry(env: Env)
    ensures Carries([CandidateLine(env), END_OF_CANDIDATES], CANDIDATE, CandidateOf(env))
  {
    var lines := [CandidateLine(env), END_OF_CANDIDATES];
    CandidateIs(env);
    EndLacks(CANDIDATE);
    hide StartsWith, CandidateLine, CandidateOf;
    assert lines[0] == CANDIDATE + CandidateOf(env) && lines[..0] == [] && lines[1..] == [END_OF_CANDIDATES];
  }

  lemma MLineLacks(m: string, name: string)
    requires StartsWith(m, "m=") && name != "" && name[0] != 'm'
    ensures Lacks([m], name)
  {
    NotPrefix(m, name, 0);
  }

  lemma SkippedNames()
    ensures |SKIP_PREFIXES| == 14 && StartsWith(CANDIDATE, SKIP_PREFIXES[3]) && StartsWith(MSID, SKIP_PREFIXES[13])
  {
    assert CANDIDATE[..11] == SKIP_PREFIXES[3] && MSID[..6] == SKIP_PREFIXES[13];
  }

  lemma SectionHasCandidate(s: Section, env: Env, conference: bool)
    requires ParsedSection(s) && StartsWith(AnswerMLine(s, conference), "m=")
    ensures Carries(SectionLines(s, env, conference), CANDIDATE, CandidateOf(env))
  {
    hide StartsWith, Credentials, FlagLines, CodecLines, AnswerMLine, CandidateLine, CandidateOf, ParsedSection,
         Carries, Lacks;
    SkippedNames();
    MLineLacks(AnswerMLine(s, conference), CANDIDATE);
    CredentialsLackThird(env, CANDIDATE, 'c');
    FlagsLackThird(s, conference, CANDIDATE);
    CodecsLackSkipped(s, conference, CANDIDATE, 3);
    EndsCarry(env);
    CarriesAtEnd([AnswerMLine(s, conference)], Credentials(env), FlagLines(s, conference), CodecLines(s, conference),
                 [CandidateLine(env), END_OF_CANDIDATES], CANDIDATE, CandidateOf(env));
  }

  lemma CarriesAtEnd(a: seq<string>, b: seq<string>, c: seq<string>, d: seq<string>, lines: seq<string>, name: string,
                     value: string)
    requires Lacks(a, name) && Lacks(b, name) && Lacks(c, name) && Lacks(d, name) && Carries(lines, name, value)
    ensures Carries(a + ((b + c) + (d + lines)), name, value)
  {
    LacksBoth(a, b, name);
    LacksBoth(a + b, c, name);
    LacksBoth(a + b + c, d, name);
    assert Lacks([], name);
    hide Lacks, Carries;
    CarriesBetween(a + b + c + d, lines, [], name, value);
    assert (a + b + c + d) + (lines + []) == a + ((b + c) + (d + lines));
  }

  /**
   * Every media section of the answer's text states once the server's address, ICE credentials, fingerprint and
   * candidate, that the server is the passive side of the DTLS handshake and that RTP and RTCP share the port.
   */
  lemma AnswerStates(offer: string, env: Env, conference: bool, k: nat)
    requires SingleLineEnv(env) && !Has(env.port, ' ')
    requires PatchesAreRight(Parse(Lines(offer), env.port), env, conference)
    requires k < |Parse(Lines(offer), env.port)|
    ensures var groups := Groups(Lines(AnswerText(Parse(Lines(offer), env.port), env, conference)));
            && |groups| == |Parse(Lines(offer), env.port)|
            && Carries(groups[k], "c=", "IN IP4 " + env.ip)
            && Carries(groups[k], "a=ice-ufrag:", env.ufrag) && Carries(groups[k], "a=ice-pwd:", env.pwd)
            && Carries(groups[k], "a=fingerprint:", env.fingerprint) && Carries(groups[k], "a=setup:", "passive")
            && Carries(groups[k], "a=rtcp-mux", "")
            && Carries(groups[k], "a=candidate:",
                       "1 1 udp 2113937151 " + env.ip + " " + env.port + " typ host generation 0")
  {
    var sections := Parse(Lines(offer), env.port);
    ParsedHasPort(Lines(offer), env.port);
    hide Parse, Lines, AnswerText, Groups, SectionLines, ParsedSection, Carries, HasPort, Has, PatchesAreRight;
    AnswerGroups(offer, env, conference);
    MLineAgain(sections[k], env.port, conference);
    assert CandidateOf(env) == "1 1 udp 2113937151 " + env.ip + " " + env.port + " typ host generation 0";
    hide StartsWith, AnswerMLine, CandidateOf;
    SectionStates(sections[k], env, conference, 0);
    SectionStates(sections[k], env, conference, 1);
    SectionStates(sections[k], env, conference, 2);
    SectionStates(sections[k], env, conference, 3);
    SectionStates(sections[k], env, conference, 4);
    SectionStates(sections[k], env, conference, 5);
    SectionHasCandidate(sections[k], env, conference);
  }

  lemma FlagsMsid(s: Section, conference: bool)
    ensures if AnswerDirection(s.direction, conference).SendOnly?
            then Carries(FlagLines(s, conference), MSID, "server-" + s.mid + " server-" + s.mid + "-track")
            else Lacks(FlagLines(s, conference), MSID)
  {
    var d := AnswerDirection(s.direction, conference);
    var value := "server-" + s.mid + " server-" + s.mid + "-track";
    var lines := FlagLines(s, conference);
    NotPrefix("a=rtcp-rsize", MSID, 2);
    PrefixIs(d);
    NotPrefix(DirectionPrefix(d), MSID, 2);
    if d.SendOnly? {
      assert MsidLine(s.mid) == MSID + value;
      hide MsidLine, StartsWith;
      var n := |lines| - 1;
      assert lines[n] == MSID + value && lines[n + 1..] == [];
      assert Lacks(lines[..n], MSID);
    }
  }

  lemma EndsLackMsid(env: Env)
    ensures Lacks([CandidateLine(env), END_OF_CANDIDATES], MSID)
  {
    NotPrefix(CandidateLine(env), MSID, 2);
    EndLacks(MSID);
    hide StartsWith, CandidateLine;
  }

  /** A section that the server only sends in names its track; no other section has an a=msid line. */
  lemma SectionNamesTrack(s: Section, env: Env, conference: bool)
    requires ParsedSection(s) && StartsWith(AnswerMLine(s, conference), "m=")
    ensures if AnswerDirection(s.direction, conference).SendOnly?
            then Carries(SectionLines(s, env, conference), MSID, "server-" + s.mid + " server-" + s.mid + "-track")
            else Lacks(SectionLines(s, env, conference), MSID)
  {
    hide StartsWith, Credentials, FlagLines, CodecLines, AnswerMLine, CandidateLine, ParsedSection, Carries, Lacks,
         AnswerDirection;
    SkippedNames();
    MLineLacks(AnswerMLine(s, conference), MSID);
    CredentialsLackThird(env, MSID, 'm');
    FlagsMsid(s, conference);
    CodecsLackSkipped(s, conference, MSID, 13);
    EndsLackMsid(env);
    Around([AnswerMLine(s, conference)], Credentials(env), FlagLines(s, conference), CodecLines(s, conference),
           [CandidateLine(env), END_OF_CANDIDATES], MSID, "server-" + s.mid + " server-" + s.mid + "-track");
  }

  lemma Around(a: seq<string>, b: seq<string>, lines: seq<string>, c: seq<string>, d: seq<string>, name: string,
               value: string)
    requires Lacks(a, name) && Lacks(b, name) && Lacks(c, name) && Lacks(d, name)
    ensures Carries(lines, name, value) ==> Carries(a + ((b + lines) + (c + d)), name, value)
    ensures Lacks(lines, name) ==> Lacks(a + ((b + lines) + (c + d)), name)
  {
    hide Lacks, Carries;
    LacksBoth(a, b, name);
    LacksBoth(c, d, name);
    assert (a + b) + (lines + (c + d)) == a + ((b + lines) + (c + d));
    if Carries(lines, name, value) {
      CarriesBetween(a + b, lines, c + d, name, value);
    }
    if Lacks(lines, name) {
      LacksBoth(lines, c + d, name);
      LacksBoth(a + b, lines + (c + d), name);
    }
  }

  /** Exactly the sections in which the server sends and does not receive name a track, that of their mid. */
  lemma AnswerNamesTracks(offer: string, env: Env, conference: bool, k: nat)
    requires SingleLineEnv(env) && !Has(env.port, ' ')
    requires PatchesAreRight(Parse(Lines(offer), env.port), env, conference)
    requires k < |Parse(Lines(offer), env.port)|
    ensures var lines := Lines(AnswerText(Parse(Lines(offer), env.port), env, conference));
            var (groups, answered) := (Groups(lines), Parse(lines, env.port));
            && |groups| == |answered| == |Parse(Lines(offer), env.port)|
            && var (d, mid) := (answered[k].direction, answered[k].mid);
            if Sends(d) && !Receives(d)
            then Carries(groups[k], "a=msid:", "server-" + mid + " server-" + mid + "-track")
            else Lacks(groups[k], "a=msid:")
  {
    var sections := Parse(Lines(offer), env.port);
    ParsedHasPort(Lines(offer), env.port);
    hide Parse, Lines, AnswerText, Groups, SectionLines, ParsedSection, Carries, Lacks, HasPort, Has, PatchesAreRight,
         CodecLines;
    AnswerReparses(offer, env, conference);
    AnswerGroups(offer, env, conference);
    MLineAgain(sections[k], env.port, conference);
    hide StartsWith, AnswerMLine;
    SectionNamesTrack(sections[k], env, conference);
  }

  /** In front of its media sections the answer says that the server is a lite ICE agent. */
  lemma AnswerIsLite(offer: string, env: Env, conference: bool)
    requires SingleLineEnv(env) && PatchesAreRight(Parse(Lines(offer), env.port), env, conference)
    ensures var lines := Lines(AnswerText(Parse(Lines(offer), env.port), env, conference));
            exists n :: 0 < n < |lines| && lines[0] == "v=0" && lines[n] == "a=ice-lite" && NoMLine(lines[..n])
  {
    var sections := Parse(Lines(offer), env.port);
    var header := HeaderLines(sections, env);
    AnswerTextLines(offer, env, conference);
    HeaderHasNoMedia(sections, env);
    assert header[0] == "v=0" && header[5] == "a=ice-lite";
    hide Parse, Lines, AnswerText, HeaderLines, AllSectionLines, PatchesAreRight, SingleLineEnv, KindOf;
    NoMLineByKind(header);
    hide NoMedia, StartsWith;
    assert AnswerLines(sections, env, conference)[..5] == header[..5];
  }
}
