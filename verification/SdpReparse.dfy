/** The answer of src/protocol/sdp.rs, read again by the section parser that reads the offer. */
module SdpReparse {
  import opened Basics
  import opened Text
  import opened SdpParse
  import opened SdpAnswer
  import opened SdpPatch

  // ------------------------------------------------------------------------
  // The kinds of the printed lines
  // ------------------------------------------------------------------------

  lemma NotPrefix(s: string, p: string, k: nat)
    requires k < |p| && (k < |s| ==> s[k] != p[k])
    ensures !StartsWith(s, p)
  {
  }

  /** No attribute line that the parser looks at has such a third character, except those it collects. */
  predicate OtherThird(line: string) {
    |line| >= 3 && line[0] == 'a' && line[2] !in {'s', 'r', 'i'}
  }

  lemma OtherThirdKind(line: string)
    requires OtherThird(line)
    ensures KindOf(line) == if Skips(line) then Skipped
                            else if StartsWith(line, "a=mid:") then Mid(Trim(line[6..]))
                            else Kept
  {
    NotPrefix(line, "m=", 0);
    NotPrefix(line, "a=sendrecv", 2);
    NotPrefix(line, "a=recvonly", 2);
    NotPrefix(line, "a=sendonly", 2);
    NotPrefix(line, "a=inactive", 2);
    NotPrefix(line, "a=rtcp-rsize", 2);
  }

  lemma ConnectionKind(ip: string)
    ensures KindOf("c=IN IP4 " + ip) == Skipped
  {
    var line := "c=IN IP4 " + ip;
    assert line[0] == 'c';
    NotPrefix(line, "m=", 0);
    NotPrefix(line, "a=sendrecv", 0);
    NotPrefix(line, "a=recvonly", 0);
    NotPrefix(line, "a=sendonly", 0);
    NotPrefix(line, "a=inactive", 0);
    NotPrefix(line, "a=rtcp-rsize", 0);
    assert line[..2] == "c=";
    assert StartsWith(line, SKIP_PREFIXES[10]);
  }

  lemma IceKind(line: string)
    requires StartsWith(line, "a=ice-")
    ensures KindOf(line) == Skipped
  {
    assert line[2] == 'i' && line[3] == 'c';
    NotPrefix(line, "m=", 0);
    NotPrefix(line, "a=sendrecv", 2);
    NotPrefix(line, "a=recvonly", 2);
    NotPrefix(line, "a=sendonly", 2);
    NotPrefix(line, "a=inactive", 3);
    NotPrefix(line, "a=rtcp-rsize", 2);
    assert StartsWith(line, SKIP_PREFIXES[0]);
  }

  lemma SetupKind()
    ensures KindOf("a=setup:passive") == Skipped
  {
    var line := "a=setup:passive";
    NotPrefix(line, "m=", 0);
    NotPrefix(line, "a=sendrecv", 4);
    NotPrefix(line, "a=recvonly", 2);
    NotPrefix(line, "a=sendonly", 4);
    NotPrefix(line, "a=inactive", 2);
    NotPrefix(line, "a=rtcp-rsize", 2);
    assert StartsWith(line, SKIP_PREFIXES[2]) by { assert line[..7] == SKIP_PREFIXES[2]; }
  }

  lemma RtcpMuxKind()
    ensures KindOf("a=rtcp-mux") == Skipped
  {
    var line := "a=rtcp-mux";
    NotPrefix(line, "m=", 0);
    NotPrefix(line, "a=sendrecv", 2);
    NotPrefix(line, "a=recvonly", 3);
    NotPrefix(line, "a=sendonly", 2);
    NotPrefix(line, "a=inactive", 2);
    NotPrefix(line, "a=rtcp-rsize", 7);
    assert StartsWith(line, SKIP_PREFIXES[8]);
  }

  lemma RtcpRsizeKind()
    ensures KindOf("a=rtcp-rsize") == Rsize
  {
    var line := "a=rtcp-rsize";
    NotPrefix(line, "m=", 0);
    NotPrefix(line, "a=sendrecv", 2);
    NotPrefix(line, "a=recvonly", 3);
    NotPrefix(line, "a=sendonly", 2);
    NotPrefix(line, "a=inactive", 2);
  }

  lemma DirectionKind(d: Direction)
    ensures KindOf("a=" + d.Name()) == Directs(d)
  {
    var line := "a=" + d.Name();
    NotPrefix(line, "m=", 0);
    match d
    case SendRecv =>
      assert line == "a=sendrecv";
    case RecvOnly =>
      assert line == "a=recvonly";
      NotPrefix(line, "a=sendrecv", 2);
    case SendOnly =>
      assert line == "a=sendonly";
      NotPrefix(line, "a=sendrecv", 6);
      NotPrefix(line, "a=recvonly", 2);
    case Inactive =>
      assert line == "a=inactive";
      NotPrefix(line, "a=sendrecv", 2);
      NotPrefix(line, "a=recvonly", 2);
      NotPrefix(line, "a=sendonly", 2);
  }

  lemma SkipKind(line: string, i: nat)
    requires OtherThird(line) && i < |SKIP_PREFIXES| && StartsWith(line, SKIP_PREFIXES[i])
    ensures KindOf(line) == Skipped
  {
    OtherThirdKind(line);
  }

  lemma EndKind()
    ensures KindOf(END_OF_CANDIDATES) == Kept && IsCodecLine(END_OF_CANDIDATES)
  {
    var line := END_OF_CANDIDATES;
    assert OtherThird(line);
    OtherThirdKind(line);
    NotPrefix(line, "a=mid:", 2);
    forall i | 0 <= i < |SKIP_PREFIXES| ensures !StartsWith(line, SKIP_PREFIXES[i]) {
      if i == 10 { NotPrefix(line, SKIP_PREFIXES[i], 0); } else { NotPrefix(line, SKIP_PREFIXES[i], 2); }
    }
  }

  // ------------------------------------------------------------------------
  // Reading a printed section
  // ------------------------------------------------------------------------

  /** The section that the parser makes of a printed one. */
  function AnswerSection(s: Section, conference: bool): Section {
    Section(AnswerMLine(s, conference), CodecLines(s, conference) + [END_OF_CANDIDATES], s.mid,
            AnswerDirection(s.direction, conference), s.rsize, s.mediaType)
  }

  predicate AllSkipped(lines: seq<string>) {
    forall i :: 0 <= i < |lines| ==> KindOf(lines[i]) == Skipped
  }

  lemma {:induction false} AbsorbSkipped(s: Section, lines: seq<string>)
    requires AllSkipped(lines)
    ensures AbsorbAll(s, lines) == s
  {
    if lines != [] {
      AbsorbSkipped(s, lines[..|lines| - 1]);
    }
  }

  lemma FingerprintKind(fingerprint: string)
    ensures KindOf("a=fingerprint:" + fingerprint) == Skipped
  {
    hide KindOf;
    var line := "a=fingerprint:" + fingerprint;
    assert OtherThird(line) && line[..13] == SKIP_PREFIXES[1];
    SkipKind(line, 1);
  }

  lemma CredentialsSkipped(env: Env)
    ensures AllSkipped(Credentials(env))
  {
    hide KindOf;
    ConnectionKind(env.ip);
    IceKind("a=ice-ufrag:" + env.ufrag);
    IceKind("a=ice-pwd:" + env.pwd);
    FingerprintKind(env.fingerprint);
    SetupKind();
    RtcpMuxKind();
  }

  lemma MsidKind(mid: string)
    ensures KindOf(MsidLine(mid)) == Skipped
  {
    hide KindOf;
    var line := MsidLine(mid);
    assert OtherThird(line) && line[..6] == SKIP_PREFIXES[13];
    SkipKind(line, 13);
  }

  lemma CandidateKind(env: Env)
    ensures KindOf(CandidateLine(env)) == Skipped
  {
    hide KindOf;
    var line := CandidateLine(env);
    assert OtherThird(line) && line[..11] == SKIP_PREFIXES[3];
    SkipKind(line, 3);
  }

  lemma AbsorbOne(t: Section, line: string)
    ensures AbsorbAll(t, [line]) == Absorb(t, line)
  {
    assert [line][..0] == [];
  }

  lemma AbsorbFlags(t: Section, s: Section, conference: bool)
    ensures AbsorbAll(t, FlagLines(s, conference))
         == t.(direction := AnswerDirection(s.direction, conference), rsize := t.rsize || s.rsize)
  {
    var direction := AnswerDirection(s.direction, conference);
    var rsize := if s.rsize then ["a=rtcp-rsize"] else [];
    var msid := if direction.SendOnly? then [MsidLine(s.mid)] else [];
    RtcpRsizeKind();
    DirectionKind(direction);
    MsidKind(s.mid);
    hide KindOf, MsidLine;
    AbsorbAppend(t, rsize, ["a=" + direction.Name()] + msid);
    if s.rsize { AbsorbOne(t, "a=rtcp-rsize"); }
    var u := AbsorbAll(t, rsize);
    assert u == t.(rsize := t.rsize || s.rsize);
    AbsorbCons(u, "a=" + direction.Name(), msid);
    AbsorbSkipped(u.(direction := direction), msid);
  }

  lemma AbsorbHead(t: Section, s: Section, env: Env, conference: bool)
    requires !t.rsize
    ensures AbsorbAll(t, HeadLines(s, env, conference))
         == t.(direction := AnswerDirection(s.direction, conference), rsize := s.rsize)
  {
    hide AbsorbAll, Absorb, MsidLine;
    CredentialsSkipped(env);
    AbsorbAppend(t, Credentials(env), FlagLines(s, conference));
    AbsorbSkipped(t, Credentials(env));
    AbsorbFlags(t, s, conference);
  }

  lemma AbsorbCodec(t: Section, lines: seq<string>, line: string)
    requires IsCodecLine(line) && t.codecLines == lines && t.mid == MidOf(lines)
    ensures Absorb(t, line) == t.(codecLines := lines + [line], mid := MidOf(lines + [line]))
  {
    assert (lines + [line])[..|lines|] == lines;
    hide KindOf, OneLine;
  }

  lemma {:induction false} AbsorbCodecs(t: Section, lines: seq<string>)
    requires forall i :: 0 <= i < |lines| ==> IsCodecLine(lines[i])
    requires t.codecLines == [] && t.mid == ""
    ensures AbsorbAll(t, lines) == t.(codecLines := lines, mid := MidOf(lines))
  {
    hide Absorb, IsCodecLine;
    if lines != [] {
      var n := |lines| - 1;
      AbsorbCodecs(t, lines[..n]);
      AbsorbCodec(AbsorbAll(t, lines[..n]), lines[..n], lines[n]);
      assert lines == lines[..n] + [lines[n]];
    }
  }

  lemma AbsorbTail(t: Section, s: Section, env: Env, conference: bool)
    requires forall i :: 0 <= i < |s.codecLines| ==> IsCodecLine(s.codecLines[i])
    requires t.codecLines == [] && t.mid == "" && s.mid == MidOf(s.codecLines)
    ensures AbsorbAll(t, TailLines(s, env, conference))
         == t.(codecLines := CodecLines(s, conference) + [END_OF_CANDIDATES], mid := s.mid)
  {
    var lines := CodecLines(s, conference);
    var kept := t.(codecLines := lines, mid := MidOf(lines));
    KeptCodecLines(s.codecLines, AllowedPts(s));
    CandidateKind(env);
    EndKind();
    hide KindOf, CandidateLine, FilterCodecs, AllowedPts;
    AbsorbAppend(t, lines, [CandidateLine(env), END_OF_CANDIDATES]);
    AbsorbCodecs(t, lines);
    AbsorbCons(kept, CandidateLine(env), [END_OF_CANDIDATES]);
    AbsorbOne(kept, END_OF_CANDIDATES);
    assert [CandidateLine(env)] + [END_OF_CANDIDATES] == [CandidateLine(env), END_OF_CANDIDATES];
  }

  /** The codec filter keeps every a=mid line. */
  lemma {:induction false} KeptCodecLines(lines: seq<string>, allowed: seq<string>)
    requires forall i :: 0 <= i < |lines| ==> IsCodecLine(lines[i])
    ensures var kept := FilterCodecs(lines, allowed);
            MidOf(kept) == MidOf(lines) && forall i :: 0 <= i < |kept| ==> kept[i] in lines && IsCodecLine(kept[i])
  {
    if lines != [] {
      var n := |lines| - 1;
      KeptCodecLines(lines[..n], allowed);
      assert lines[n] in lines && IsCodecLine(lines[n]);
      var before := FilterCodecs(lines[..n], allowed);
      assert (before + [lines[n]])[..|before|] == before;
      if KindOf(lines[n]).Mid? {
        MidIsNoPtLine(lines[n]);
      }
    }
  }

  lemma MidIsNoPtLine(line: string)
    requires KindOf(line).Mid?
    ensures !IsPtLine(line)
  {
    assert StartsWith(line, "a=mid:");
    assert line[2] == 'm';
    NotPrefix(line, "a=rtpmap:", 2);
    NotPrefix(line, "a=fmtp:", 2);
    NotPrefix(line, "a=rtcp-fb:", 2);
  }

  // ------------------------------------------------------------------------
  // The m= line
  // ------------------------------------------------------------------------

  predicate HasPort(s: Section, port: string) {
    SetPort(s.mLine, port) == s.mLine
  }

  lemma PortOfSpaced(a: string, b: string, c: string, d: string, port: string)
    requires !Has(a, ' ') && !Has(b, ' ') && !Has(c, ' ')
    ensures SetPort(Spaced(a, b, c, d), port) == Spaced(a, port, c, d)
  {
    SplitFour(a, b, c, d);
  }

  lemma SetPortTwice(line: string, port: string)
    requires !Has(port, ' ')
    ensures SetPort(SetPort(line, port), port) == SetPort(line, port)
  {
    hide SplitN, Has, Spaced;
    var p := SplitN(line, 4);
    if |p| == 4 {
      FourParts(line);
      PortOfSpaced(p[0], port, p[2], p[3], port);
    }
  }

  lemma {:induction false} ParsedHasPort(lines: seq<string>, port: string)
    requires !Has(port, ' ')
    ensures forall i :: 0 <= i < |Parse(lines, port)| ==> HasPort(Parse(lines, port)[i], port)
  {
    hide SetPort, KindOf;
    if lines != [] {
      var n := |lines| - 1;
      ParsedHasPort(lines[..n], port);
      SetPortTwice(lines[n], port);
    }
  }

  /** The answer's m= line is one for the parser, with the same media type and port. */
  lemma MLineAgain(s: Section, port: string, conference: bool)
    requires ParsedSection(s) && HasPort(s, port) && !Has(port, ' ')
    ensures var m := AnswerMLine(s, conference);
            StartsWith(m, "m=") && MediaTypeOf(m) == s.mediaType && SetPort(m, port) == m
  {
    if AnswerDirection(s.direction, conference).SendOnly? && FilteredMLine(s).Some? {
      hide SplitN, Has, Spaced, AllowedPts, Words, JoinWith, Filter, MediaTypeOf, IndexOf;
      var p := SplitN(s.mLine, 4);
      var last := JoinWith(Filter(Words(p[3]), AllowedPts(s)), " ");
      FourParts(s.mLine);
      SplitFour(p[0], port, p[2], p[3]);
      assert p[1] == port;
      PortOfSpaced(p[0], port, p[2], last, port);
      PartsOfMedia(s.mLine);
      SpacedFromRight(p[0], p[1], p[2], last);
      FirstPart(s.mLine, p[1] + " " + (p[2] + " " + last));
    }
  }

  // ------------------------------------------------------------------------
  // The whole answer
  // ------------------------------------------------------------------------

  predicate NoMid(lines: seq<string>) {
    forall i :: 0 <= i < |lines| ==> !KindOf(lines[i]).Mid?
  }

  lemma HeadHasNoMedia(s: Section, env: Env, conference: bool)
    ensures NoMedia(HeadLines(s, env, conference)) && NoMid(HeadLines(s, env, conference))
  {
    CredentialsSkipped(env);
    RtcpRsizeKind();
    DirectionKind(AnswerDirection(s.direction, conference));
    MsidKind(s.mid);
    hide KindOf, MsidLine, Credentials;
    assert NoMedia(FlagLines(s, conference)) && NoMid(FlagLines(s, conference));
  }

  lemma TailHasNoMedia(s: Section, env: Env, conference: bool)
    requires ParsedSection(s)
    ensures NoMedia(TailLines(s, env, conference))
  {
    KeptCodecLines(s.codecLines, AllowedPts(s));
    CandidateKind(env);
    EndKind();
    hide KindOf, CandidateLine, FilterCodecs, AllowedPts;
    assert NoMedia(CodecLines(s, conference));
  }

  lemma HeaderHasNoMedia(sections: seq<Section>, env: Env)
    ensures NoMedia(HeaderLines(sections, env))
  {
    var lines := HeaderLines(sections, env);
    forall i | 0 <= i < |lines| ensures !KindOf(lines[i]).Media? {
      assert lines[i][0] != 'm';
      NotPrefix(lines[i], "m=", 0);
    }
  }

  lemma MediaKind(line: string)
    requires StartsWith(line, "m=")
    ensures KindOf(line).Media?
  {
  }

  lemma SectionAgain(before: seq<string>, s: Section, env: Env, conference: bool)
    requires ParsedSection(s) && HasPort(s, env.port) && !Has(env.port, ' ')
    ensures Parse(before + SectionLines(s, env, conference), env.port)
         == Parse(before, env.port) + [AnswerSection(s, conference)]
  {
    hide Parse, AbsorbAll, KindOf, AnswerMLine, HeadLines, TailLines, SetPort, MediaTypeOf, CodecLines, StartsWith, Has,
         HasPort, IsCodecLine, MidOf, OneLine;
    var m, head, tail := AnswerMLine(s, conference), HeadLines(s, env, conference), TailLines(s, env, conference);
    var blank := NewSection(m, env.port);
    var directed := blank.(direction := AnswerDirection(s.direction, conference), rsize := s.rsize);
    MLineAgain(s, env.port, conference);
    MediaKind(m);
    HeadHasNoMedia(s, env, conference);
    TailHasNoMedia(s, env, conference);
    AbsorbHead(blank, s, env, conference);
    AbsorbTail(directed, s, env, conference);
    AbsorbAppend(blank, head, tail);
    ParseSection(before, m, head + tail, env.port);
    assert before + [m] + (head + tail) == before + SectionLines(s, env, conference);
  }

  function AnswerSections(sections: seq<Section>, conference: bool): seq<Section> {
    seq(|sections|, i requires 0 <= i < |sections| => AnswerSection(sections[i], conference))
  }

  lemma {:induction false} SectionsAgain(header: seq<string>, sections: seq<Section>, env: Env, conference: bool)
    requires NoMedia(header) && !Has(env.port, ' ')
    requires forall i :: 0 <= i < |sections| ==> ParsedSection(sections[i]) && HasPort(sections[i], env.port)
    ensures Parse(header + AllSectionLines(sections, env, conference), env.port) == AnswerSections(sections, conference)
  {
    hide Parse, SectionLines, ParsedSection, HasPort, AnswerSection;
    if sections == [] {
      ParseHeader(header, env.port);
      assert header + [] == header;
    } else {
      var n := |sections| - 1;
      var before, lines := AllSectionLines(sections[..n], env, conference), SectionLines(sections[n], env, conference);
      SectionsAgain(header, sections[..n], env, conference);
      SectionAgain(header + before, sections[n], env, conference);
      assert header + before + lines == header + (before + lines);
      assert AnswerSections(sections, conference)
          == AnswerSections(sections[..n], conference) + [AnswerSection(sections[n], conference)];
    }
  }

  // ------------------------------------------------------------------------
  // The text of the answer
  // ------------------------------------------------------------------------

  lemma {:induction false} TrimStartOneLine(s: string)
    requires OneLine(s)
    ensures OneLine(TrimStart(s))
  {
    if s != [] && IsWhitespace(s[0]) {
      TrimStartOneLine(s[1..]);
    }
  }

  lemma {:induction false} TrimEndOneLine(s: string)
    requires OneLine(s)
    ensures OneLine(TrimEnd(s))
  {
    if s != [] && IsWhitespace(s[|s| - 1]) {
      TrimEndOneLine(s[..|s| - 1]);
    }
  }

  lemma MidKindOneLine(line: string)
    requires OneLine(line) && KindOf(line).Mid?
    ensures OneLine(KindOf(line).mid)
  {
    hide TrimStart, TrimEnd;
    assert KindOf(line).mid == Trim(line[6..]);
    TrimStartOneLine(line[6..]);
    TrimEndOneLine(TrimStart(line[6..]));
  }

  /** The mid of a parsed section is a single line, whatever the offer. */
  lemma {:induction false} MidOneLine(lines: seq<string>)
    requires forall i :: 0 <= i < |lines| ==> IsCodecLine(lines[i])
    ensures OneLine(MidOf(lines))
  {
    hide KindOf, OneLine;
    if lines == [] {
      assert OneLine("") by { NothingIsOneLine(); }
    } else {
      var n := |lines| - 1;
      MidOneLine(lines[..n]);
      assert IsCodecLine(lines[n]);
      if KindOf(lines[n]).Mid? { MidKindOneLine(lines[n]); }
    }
  }

  lemma NothingIsOneLine()
    ensures OneLine("")
  {
  }

  /** All printed values but the ufrag, which a client may have chosen, are single lines. */
  predicate OwnLines(env: Env) {
    OneLine(env.sessionId) && OneLine(env.ip) && OneLine(env.port) && OneLine(env.pwd) && OneLine(env.fingerprint)
  }

  predicate SingleLineEnv(env: Env) {
    OwnLines(env) && OneLine(env.ufrag)
  }

  lemma CredentialsOneLine(env: Env)
    requires SingleLineEnv(env)
    ensures AllOneLine(Credentials(env))
  {
    OneLineAppend("c=IN IP4 ", env.ip);
    OneLineAppend("a=ice-ufrag:", env.ufrag);
    OneLineAppend("a=ice-pwd:", env.pwd);
    OneLineAppend("a=fingerprint:", env.fingerprint);
  }

  lemma MsidOneLine(mid: string)
    requires OneLine(mid)
    ensures OneLine(MsidLine(mid))
  {
    OneLineAppend("a=msid:server-", mid);
    OneLineAppend("a=msid:server-" + mid, " server-");
    OneLineAppend("a=msid:server-" + mid + " server-", mid);
    OneLineAppend("a=msid:server-" + mid + " server-" + mid, "-track");
  }

  lemma CandidateOneLine(env: Env)
    requires OwnLines(env)
    ensures OneLine(CandidateLine(env))
  {
    var first := "a=candidate:1 1 udp 2113937151 ";
    OneLineAppend(first, env.ip);
    OneLineAppend(first + env.ip, " ");
    OneLineAppend(first + env.ip + " ", env.port);
    OneLineAppend(first + env.ip + " " + env.port, " typ host generation 0");
  }

  lemma FlagsOneLine(s: Section, conference: bool)
    requires OneLine(s.mid)
    ensures AllOneLine(FlagLines(s, conference))
  {
    var direction := AnswerDirection(s.direction, conference);
    MsidOneLine(s.mid);
    assert OneLine("a=" + direction.Name());
    assert OneLine("a=rtcp-rsize");
    hide OneLine, MsidLine;
  }

  lemma TailOneLine(s: Section, env: Env, conference: bool)
    requires OwnLines(env) && ParsedSection(s)
    ensures AllOneLine(TailLines(s, env, conference))
  {
    hide OneLine, KindOf, CandidateLine, FilterCodecs, AllowedPts, OwnLines;
    CandidateOneLine(env);
    KeptCodecLines(s.codecLines, AllowedPts(s));
    EndKind();
  }

  lemma SectionOneLine(s: Section, env: Env, conference: bool)
    requires SingleLineEnv(env) && ParsedSection(s) && OneLine(s.mid)
    ensures AllOneLine(SectionLines(s, env, conference))
  {
    hide OneLine, Credentials, FlagLines, TailLines, AnswerMLine, OwnLines, ParsedSection;
    CredentialsOneLine(env);
    FlagsOneLine(s, conference);
    TailOneLine(s, env, conference);
    MLineOneLine(s, conference);
  }

  lemma {:induction false} SectionsOneLine(sections: seq<Section>, env: Env, conference: bool)
    requires SingleLineEnv(env)
    requires forall i :: 0 <= i < |sections| ==> ParsedSection(sections[i]) && OneLine(sections[i].mid)
    ensures AllOneLine(AllSectionLines(sections, env, conference))
  {
    hide SectionLines, ParsedSection, SingleLineEnv, OneLine;
    if sections != [] {
      var n := |sections| - 1;
      SectionsOneLine(sections[..n], env, conference);
      SectionOneLine(sections[n], env, conference);
    }
  }

  lemma HeaderOneLine(sections: seq<Section>, env: Env)
    requires OwnLines(env) && forall i :: 0 <= i < |sections| ==> OneLine(sections[i].mid)
    ensures AllOneLine(HeaderLines(sections, env))
  {
    var first := "o=mini-livechat ";
    OneLineAppend(first, env.sessionId);
    OneLineAppend(first + env.sessionId, " ");
    OneLineAppend(first + env.sessionId + " ", env.sessionId);
    OneLineAppend(first + env.sessionId + " " + env.sessionId, " IN IP4 ");
    OneLineAppend(first + env.sessionId + " " + env.sessionId + " IN IP4 ", env.ip);
    OneLineBlank();
    OneLineJoined(Mids(sections), " ");
    OneLineAppend("a=group:BUNDLE ", JoinWith(Mids(sections), " "));
    assert OneLine("v=0") && OneLine("s=-") && OneLine("t=0 0") && OneLine("a=ice-lite");
    hide OneLine;
  }

  /** The lines of the printed text are the answer's lines. */
  lemma AnswerTextLines(offer: string, env: Env, conference: bool)
    requires SingleLineEnv(env) && PatchesAreRight(Parse(Lines(offer), env.port), env, conference)
    ensures var sections := Parse(Lines(offer), env.port);
            Lines(AnswerText(sections, env, conference)) == AnswerLines(sections, env, conference)
  {
    var sections := Parse(Lines(offer), env.port);
    LinesAreOneLine(offer);
    ParseMakesSections(Lines(offer), env.port);
    forall i | 0 <= i < |sections| ensures OneLine(sections[i].mid) { MidOneLine(sections[i].codecLines); }
    HeaderOneLine(sections, env);
    SectionsOneLine(sections, env, conference);
    hide Parse, Lines, Join, OneLine, HeaderLines, AllSectionLines, AnswerText, ParsedSection;
    AnswerIsItsLines(sections, env, conference);
    LinesOfJoin(AnswerLines(sections, env, conference));
  }

  /**
   * Reading the answer with the offer's parser: as many sections as the offer in the same order, each with the
   * offered mid, media type and rtcp-rsize, the mapped direction, and the codec lines that were printed.
   */
  lemma AnswerReparses(offer: string, env: Env, conference: bool)
    requires SingleLineEnv(env) && !Has(env.port, ' ')
    requires PatchesAreRight(Parse(Lines(offer), env.port), env, conference)
    ensures var sections := Parse(Lines(offer), env.port);
            Parse(Lines(AnswerText(sections, env, conference)), env.port) == AnswerSections(sections, conference)
  {
    var sections := Parse(Lines(offer), env.port);
    AnswerTextLines(offer, env, conference);
    LinesAreOneLine(offer);
    ParseMakesSections(Lines(offer), env.port);
    ParsedHasPort(Lines(offer), env.port);
    HeaderHasNoMedia(sections, env);
    hide Parse, Lines, HeaderLines, AllSectionLines, AnswerText, ParsedSection, HasPort, Has;
    SectionsAgain(HeaderLines(sections, env), sections, env, conference);
  }

  /** The BUNDLE line of the printed text lists the mids of its own sections, in order. */
  lemma BundleListsTheMids(offer: string, env: Env, conference: bool)
    requires SingleLineEnv(env) && !Has(env.port, ' ')
    requires PatchesAreRight(Parse(Lines(offer), env.port), env, conference)
    requires var sections := Parse(Lines(offer), env.port);
             forall i :: 0 <= i < |sections| ==> IsToken(sections[i].mid) && sections[i].mid != ""
    ensures var lines := Lines(AnswerText(Parse(Lines(offer), env.port), env, conference));
            var answered := Parse(lines, env.port);
            && |lines| >= 6 && StartsWith(lines[4], "a=group:BUNDLE ")
            && |Words(lines[4][15..])| == |answered|
            && forall i :: 0 <= i < |answered| ==> Words(lines[4][15..])[i] == answered[i].mid
  {
    hide Parse, Lines, HeaderLines, AllSectionLines, AnswerText, AnswerSections, Words, StartsWith, Has,
         SingleLineEnv;
    var sections := Parse(Lines(offer), env.port);
    AnswerTextLines(offer, env, conference);
    AnswerReparses(offer, env, conference);
    MidsAgain(sections, conference);
    BundleLine(sections, env);
  }

  lemma MidsAgain(sections: seq<Section>, conference: bool)
    ensures Mids(AnswerSections(sections, conference)) == Mids(sections)
  {
  }

  lemma BundleLine(sections: seq<Section>, env: Env)
    requires forall i :: 0 <= i < |sections| ==> IsToken(sections[i].mid) && sections[i].mid != ""
    ensures |HeaderLines(sections, env)| == 6 && StartsWith(HeaderLines(sections, env)[4], "a=group:BUNDLE ")
    ensures Words(HeaderLines(sections, env)[4][15..]) == Mids(sections)
  {
    var mids := Mids(sections);
    forall i | 0 <= i < |mids| ensures IsWord(mids[i]) { TokenIsWord(mids[i]); }
    hide Words, JoinWith;
    WordsOfJoin(mids);
    var line := HeaderLines(sections, env)[4];
    assert line[..15] == "a=group:BUNDLE " && line[15..] == JoinWith(mids, " ");
  }

  lemma TokenIsWord(mid: string)
    requires IsToken(mid) && mid != ""
    ensures IsWord(mid)
  {
    assert forall c :: TokenChar(c) ==> !IsWhitespace(c);
  }
}
