/** Offers that the section parser reads as the failing cases of the answer in src/protocol/sdp.rs. */
module SdpOffers {
  import opened Basics
  import opened Text
  import opened SdpParse
  import opened SdpAnswer
  import opened SdpPatch
  import opened SdpReparse
  import opened SdpPayload
  import opened SdpUfrag
  import opened Relay
  import N = SdpRenego

  /** An m= line, a direction and one more line are read as one section. */
  lemma ParseThree(m: string, d: Direction, line: string, port: string)
    requires StartsWith(m, "m=") && SetPort(m, port) == m && !KindOf(line).Media?
    requires OneLine(m) && OneLine(line)
    ensures var offer := Join([m, "a=" + d.Name(), line]);
            Parse(Lines(offer), port) == [Absorb(NewSection(m, port).(direction := d), line)]
  {
    hide KindOf, Parse, AbsorbAll, Join, Lines, OneLine, SetPort, StartsWith;
    DirectionKind(d);
    DirectionOneLine(d);
    MediaKind(m);
    var body := ["a=" + d.Name(), line];
    assert [m, "a=" + d.Name(), line] == [] + [m] + body;
    LinesOfJoin([m, "a=" + d.Name(), line]);
    ParseSection([], m, body, port);
    ParseHeader([], port);
    AbsorbTwo(NewSection(m, port), d, line);
  }

  lemma DirectionOneLine(d: Direction)
    ensures OneLine("a=" + d.Name())
  {
  }

  lemma AbsorbTwo(s: Section, d: Direction, line: string)
    ensures AbsorbAll(s, ["a=" + d.Name(), line]) == Absorb(s.(direction := d), line)
  {
    hide KindOf, AbsorbAll;
    DirectionKind(d);
    AbsorbCons(s, "a=" + d.Name(), [line]);
    assert ["a=" + d.Name()] + [line] == ["a=" + d.Name(), line];
    AbsorbOne(s.(direction := d), line);
  }

  // ------------------------------------------------------------------------
  // No allowed payload type
  // ------------------------------------------------------------------------

  lemma PcmuKind()
    ensures KindOf(PCMU_LINE) == Kept
  {
    var line := PCMU_LINE;
    NotPrefix(line, "m=", 0);
    NotPrefix(line, "a=sendrecv", 2);
    NotPrefix(line, "a=recvonly", 3);
    NotPrefix(line, "a=sendonly", 2);
    NotPrefix(line, "a=inactive", 2);
    NotPrefix(line, "a=rtcp-rsize", 4);
    NotPrefix(line, "a=mid:", 2);
    forall i | 0 <= i < |SKIP_PREFIXES| ensures !StartsWith(line, SKIP_PREFIXES[i]) {
      if i == 10 { NotPrefix(line, SKIP_PREFIXES[i], 0); }
      else if i == 6 { NotPrefix(line, SKIP_PREFIXES[i], 3); }
      else if i == 8 || i == 9 { NotPrefix(line, SKIP_PREFIXES[i], 4); }
      else { NotPrefix(line, SKIP_PREFIXES[i], 2); }
    }
  }

  lemma AudioLine(port: string, rest: string)
    requires !Has(port, ' ') && OneLine(port) && OneLine(rest)
    ensures var m := Spaced("m=audio", port, "UDP/TLS/RTP/SAVPF", rest);
            StartsWith(m, "m=") && MediaTypeOf(m) == AudioMedia && SetPort(m, port) == m && OneLine(m)
  {
    var m := Spaced("m=audio", port, "UDP/TLS/RTP/SAVPF", rest);
    assert m[..2] == "m=" && m[..7] == "m=audio";
    assert OneLine("m=audio") && OneLine("UDP/TLS/RTP/SAVPF");
    OneLineSpaced("m=audio", port, "UDP/TLS/RTP/SAVPF", rest);
    PortOfSpaced("m=audio", port, "UDP/TLS/RTP/SAVPF", rest, port);
  }

  /** The answer to a receive-only audio section with payload type 0 alone lists it without its rtpmap line. */
  lemma PcmuOffer(port: string, conference: bool)
    requires !Has(port, ' ') && OneLine(port)
    ensures var offer := Join([Spaced("m=audio", port, "UDP/TLS/RTP/SAVPF", "0"), "a=recvonly", PCMU_LINE]);
            var sections := Parse(Lines(offer), port);
            && |sections| == 1 && MediaPts(sections[0].mLine) == RtpmapPts(sections[0].codecLines)
            && MediaPts(AnswerMLine(sections[0], conference)) != RtpmapPts(CodecLines(sections[0], conference))
  {
    hide Join, Lines, Parse, KindOf, SetPort, Spaced, MediaTypeOf, StartsWith, MediaPts, RtpmapPts, AnswerMLine,
         CodecLines;
    var m := Spaced("m=audio", port, "UDP/TLS/RTP/SAVPF", "0");
    assert OneLine("0") && OneLine(PCMU_LINE);
    AudioLine(port, "0");
    PcmuKind();
    ParseThree(m, RecvOnly, PCMU_LINE, port);
    assert "a=" + RecvOnly.Name() == "a=recvonly";
    assert Absorb(NewSection(m, port).(direction := RecvOnly), PCMU_LINE) == PcmuSection(port);
    AudioWithoutOpus(port, conference);
  }

  // ------------------------------------------------------------------------
  // An offer with one audio section
  // ------------------------------------------------------------------------

  lemma TrimNothing(s: string)
    requires s != [] && !IsWhitespace(s[0]) && !IsWhitespace(s[|s| - 1])
    ensures Trim(s) == s
  {
  }

  predicate Trimmed(mid: string) {
    mid != "" && !IsWhitespace(mid[0]) && !IsWhitespace(mid[|mid| - 1]) && OneLine(mid)
  }

  function AudioMLine(port: string): string {
    Spaced("m=audio", port, "UDP/TLS/RTP/SAVPF", "111 0")
  }

  function AudioSection(port: string, d: Direction, mid: string): Section {
    Section(AudioMLine(port), ["a=mid:" + mid], mid, d, false, AudioMedia)
  }

  function AudioOffer(port: string, d: Direction, mid: string): string {
    Join([AudioMLine(port), "a=" + d.Name(), "a=mid:" + mid])
  }

  lemma MidLineKind(mid: string)
    requires Trimmed(mid)
    ensures KindOf("a=mid:" + mid) == Mid(mid) && OneLine("a=mid:" + mid)
  {
    var line := "a=mid:" + mid;
    assert line[..6] == "a=mid:" && line[6..] == mid;
    assert OneLine("a=mid:");
    OneLineAppend("a=mid:", mid);
    TrimNothing(mid);
    hide Trim, OneLine;
    N.MidKind(line);
  }

  lemma AudioSectionParsed(port: string, d: Direction, mid: string)
    requires !Has(port, ' ') && OneLine(port) && Trimmed(mid)
    ensures ParsedSection(AudioSection(port, d, mid))
  {
    assert OneLine("111 0");
    hide KindOf, OneLine, Has, Spaced, MediaTypeOf, StartsWith, Trimmed;
    AudioLine(port, "111 0");
    MidLineKind(mid);
    var lines := AudioSection(port, d, mid).codecLines;
    assert lines[..|lines| - 1] == [];
  }

  lemma AudioOfferParsed(port: string, d: Direction, mid: string)
    requires !Has(port, ' ') && OneLine(port) && Trimmed(mid)
    ensures Parse(Lines(AudioOffer(port, d, mid)), port) == [AudioSection(port, d, mid)]
  {
    assert OneLine("111 0");
    hide Join, Lines, Parse, SetPort, Spaced, MediaTypeOf, Trim, OneLine, StartsWith, KindOf, Trimmed;
    var m := AudioMLine(port);
    AudioLine(port, "111 0");
    MidLineKind(mid);
    ParseThree(m, d, "a=mid:" + mid, port);
    assert [] + ["a=mid:" + mid] == ["a=mid:" + mid];
  }

  lemma TwoWords()
    ensures Words("111 0") == ["111", "0"]
  {
    IsWords();
    hide Words, IsWord;
    assert "111 0" == "111" + " " + "0";
    WordsOfFirst("111", "0");
    WordsOfFirst("0", "");
    assert ["111"] + ["0"] == ["111", "0"];
  }

  lemma IsWords()
    ensures IsWord("111") && IsWord("0")
  {
  }

  lemma FilterTwo()
    ensures Filter(["111", "0"], ["111"]) == ["111"]
  {
    FilterSnoc([], "111", ["111"]);
    FilterSnoc(["111"], "0", ["111"]);
    FilterNothing(["111"]);
    hide Filter;
    assert "0" !in ["111"];
    assert [] + ["111"] == ["111"] && ["111"] + ["0"] == ["111", "0"];
  }

  lemma FilterNothing(allowed: seq<string>)
    ensures Filter([], allowed) == []
  {
  }

  lemma AudioSectionFiltered(port: string, mid: string)
    requires !Has(port, ' ')
    ensures FilteredMLine(AudioSection(port, RecvOnly, mid))
         == Some(Spaced("m=audio", port, "UDP/TLS/RTP/SAVPF", "111"))
  {
    assert !Has("m=audio", ' ') && !Has("UDP/TLS/RTP/SAVPF", ' ');
    hide Words, Spaced, SplitN, Has, JoinWith, Filter;
    SplitFour("m=audio", port, "UDP/TLS/RTP/SAVPF", "111 0");
    TwoWords();
    FilterTwo();
    JoinOnePart("111");
  }

  lemma JoinOnePart(part: string)
    ensures JoinWith([part], " ") == part
  {
  }

  lemma ShorterMLine(port: string)
    ensures AudioMLine(port) == Spaced("m=audio", port, "UDP/TLS/RTP/SAVPF", "111") + " 0"
  {
  }

  // ------------------------------------------------------------------------
  // Misled patches
  // ------------------------------------------------------------------------

  /** The patch of the receive-only audio section is needed; it goes wrong if the attributes contain the m= line. */
  lemma AudioPatch(env: Env, mid: string, conference: bool)
    requires !Has(env.port, ' ') && HeadHasMLine(AudioSection(env.port, RecvOnly, mid), env, conference)
    ensures !PatchesAreRight([AudioSection(env.port, RecvOnly, mid)], env, conference)
  {
    hide Spaced, FilteredMLine, HeadHasMLine, Has;
    var s := AudioSection(env.port, RecvOnly, mid);
    AudioSectionFiltered(env.port, mid);
    ShorterMLine(env.port);
    assert !PatchIsRight(s, env, conference);
    assert [s][0] == s;
  }

  /** An offer whose patch is misled is not answered by the answer's lines. */
  lemma MisledOffer(env: Env, mid: string, conference: bool)
    requires !Has(env.port, ' ') && OneLine(env.port) && Trimmed(mid)
    requires HeadHasMLine(AudioSection(env.port, RecvOnly, mid), env, conference)
    ensures var sections := Parse(Lines(AudioOffer(env.port, RecvOnly, mid)), env.port);
            AnswerText(sections, env, conference) != Join(AnswerLines(sections, env, conference))
  {
    hide Parse, Lines, AudioOffer, AudioSection, AnswerText, AnswerLines, Join, PatchesAreRight, HeadHasMLine, OneLine,
         Has, Trimmed, ParsedSection;
    AudioOfferParsed(env.port, RecvOnly, mid);
    AudioSectionParsed(env.port, RecvOnly, mid);
    AudioPatch(env, mid, conference);
    AnswerIsItsLines([AudioSection(env.port, RecvOnly, mid)], env, conference);
  }

  lemma MLineTrimmed(port: string)
    requires !Has(port, ' ') && OneLine(port)
    ensures Trimmed(AudioMLine(port))
  {
    assert OneLine("111 0");
    AudioLine(port, "111 0");
    var m := AudioMLine(port);
    assert m[0] == 'm' && m[|m| - 1] == '0';
  }

  /** The mid is the m= line with the server's port: the patch lands in the msid line. */
  lemma MidOfferMisleads(env: Env, conference: bool)
    requires !Has(env.port, ' ') && OneLine(env.port)
    ensures var sections := Parse(Lines(AudioOffer(env.port, RecvOnly, AudioMLine(env.port))), env.port);
            AnswerText(sections, env, conference) != Join(AnswerLines(sections, env, conference))
  {
    hide Parse, Lines, AudioOffer, AnswerText, AnswerLines, Join, HeadHasMLine, OneLine, Has, AudioMLine;
    MLineTrimmed(env.port);
    MediaLineAsMidMisleads(AudioSection(env.port, RecvOnly, AudioMLine(env.port)), env, conference);
    MisledOffer(env, AudioMLine(env.port), conference);
  }

  /** The ufrag is the m= line: the patch lands in the credentials, also with an SDP token as mid. */
  lemma UfragOfferMisleads(env: Env, mid: string, conference: bool)
    requires !Has(env.port, ' ') && OneLine(env.port) && Trimmed(mid) && env.ufrag == AudioMLine(env.port)
    ensures var sections := Parse(Lines(AudioOffer(env.port, RecvOnly, mid)), env.port);
            AnswerText(sections, env, conference) != Join(AnswerLines(sections, env, conference))
  {
    hide Parse, Lines, AudioOffer, AnswerText, AnswerLines, Join, HeadHasMLine, OneLine, Has, AudioMLine;
    MediaLineAsUfragMisleads(AudioSection(env.port, RecvOnly, mid), env, conference);
    MisledOffer(env, mid, conference);
  }

  // ------------------------------------------------------------------------
  // A ufrag with a line feed
  // ------------------------------------------------------------------------

  const TWO_LINES := "a\r\nm=b"

  lemma ShortLines()
    ensures OneLine("a=ice-ufrag:a\r") && OneLine("m=b") && KindOf("m=b").Media?
  {
    MediaKind("m=b");
  }

  lemma LinesOfTwo()
    ensures Lines("a=ice-ufrag:a\r" + "\n" + "m=b\r\n") == [StripCr("a=ice-ufrag:a\r")] + ["m=b"]
  {
    hide Lines, KindOf, OneLine, StripCr;
    ShortLines();
    LinesOfPiece("a=ice-ufrag:a\r", "m=b\r\n");
    ExpandSingle("m=b");
    assert "m=b" + "\r\n" == "m=b\r\n";
  }

  lemma ExtraMediaLine(env: Env)
    requires env.ufrag == TWO_LINES
    ensures Extra(env) == ["m=b"] && !NoMedia(Extra(env))
  {
    hide Lines, KindOf, OneLine, StripCr, UfragLine;
    TwoLinesSplit(env);
    LinesOfTwo();
    ShortLines();
    assert KindOf(Extra(env)[0]).Media?;
  }

  lemma TwoLinesSplit(env: Env)
    requires env.ufrag == TWO_LINES
    ensures UfragLine(env) + "\r\n" == "a=ice-ufrag:a\r" + "\n" + "m=b\r\n"
  {
  }

  /** Any renegotiated answer to an offered inactive section then has two media sections. */
  lemma UfragAddsSection(env: Env, mid: string, mappings: seq<SsrcMapping>)
    requires OwnLines(env) && !Has(env.port, ' ') && Trimmed(mid) && env.ufrag == TWO_LINES
    ensures var sections := Parse(Lines(AudioOffer(env.port, Inactive, mid)), env.port);
            && |sections| == 1
            && |N.Groups(Lines(N.RenegoText(AnswerText(sections, env, true), mappings)))| != |sections|
  {
    hide Parse, Lines, AudioOffer, AnswerText, N.RenegoText, N.Groups, Extra, NoMedia, Has, OneLine, Trimmed;
    OwnPort(env);
    AudioOfferParsed(env.port, Inactive, mid);
    ExtraMediaLine(env);
    InactiveIsRight(env, mid);
    N.GroupPerSection(AudioOffer(env.port, Inactive, mid), env, mappings);
  }

  lemma InactiveIsRight(env: Env, mid: string)
    ensures PatchesAreRight([AudioSection(env.port, Inactive, mid)], env, true)
  {
  }
}
