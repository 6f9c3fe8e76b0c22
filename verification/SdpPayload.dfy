/** Payload types of a sendonly section of the answer: its m= line and its codec lines. */
module SdpPayload {
  import opened Basics
  import opened Text
  import opened SdpParse
  import opened SdpAnswer
  import opened SdpReparse
  import opened SdpPatch

  /** The payload types of the rtpmap lines, in their order. */
  function RtpmapPts(lines: seq<string>): seq<string> {
    if lines == [] then []
    else
      var before, last := RtpmapPts(lines[..|lines| - 1]), lines[|lines| - 1];
      if StartsWith(last, "a=rtpmap:") then before + [PtOf(last)] else before
  }

  lemma FilterSnoc(pts: seq<string>, pt: string, allowed: seq<string>)
    ensures Filter(pts + [pt], allowed)
         == if pt in allowed then Filter(pts, allowed) + [pt] else Filter(pts, allowed)
  {
    assert (pts + [pt])[..|pts|] == pts;
  }

  lemma {:induction false} FilterNothingAllowed(pts: seq<string>)
    ensures Filter(pts, []) == []
  {
    if pts != [] {
      FilterNothingAllowed(pts[..|pts| - 1]);
    }
  }

  lemma RtpmapSnoc(lines: seq<string>, line: string)
    ensures RtpmapPts(lines + [line])
         == if StartsWith(line, "a=rtpmap:") then RtpmapPts(lines) + [PtOf(line)] else RtpmapPts(lines)
  {
    assert (lines + [line])[..|lines|] == lines;
  }

  /** The rtpmap lines that the codec filter leaves are those of the allowed payload types, in the old order. */
  lemma {:induction false} FilteredRtpmaps(lines: seq<string>, allowed: seq<string>)
    requires allowed != []
    ensures RtpmapPts(FilterCodecs(lines, allowed)) == Filter(RtpmapPts(lines), allowed)
  {
    if lines != [] {
      var n := |lines| - 1;
      var line := lines[n];
      FilteredRtpmaps(lines[..n], allowed);
      assert StartsWith(line, "a=rtpmap:") ==> IsPtLine(line);
      hide StartsWith, PtOf;
      FilterSnoc(RtpmapPts(lines[..n]), PtOf(line), allowed);
      RtpmapSnoc(FilterCodecs(lines[..n], allowed), line);
    }
  }

  /** Exactly the lines of dropped payload types go. */
  lemma {:induction false} FilteredMembers(lines: seq<string>, allowed: seq<string>, line: string)
    ensures line in FilterCodecs(lines, allowed) <==> line in lines && KeepsCodec(line, allowed)
  {
    hide KeepsCodec;
    if lines != [] {
      var n := |lines| - 1;
      FilteredMembers(lines[..n], allowed, line);
      assert lines == lines[..n] + [lines[n]];
    }
  }

  /** The patched m= line lists the allowed ones of the offered payload types, in the offered order. */
  lemma FilteredMediaPts(s: Section)
    requires FilteredMLine(s).Some?
    ensures MediaPts(FilteredMLine(s).value) == Filter(MediaPts(s.mLine), AllowedPts(s))
  {
    hide SplitN, Spaced, AllowedPts, Words, JoinWith, Filter, Has;
    var p := SplitN(s.mLine, 4);
    var pts := Filter(Words(p[3]), AllowedPts(s));
    FourParts(s.mLine);
    SplitFour(p[0], p[1], p[2], JoinWith(pts, " "));
    WordsAreWords(p[3]);
    FilterMembers(Words(p[3]), AllowedPts(s));
    assert AllWords(pts);
    WordsOfJoin(pts);
  }

  /** The line gives parameters of a payload type `pt` that retransmits `first` (RFC 4588, section 8.6). */
  predicate Retransmits(line: string, pt: string, first: string) {
    StartsWith(line, "a=fmtp:") && Contains(line, "apt=" + first) && Words(line[7..]) != [] && Words(line[7..])[0] == pt
  }

  /**
   * The server sends Opus alone in an audio section, and in any other the first offered codec and what retransmits it.
   */
  lemma AllowedMembers(s: Section, pt: string)
    ensures s.mediaType.AudioMedia? ==> (pt in AllowedPts(s) <==> pt == "111")
    ensures !s.mediaType.AudioMedia? ==>
              (pt in AllowedPts(s) <==>
                 |Words(s.mLine)| > 3
                 && (pt == Words(s.mLine)[3]
                     || exists line :: line in s.codecLines && Retransmits(line, pt, Words(s.mLine)[3])))
  {
    if !s.mediaType.AudioMedia? && |Words(s.mLine)| > 3 {
      RtxMembers(s.codecLines, Words(s.mLine)[3], pt);
    }
  }

  lemma {:induction false} RtxMembers(lines: seq<string>, first: string, pt: string)
    ensures pt in RtxPts(lines, first) <==> exists line :: line in lines && Retransmits(line, pt, first)
  {
    if lines != [] {
      var n := |lines| - 1;
      RtxMembers(lines[..n], first, pt);
      assert forall line :: line in lines <==> line in lines[..n] || line == lines[n];
      hide StartsWith, Contains, Words;
      var before := RtxPts(lines[..n], first);
      assert pt in RtxPts(lines, first) <==> pt in before || Retransmits(lines[n], pt, first);
    }
  }

  predicate SomeAllowed(s: Section) {
    exists pt :: pt in MediaPts(s.mLine) && pt in AllowedPts(s)
  }

  lemma {:induction false} FilterFinds(pts: seq<string>, allowed: seq<string>)
    ensures Filter(pts, allowed) != [] <==> exists pt :: pt in pts && pt in allowed
  {
    if pts != [] {
      var n := |pts| - 1;
      FilterFinds(pts[..n], allowed);
      assert pts == pts[..n] + [pts[n]];
      if pts[n] in allowed {
        assert pts[n] in pts;
      }
    }
  }

  /**
   * An offered section whose m= line lists exactly its rtpmap payload types, in order, is answered by one that
   * does too, if and only if nothing is filtered, an offered payload type is allowed, or none was offered.
   * An audio section without payload type 111 is the case that fails.
   */
  lemma PayloadTypesStayClosed(s: Section, conference: bool)
    requires AnswerDirection(s.direction, conference).SendOnly?
    requires MediaPts(s.mLine) == RtpmapPts(s.codecLines)
    ensures MediaPts(AnswerMLine(s, conference)) == RtpmapPts(CodecLines(s, conference))
            <==> AllowedPts(s) == [] || SomeAllowed(s) || MediaPts(s.mLine) == []
  {
    var allowed, offered := AllowedPts(s), MediaPts(s.mLine);
    hide AllowedPts, Words, Spaced, SplitN;
    if allowed == [] {
      NothingDropped(s.codecLines);
    } else {
      FilteredRtpmaps(s.codecLines, allowed);
      FilterFinds(offered, allowed);
      if Filter(offered, allowed) != [] {
        FilteredMediaPts(s);
      }
    }
  }

  lemma {:induction false} NothingDropped(lines: seq<string>)
    ensures FilterCodecs(lines, []) == lines
  {
    if lines != [] {
      NothingDropped(lines[..|lines| - 1]);
    }
  }

  /** When some offered payload type is allowed, both lists are the allowed ones in the offered order. */
  lemma PayloadTypesInOfferOrder(s: Section, conference: bool)
    requires AnswerDirection(s.direction, conference).SendOnly? && SomeAllowed(s)
    requires MediaPts(s.mLine) == RtpmapPts(s.codecLines)
    ensures MediaPts(AnswerMLine(s, conference)) == Filter(MediaPts(s.mLine), AllowedPts(s))
    ensures RtpmapPts(CodecLines(s, conference)) == Filter(MediaPts(s.mLine), AllowedPts(s))
    ensures forall line :: line in CodecLines(s, conference) <==>
              line in s.codecLines
              && (StartsWith(line, "a=rtpmap:") || StartsWith(line, "a=fmtp:") || StartsWith(line, "a=rtcp-fb:")
                  ==> PtOf(line) in AllowedPts(s))
  {
    var allowed, offered := AllowedPts(s), MediaPts(s.mLine);
    hide AllowedPts, Words, Spaced, SplitN, StartsWith, PtOf;
    FilterFinds(offered, allowed);
    FilteredMediaPts(s);
    FilteredRtpmaps(s.codecLines, allowed);
    forall line ensures line in CodecLines(s, conference) <==> line in s.codecLines && KeepsCodec(line, allowed) {
      FilteredMembers(s.codecLines, allowed, line);
    }
  }

  const PCMU_LINE := "a=rtpmap:0 PCMU/8000"

  function PcmuSection(port: string): Section {
    Section(Spaced("m=audio", port, "UDP/TLS/RTP/SAVPF", "0"), [PCMU_LINE], "", RecvOnly, false, AudioMedia)
  }

  lemma IndexBehind(name: string, c: char, rest: string)
    requires !Has(name, c)
    ensures IndexOf(name + [c] + rest, c) == |name|
  {
    var s := name + [c] + rest;
    assert s[|name|] == c && forall k :: 0 <= k < |name| ==> s[k] == name[k];
    IndexOfIs(s, c, |name|);
  }

  /** The payload type of a line is the first word between its first colon and the next, if there is one. */
  lemma PtBetweenColons(name: string, value: string, rest: string)
    requires !Has(name, ':') && !Has(value, ':') && (rest == "" || rest[0] == ':')
    ensures PtOf(name + ":" + (value + rest)) == if Words(value) == [] then "" else Words(value)[0]
  {
    hide Words;
    var tail := value + rest;
    var line := name + ":" + tail;
    IndexBehind(name, ':', tail);
    assert line[|name| + 1..] == tail;
    if rest == "" {
      assert tail == value && IndexOf(value, ':') == |value|;
    } else {
      assert tail == value + [':'] + rest[1..];
      IndexBehind(value, ':', rest[1..]);
    }
    assert tail[..IndexOf(tail, ':')] == value;
  }

  lemma PtOfColons(name: string, pt: string, rest: string)
    requires !Has(name, ':') && IsWord(pt) && !Has(pt + " " + rest, ':')
    ensures PtOf(name + ":" + (pt + " " + rest)) == pt
  {
    hide Words, PtOf;
    PtBetweenColons(name, pt + " " + rest, "");
    assert pt + " " + rest + "" == pt + " " + rest;
    WordsOfFirst(pt, rest);
  }

  lemma PcmuPt()
    ensures PtOf(PCMU_LINE) == "0" && StartsWith(PCMU_LINE, "a=rtpmap:")
  {
    hide PtOf;
    PtOfColons("a=rtpmap", "0", "PCMU/8000");
    assert PCMU_LINE == "a=rtpmap" + ":" + ("0" + " " + "PCMU/8000");
    assert PCMU_LINE[..9] == "a=rtpmap:";
  }

  lemma PcmuMediaPts(port: string)
    requires !Has(port, ' ')
    ensures MediaPts(PcmuSection(port).mLine) == ["0"]
  {
    hide Words, Spaced, SplitN;
    SplitFour("m=audio", port, "UDP/TLS/RTP/SAVPF", "0");
    WordsOfFirst("0", "");
  }

  lemma PcmuRtpmaps()
    ensures RtpmapPts([PCMU_LINE]) == ["0"]
  {
    PcmuPt();
    hide PtOf, StartsWith;
    assert [PCMU_LINE] == [] + [PCMU_LINE];
    RtpmapSnoc([], PCMU_LINE);
  }

  /** The failing case: an audio section that only offers payload type 0 loses its rtpmap line and keeps its m= line. */
  lemma AudioWithoutOpus(port: string, conference: bool)
    requires !Has(port, ' ')
    ensures var s := PcmuSection(port);
            && MediaPts(s.mLine) == RtpmapPts(s.codecLines)
            && MediaPts(AnswerMLine(s, conference)) != RtpmapPts(CodecLines(s, conference))
  {
    hide RtpmapPts, MediaPts, Has, AnswerMLine, CodecLines;
    PcmuMediaPts(port);
    PcmuRtpmaps();
    PayloadTypesStayClosed(PcmuSection(port), conference);
  }
}
