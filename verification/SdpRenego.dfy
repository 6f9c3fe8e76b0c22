/** `build_sdp_answer_for_renego` in src/protocol/sdp.rs: the answer with an a=ssrc line for every mapped mid. */
module SdpRenego {
  import opened Basics
  import opened Text
  import opened SdpParse
  import opened SdpAnswer
  import opened SdpPatch
  import opened SdpReparse
  import opened SdpUfrag
  import opened Relay

  type Lookup = map<string, u32>

  /** The map collected from the mappings: a later one for the same mid wins. */
  function LookupOf(mappings: seq<SsrcMapping>): Lookup {
    if mappings == [] then map[]
    else LookupOf(mappings[..|mappings| - 1])[mappings[|mappings| - 1].mid := mappings[|mappings| - 1].ssrc]
  }

  function SsrcLine(ssrc: u32): string {
    "a=ssrc:" + Decimal(ssrc) + " cname:mini-livechat"
  }

  predicate IsMid(line: string) {
    StartsWith(line, "a=mid:")
  }

  predicate IsEnd(line: string) {
    StartsWith(line, END_OF_CANDIDATES)
  }

  predicate IsSsrc(line: string) {
    StartsWith(line, "a=ssrc:")
  }

  /** The loop's variables: the lines written, the current mid, and whether its section has its a=ssrc line. */
  datatype Scan = Scan(out: seq<string>, mid: Option<string>, inserted: bool)

  const START := Scan([], None, false)

  function ScanLine(st: Scan, line: string, lookup: Lookup): Scan {
    var reset := if StartsWith(line, "m=") then Scan(st.out, None, false) else st;
    var mid := if IsMid(line) then Some(Trim(line[6..])) else reset.mid;
    if IsEnd(line) && !reset.inserted && mid.Some? && mid.value in lookup
    then Scan(st.out + [SsrcLine(lookup[mid.value])] + [line], mid, true)
    else Scan(st.out + [line], mid, reset.inserted)
  }

  function ScanAll(st: Scan, lines: seq<string>, lookup: Lookup): Scan {
    if lines == [] then st
    else ScanLine(ScanAll(st, lines[..|lines| - 1], lookup), lines[|lines| - 1], lookup)
  }

  /** The lines of the answer with the a=ssrc lines inserted. */
  function Announced(lines: seq<string>, lookup: Lookup): seq<string> {
    ScanAll(START, lines, lookup).out
  }

  function RenegoText(answer: string, mappings: seq<SsrcMapping>): string {
    if mappings == [] then answer else Join(Announced(Lines(answer), LookupOf(mappings)))
  }

  // ------------------------------------------------------------------------
  // Building it
  // ------------------------------------------------------------------------

  method CollectLookup(mappings: seq<SsrcMapping>) returns (lookup: Lookup)
    ensures lookup == LookupOf(mappings)
  {
    lookup := map[];
    for i := 0 to |mappings|
      invariant lookup == LookupOf(mappings[..i])
    {
      assert mappings[..i + 1][..i] == mappings[..i];
      lookup := lookup[mappings[i].mid := mappings[i].ssrc];
    }
    assert mappings[..|mappings|] == mappings;
  }

  /** One turn of the loop: the text and the two flags after a line. */
  method PushLine(text: string, mid: Option<string>, inserted: bool, line: string, lookup: Lookup, ghost st: Scan)
    returns (r: string, m: Option<string>, i: bool)
    requires text == Join(st.out) && mid == st.mid && inserted == st.inserted
    ensures var next := ScanLine(st, line, lookup); r == Join(next.out) && m == next.mid && i == next.inserted
  {
    hide Join, SsrcLine, Trim;
    r, m, i := text, mid, inserted;
    if StartsWith(line, "m=") {
      m := None;
      i := false;
    }
    if StartsWith(line, "a=mid:") {
      m := Some(Trim(line[6..]));
    }
    ghost var out := st.out;
    if StartsWith(line, END_OF_CANDIDATES) && !i {
      if m.Some? && m.value in lookup {
        var announced := SsrcLine(lookup[m.value]);
        JoinSnoc(out, announced);
        out := out + [announced];
        r := r + announced + "\r\n";
        i := true;
      }
    }
    JoinSnoc(out, line);
    r := r + line;
    r := r + "\r\n";
  }

  method BuildSdpAnswerForRenego(offer: string, env: Env, mappings: seq<SsrcMapping>) returns (sdp: string)
    ensures sdp == RenegoText(AnswerText(Parse(Lines(offer), env.port), env, true), mappings)
  {
    hide Parse, AnswerText, Join, ScanLine, Lines;
    sdp := BuildSdpAnswerWithIce(offer, env, true);
    if mappings == [] {
      return;
    }
    var lookup := CollectLookup(mappings);
    var lines := Lines(sdp);
    var text, mid, inserted := "", None, false;
    NothingJoined();
    for i := 0 to |lines|
      invariant var st := ScanAll(START, lines[..i], lookup);
                text == Join(st.out) && mid == st.mid && inserted == st.inserted
    {
      assert lines[..i + 1][..i] == lines[..i];
      text, mid, inserted := PushLine(text, mid, inserted, lines[i], lookup, ScanAll(START, lines[..i], lookup));
    }
    assert lines[..|lines|] == lines;
    sdp := text;
  }

  lemma NothingJoined()
    ensures Join([]) == ""
  {
  }

  // ------------------------------------------------------------------------
  // Erasing what was inserted
  // ------------------------------------------------------------------------

  function Erase(lines: seq<string>): seq<string> {
    if lines == [] then []
    else
      var before, last := Erase(lines[..|lines| - 1]), lines[|lines| - 1];
      if IsSsrc(last) then before else before + [last]
  }

  function SsrcLines(lines: seq<string>): seq<string> {
    if lines == [] then []
    else
      var before, last := SsrcLines(lines[..|lines| - 1]), lines[|lines| - 1];
      if IsSsrc(last) then before + [last] else before
  }

  predicate NoSsrc(lines: seq<string>) {
    forall i :: 0 <= i < |lines| ==> !IsSsrc(lines[i])
  }

  lemma SnocFilters(lines: seq<string>, line: string)
    ensures Erase(lines + [line]) == if IsSsrc(line) then Erase(lines) else Erase(lines) + [line]
    ensures SsrcLines(lines + [line]) == if IsSsrc(line) then SsrcLines(lines) + [line] else SsrcLines(lines)
  {
    assert (lines + [line])[..|lines|] == lines;
  }

  lemma SsrcLineIsSsrc(ssrc: u32)
    ensures IsSsrc(SsrcLine(ssrc))
  {
    assert SsrcLine(ssrc)[..7] == "a=ssrc:";
  }

  /** Erasing the a=ssrc lines gives back the lines that were read. */
  lemma {:induction false} EraseAnnounced(st: Scan, lines: seq<string>, lookup: Lookup)
    requires NoSsrc(lines)
    ensures Erase(ScanAll(st, lines, lookup).out) == Erase(st.out) + lines
  {
    if lines == [] {
      assert Erase(st.out) + [] == Erase(st.out);
    } else {
      hide Erase, ScanLine, IsSsrc;
      var n := |lines| - 1;
      EraseAnnounced(st, lines[..n], lookup);
      EraseAfterLine(ScanAll(st, lines[..n], lookup), lines[n], lookup);
      SplitLast(Erase(st.out), lines);
    }
  }

  lemma EraseAfterLine(st: Scan, line: string, lookup: Lookup)
    requires !IsSsrc(line)
    ensures Erase(ScanLine(st, line, lookup).out) == Erase(st.out) + [line]
  {
    hide SsrcLine, Trim, IsSsrc, Erase, IsMid, IsEnd;
    SnocFilters(st.out, line);
    var next := ScanLine(st, line, lookup);
    if next.out != st.out + [line] {
      var mid := next.mid.value;
      SsrcLineIsSsrc(lookup[mid]);
      SnocFilters(st.out, SsrcLine(lookup[mid]));
      SnocFilters(st.out + [SsrcLine(lookup[mid])], line);
    }
  }

  // ------------------------------------------------------------------------
  // Section by section
  // ------------------------------------------------------------------------

  lemma {:induction false} ScanAppend(st: Scan, a: seq<string>, b: seq<string>, lookup: Lookup)
    ensures ScanAll(st, a + b, lookup) == ScanAll(ScanAll(st, a, lookup), b, lookup)
    decreases |b|
  {
    hide ScanLine;
    if b == [] {
      assert a + b == a;
    } else {
      var n := |b| - 1;
      ScanAppend(st, a, b[..n], lookup);
      assert (a + b)[..|a + b| - 1] == a + b[..n];
    }
  }

  lemma ScanOne(st: Scan, line: string, lookup: Lookup)
    ensures ScanAll(st, [line], lookup) == ScanLine(st, line, lookup)
  {
    assert [line][..0] == [];
  }

  /** No line starts a section or names a mid. */
  predicate Plain(lines: seq<string>) {
    forall i :: 0 <= i < |lines| ==> !StartsWith(lines[i], "m=") && !IsMid(lines[i])
  }

  /** Without a mapped current mid, or with the line already inserted, lines are copied. */
  lemma {:induction false} CopyPlain(st: Scan, lines: seq<string>, lookup: Lookup)
    requires Plain(lines) && (st.inserted || st.mid.None? || st.mid.value !in lookup)
    ensures ScanAll(st, lines, lookup) == st.(out := st.out + lines)
  {
    hide StartsWith, SsrcLine, IsMid, IsEnd;
    if lines != [] {
      var n := |lines| - 1;
      CopyPlain(st, lines[..n], lookup);
      assert st.out + lines[..n] + [lines[n]] == st.out + lines;
    }
  }

  function FirstEnd(lines: seq<string>): (k: nat)
    ensures k <= |lines| && (k < |lines| ==> IsEnd(lines[k])) && forall i :: 0 <= i < k ==> !IsEnd(lines[i])
  {
    if lines == [] || IsEnd(lines[0]) then 0 else 1 + FirstEnd(lines[1..])
  }

  /** With a mapped current mid the a=ssrc line goes in front of the first end-of-candidates line. */
  lemma InsertInPlain(st: Scan, lines: seq<string>, lookup: Lookup)
    requires Plain(lines) && !st.inserted && st.mid.Some? && st.mid.value in lookup
    requires FirstEnd(lines) < |lines|
    ensures var k := FirstEnd(lines);
            ScanAll(st, lines, lookup)
            == Scan(st.out + lines[..k] + [SsrcLine(lookup[st.mid.value])] + lines[k..], st.mid, true)
  {
    var k := FirstEnd(lines);
    hide StartsWith, SsrcLine, FirstEnd, IsMid, IsEnd, ScanAll;
    CopyBeforeEnd(st, lines[..k], lookup);
    var mid := st.(out := st.out + lines[..k]);
    ScanOne(mid, lines[k], lookup);
    var next := ScanLine(mid, lines[k], lookup);
    assert next == Scan(st.out + lines[..k] + [SsrcLine(lookup[st.mid.value])] + [lines[k]], st.mid, true);
    CopyPlain(next, lines[k + 1..], lookup);
    ScanAppend(st, lines[..k], [lines[k]], lookup);
    ScanAppend(st, lines[..k] + [lines[k]], lines[k + 1..], lookup);
    assert lines == lines[..k] + [lines[k]] + lines[k + 1..];
    assert lines[k..] == [lines[k]] + lines[k + 1..];
  }

  lemma {:induction false} CopyBeforeEnd(st: Scan, lines: seq<string>, lookup: Lookup)
    requires Plain(lines) && forall i :: 0 <= i < |lines| ==> !IsEnd(lines[i])
    ensures ScanAll(st, lines, lookup) == st.(out := st.out + lines)
  {
    hide StartsWith, SsrcLine, IsMid, IsEnd;
    if lines != [] {
      var n := |lines| - 1;
      CopyBeforeEnd(st, lines[..n], lookup);
      assert st.out + lines[..n] + [lines[n]] == st.out + lines;
    }
  }

  // ------------------------------------------------------------------------
  // The lines of the base answer
  // ------------------------------------------------------------------------

  lemma MidKind(line: string)
    requires IsMid(line)
    ensures KindOf(line).Mid? && !StartsWith(line, "m=") && !IsEnd(line)
  {
    assert OtherThird(line) && line[2] == 'm' && line[3] == 'i';
    OtherThirdKind(line);
    NotPrefix(line, "m=", 0);
    NotPrefix(line, END_OF_CANDIDATES, 2);
    forall i | 0 <= i < |SKIP_PREFIXES| ensures !StartsWith(line, SKIP_PREFIXES[i]) {
      if i == 10 { NotPrefix(line, SKIP_PREFIXES[i], 0); }
      else if i == 13 { NotPrefix(line, SKIP_PREFIXES[i], 3); }
      else { NotPrefix(line, SKIP_PREFIXES[i], 2); }
    }
  }

  lemma PlainByKind(lines: seq<string>)
    requires NoMedia(lines) && NoMid(lines)
    ensures Plain(lines)
  {
    forall i | 0 <= i < |lines| ensures !StartsWith(lines[i], "m=") && !IsMid(lines[i]) {
      if IsMid(lines[i]) { MidKind(lines[i]); }
    }
  }

  lemma SsrcKind(line: string)
    requires IsSsrc(line)
    ensures KindOf(line) == Skipped
  {
    assert line[2] == 's' && line[3] == 's';
    NotPrefix(line, "m=", 0);
    NotPrefix(line, "a=sendrecv", 3);
    NotPrefix(line, "a=recvonly", 2);
    NotPrefix(line, "a=sendonly", 3);
    NotPrefix(line, "a=inactive", 2);
    NotPrefix(line, "a=rtcp-rsize", 2);
    assert line[..6] == SKIP_PREFIXES[11];
    assert StartsWith(line, SKIP_PREFIXES[11]);
  }

  lemma NoSsrcByKind(line: string)
    requires KindOf(line) != Skipped
    ensures !IsSsrc(line)
  {
    if IsSsrc(line) { SsrcKind(line); }
  }

  lemma CredentialsNoSsrc(env: Env)
    ensures NoSsrc(Credentials(env))
  {
    var lines := Credentials(env);
    forall i | 0 <= i < |lines| ensures !IsSsrc(lines[i]) {
      if i == 0 { NotPrefix(lines[i], "a=ssrc:", 0); }
      else if i == 4 { NotPrefix(lines[i], "a=ssrc:", 3); }
      else { NotPrefix(lines[i], "a=ssrc:", 2); }
    }
  }

  lemma HeadNoSsrc(s: Section, env: Env)
    ensures NoSsrc(HeadLines(s, env, true))
  {
    CredentialsNoSsrc(env);
    RtcpRsizeKind();
    NoSsrcByKind("a=rtcp-rsize");
    var direction := AnswerDirection(s.direction, true);
    DirectionKind(direction);
    NoSsrcByKind("a=" + direction.Name());
    NotPrefix(MsidLine(s.mid), "a=ssrc:", 2);
    hide IsSsrc, Credentials, MsidLine, KindOf;
    assert NoSsrc(FlagLines(s, true));
  }

  lemma CodecsNoSsrc(s: Section)
    requires ParsedSection(s)
    ensures NoSsrc(CodecLines(s, true))
  {
    KeptCodecLines(s.codecLines, AllowedPts(s));
    var lines := CodecLines(s, true);
    forall i | 0 <= i < |lines| ensures !IsSsrc(lines[i]) {
      assert IsCodecLine(lines[i]);
      NoSsrcByKind(lines[i]);
    }
  }

  lemma EndingNoSsrc(env: Env)
    ensures NoSsrc([CandidateLine(env), END_OF_CANDIDATES])
  {
    NotPrefix(CandidateLine(env), "a=ssrc:", 2);
    NotPrefix(END_OF_CANDIDATES, "a=ssrc:", 2);
  }

  lemma SectionNoSsrc(s: Section, env: Env)
    requires ParsedSection(s) && HasPort(s, env.port) && !Has(env.port, ' ')
    ensures NoSsrc(SectionLines(s, env, true))
  {
    hide IsSsrc, HeadLines, CodecLines, CandidateLine, AnswerMLine, StartsWith, KindOf, Has, HasPort, ParsedSection;
    HeadNoSsrc(s, env);
    CodecsNoSsrc(s);
    EndingNoSsrc(env);
    MLineAgain(s, env.port, true);
    MediaKind(AnswerMLine(s, true));
    NoSsrcByKind(AnswerMLine(s, true));
  }

  lemma HeaderPlain(sections: seq<Section>, env: Env)
    ensures Plain(HeaderLines(sections, env)) && NoSsrc(HeaderLines(sections, env))
  {
    var lines := HeaderLines(sections, env);
    forall i | 0 <= i < |lines| ensures !StartsWith(lines[i], "m=") && !IsMid(lines[i]) && !IsSsrc(lines[i]) {
      NotPrefix(lines[i], "m=", 0);
      if i < 4 {
        assert lines[i][0] != 'a';
        NotPrefix(lines[i], "a=mid:", 0);
        NotPrefix(lines[i], "a=ssrc:", 0);
      } else {
        assert lines[i][2] in {'g', 'i'};
        NotPrefix(lines[i], "a=mid:", 2);
        NotPrefix(lines[i], "a=ssrc:", 2);
      }
    }
  }

  lemma {:induction false} AllSectionsNoSsrc(sections: seq<Section>, env: Env)
    requires !Has(env.port, ' ')
    requires forall i :: 0 <= i < |sections| ==> ParsedSection(sections[i]) && HasPort(sections[i], env.port)
    ensures NoSsrc(AllSectionLines(sections, env, true))
  {
    hide SectionLines, ParsedSection, HasPort, IsSsrc;
    if sections != [] {
      var n := |sections| - 1;
      AllSectionsNoSsrc(sections[..n], env);
      SectionNoSsrc(sections[n], env);
    }
  }

  // ------------------------------------------------------------------------
  // The block of one section
  // ------------------------------------------------------------------------

  function MidLines(lines: seq<string>): seq<string> {
    if lines == [] then []
    else
      var before, last := MidLines(lines[..|lines| - 1]), lines[|lines| - 1];
      if IsMid(last) then before + [last] else before
  }

  /** What is printed for one section. */
  function Block(s: Section, env: Env, lookup: Lookup): seq<string> {
    Announced(SectionLines(s, env, true), lookup)
  }

  function Blocks(sections: seq<Section>, env: Env, lookup: Lookup): seq<string> {
    if sections == [] then []
    else Blocks(sections[..|sections| - 1], env, lookup) + Block(sections[|sections| - 1], env, lookup)
  }

  /** `block` is `lines` with one a=ssrc line in front of an end-of-candidates line. */
  predicate InsertedOnce(lines: seq<string>, block: seq<string>, ssrc: u32) {
    exists k :: 0 <= k < |lines| && IsEnd(lines[k]) && block == lines[..k] + [SsrcLine(ssrc)] + lines[k..]
  }

  lemma {:induction false} ScanBehind(p: seq<string>, st: Scan, lines: seq<string>, lookup: Lookup)
    ensures ScanAll(st.(out := p + st.out), lines, lookup)
         == ScanAll(st, lines, lookup).(out := p + ScanAll(st, lines, lookup).out)
  {
    hide StartsWith, SsrcLine, IsMid, IsEnd, Trim;
    if lines != [] {
      ScanBehind(p, st, lines[..|lines| - 1], lookup);
    }
  }

  lemma ScanMedia(st: Scan, m: string, lookup: Lookup)
    requires StartsWith(m, "m=")
    ensures ScanLine(st, m, lookup) == Scan(st.out + [m], None, false)
  {
    assert m[0] == 'm';
    NotPrefix(m, "a=mid:", 0);
    NotPrefix(m, END_OF_CANDIDATES, 0);
  }

  /** An m= line resets the loop's flags: what is printed for a section does not depend on those before it. */
  lemma SectionResets(st: Scan, s: Section, env: Env, lookup: Lookup)
    requires StartsWith(AnswerMLine(s, true), "m=")
    ensures ScanAll(st, SectionLines(s, env, true), lookup).out == st.out + Block(s, env, lookup)
  {
    var m := AnswerMLine(s, true);
    var rest := HeadLines(s, env, true) + TailLines(s, env, true);
    hide ScanAll, ScanLine, HeadLines, TailLines, AnswerMLine;
    ScanMedia(st, m, lookup);
    ScanMedia(START, m, lookup);
    ScanOne(st, m, lookup);
    ScanOne(START, m, lookup);
    ScanAppend(st, [m], rest, lookup);
    ScanAppend(START, [m], rest, lookup);
    assert START.out + [m] == [m];
    ScanBehind(st.out, Scan([m], None, false), rest, lookup);
  }

  lemma {:induction false} ScanSections(st: Scan, sections: seq<Section>, env: Env, lookup: Lookup)
    requires !Has(env.port, ' ')
    requires forall i :: 0 <= i < |sections| ==> ParsedSection(sections[i]) && HasPort(sections[i], env.port)
    ensures ScanAll(st, AllSectionLines(sections, env, true), lookup).out == st.out + Blocks(sections, env, lookup)
  {
    hide SectionLines, ParsedSection, HasPort, ScanLine, Block;
    if sections == [] {
      assert st.out + [] == st.out;
    } else {
      var n := |sections| - 1;
      var before := AllSectionLines(sections[..n], env, true);
      var scanned := ScanAll(st, before, lookup);
      ScanSections(st, sections[..n], env, lookup);
      MLineAgain(sections[n], env.port, true);
      SectionResets(scanned, sections[n], env, lookup);
      hide ScanAll;
      ScanAppend(st, before, SectionLines(sections[n], env, true), lookup);
      assert st.out + Blocks(sections[..n], env, lookup) + Block(sections[n], env, lookup)
          == st.out + (Blocks(sections[..n], env, lookup) + Block(sections[n], env, lookup));
    }
  }

  lemma {:induction false} SplitAtMid(lines: seq<string>) returns (a: seq<string>, x: string, b: seq<string>)
    requires |MidLines(lines)| == 1 && forall i :: 0 <= i < |lines| ==> IsCodecLine(lines[i])
    ensures lines == a + [x] + b && Plain(a) && IsMid(x) && Plain(b) && Trim(x[6..]) == MidOf(lines)
  {
    var n := |lines| - 1;
    var last := lines[n];
    assert IsCodecLine(last);
    if IsMid(last) {
      MidKind(last);
      a, x, b := lines[..n], last, [];
      NoMidLines(a);
    } else {
      var c;
      a, x, c := SplitAtMid(lines[..n]);
      b := c + [last];
    }
  }

  lemma {:induction false} NoMidLines(lines: seq<string>)
    requires MidLines(lines) == [] && forall i :: 0 <= i < |lines| ==> IsCodecLine(lines[i])
    ensures Plain(lines) && MidOf(lines) == ""
  {
    if lines != [] {
      var n := |lines| - 1;
      NoMidLines(lines[..n]);
      assert IsCodecLine(lines[n]) && !IsMid(lines[n]);
    }
  }

  lemma {:induction false} KeptMidLines(lines: seq<string>, allowed: seq<string>)
    ensures MidLines(FilterCodecs(lines, allowed)) == MidLines(lines)
  {
    if lines != [] {
      var n := |lines| - 1;
      var before := FilterCodecs(lines[..n], allowed);
      KeptMidLines(lines[..n], allowed);
      assert (before + [lines[n]])[..|before|] == before;
      if IsMid(lines[n]) {
        MidKind(lines[n]);
        MidIsNoPtLine(lines[n]);
      }
      hide IsMid, KeepsCodec;
    }
  }

  lemma ScanMidLine(st: Scan, x: string, lookup: Lookup)
    requires IsMid(x)
    ensures ScanLine(st, x, lookup) == Scan(st.out + [x], Some(Trim(x[6..])), st.inserted)
  {
    MidKind(x);
  }

  lemma ScanToMid(m: string, front: seq<string>, x: string, lookup: Lookup)
    requires StartsWith(m, "m=") && Plain(front) && IsMid(x)
    ensures ScanAll(START, [m] + front + [x], lookup) == Scan([m] + front + [x], Some(Trim(x[6..])), false)
  {
    ScanMedia(START, m, lookup);
    ScanMidLine(Scan([m] + front, None, false), x, lookup);
    hide ScanAll, ScanLine, IsMid, StartsWith, Trim, Plain;
    ScanOne(START, m, lookup);
    assert START.out + [m] == [m];
    ScanAppend(START, [m], front, lookup);
    CopyPlain(Scan([m], None, false), front, lookup);
    ScanOne(Scan([m] + front, None, false), x, lookup);
    ScanAppend(START, [m] + front, [x], lookup);
  }

  /** A section with one a=mid line: its lines, with the a=ssrc line inserted when the mid is mapped. */
  lemma AnnounceOneMid(m: string, front: seq<string>, x: string, back: seq<string>, lookup: Lookup)
    requires StartsWith(m, "m=") && Plain(front) && IsMid(x) && Plain(back)
    requires FirstEnd(back) < |back|
    ensures var lines, mid := [m] + front + [x] + back, Trim(x[6..]);
            if mid in lookup then InsertedOnce(lines, Announced(lines, lookup), lookup[mid])
            else Announced(lines, lookup) == lines
  {
    hide ScanAll, ScanLine, FirstEnd, SsrcLine, Trim, Plain, IsEnd, InsertedOnce;
    var mid := Trim(x[6..]);
    var before := [m] + front + [x];
    var st := Scan(before, Some(mid), false);
    ScanToMid(m, front, x, lookup);
    ScanAppend(START, before, back, lookup);
    if mid in lookup {
      var k := FirstEnd(back);
      InsertInPlain(st, back, lookup);
      InsertedBehind(before, back, k, lookup[mid]);
    } else {
      CopyPlain(st, back, lookup);
    }
  }

  lemma InsertedBehind(before: seq<string>, back: seq<string>, k: nat, ssrc: u32)
    requires k < |back| && IsEnd(back[k])
    ensures InsertedOnce(before + back, before + back[..k] + [SsrcLine(ssrc)] + back[k..], ssrc)
  {
    hide SsrcLine;
    var lines := before + back;
    var j := |before| + k;
    assert lines[j] == back[k] && lines[..j] == before + back[..k] && lines[j..] == back[k..];
  }

  lemma AnnounceNoMid(m: string, rest: seq<string>, lookup: Lookup)
    requires StartsWith(m, "m=") && Plain(rest)
    ensures Announced([m] + rest, lookup) == [m] + rest
  {
    ScanMedia(START, m, lookup);
    hide ScanAll, ScanLine, StartsWith, Plain;
    ScanOne(START, m, lookup);
    ScanAppend(START, [m], rest, lookup);
    assert START.out + [m] == [m];
    CopyPlain(Scan([m], None, false), rest, lookup);
  }

  lemma EndingPlain(env: Env)
    ensures Plain([CandidateLine(env), END_OF_CANDIDATES])
  {
    CandidateKind(env);
    EndKind();
    hide KindOf, CandidateLine;
    PlainByKind([CandidateLine(env), END_OF_CANDIDATES]);
  }

  lemma EndsWithEnd(lines: seq<string>)
    requires lines != [] && lines[|lines| - 1] == END_OF_CANDIDATES
    ensures FirstEnd(lines) < |lines|
  {
  }

  lemma HeadIsPlain(s: Section, env: Env)
    ensures Plain(HeadLines(s, env, true))
  {
    HeadHasNoMedia(s, env, true);
    PlainByKind(HeadLines(s, env, true));
  }

  /**
   * With one a=mid line in the offered section, the printed section is the base one with exactly one a=ssrc line,
   * in front of an end-of-candidates line, when the mid is mapped; otherwise it is the base one.
   */
  lemma OneMidBlock(s: Section, env: Env, lookup: Lookup)
    requires ParsedSection(s) && HasPort(s, env.port) && !Has(env.port, ' ')
    requires |MidLines(s.codecLines)| == 1
    ensures var lines, block := SectionLines(s, env, true), Block(s, env, lookup);
            if s.mid in lookup then InsertedOnce(lines, block, lookup[s.mid]) else block == lines
  {
    var m, head, codecs := AnswerMLine(s, true), HeadLines(s, env, true), CodecLines(s, true);
    var ending := [CandidateLine(env), END_OF_CANDIDATES];
    hide HeadLines, AnswerMLine, FilterCodecs, AllowedPts, Has, HasPort, MidLines, MidOf, Trim, InsertedOnce,
         CandidateLine, Announced, IsMid, StartsWith, KindOf;
    MLineAgain(s, env.port, true);
    HeadIsPlain(s, env);
    EndingPlain(env);
    KeptMidLines(s.codecLines, AllowedPts(s));
    KeptCodecLines(s.codecLines, AllowedPts(s));
    var a, x, b := SplitAtMid(codecs);
    assert Plain(head + a) && Plain(b + ending);
    EndsWithEnd(b + ending);
    AnnounceOneMid(m, head + a, x, b + ending, lookup);
    SectionParts(m, head, a, x, b, ending);
    assert SectionLines(s, env, true) == [m] + (head + (a + [x] + b + ending));
  }

  lemma SectionParts(m: string, head: seq<string>, a: seq<string>, x: string, b: seq<string>, ending: seq<string>)
    ensures [m] + (head + a) + [x] + (b + ending) == [m] + (head + (a + [x] + b + ending))
  {
  }

  /** Without an a=mid line nothing is inserted. */
  lemma NoMidBlock(s: Section, env: Env, lookup: Lookup)
    requires ParsedSection(s) && HasPort(s, env.port) && !Has(env.port, ' ')
    requires MidLines(s.codecLines) == []
    ensures Block(s, env, lookup) == SectionLines(s, env, true)
  {
    var m, head, codecs := AnswerMLine(s, true), HeadLines(s, env, true), CodecLines(s, true);
    var ending := [CandidateLine(env), END_OF_CANDIDATES];
    hide HeadLines, AnswerMLine, FilterCodecs, AllowedPts, Has, HasPort, MidLines, MidOf, CandidateLine, Announced,
         IsMid, StartsWith, KindOf;
    MLineAgain(s, env.port, true);
    HeadIsPlain(s, env);
    EndingPlain(env);
    KeptMidLines(s.codecLines, AllowedPts(s));
    KeptCodecLines(s.codecLines, AllowedPts(s));
    NoMidLines(codecs);
    assert Plain(head + (codecs + ending));
    AnnounceNoMid(m, head + (codecs + ending), lookup);
  }

  // ------------------------------------------------------------------------
  // The text
  // ------------------------------------------------------------------------

  lemma SplitLast<T>(a: seq<T>, b: seq<T>)
    requires b != []
    ensures b == b[..|b| - 1] + [b[|b| - 1]]
    ensures a + b == a + b[..|b| - 1] + [b[|b| - 1]]
  {
  }

  lemma SsrcLinesSnoc(a: seq<string>, b: seq<string>, last: string)
    requires SsrcLines(a + b) == SsrcLines(a) + SsrcLines(b)
    ensures SsrcLines(a + b + [last]) == SsrcLines(a) + SsrcLines(b + [last])
  {
    hide SsrcLines, IsSsrc;
    SnocFilters(a + b, last);
    SnocFilters(b, last);
  }

  lemma {:induction false} SsrcLinesAppend(a: seq<string>, b: seq<string>)
    ensures SsrcLines(a + b) == SsrcLines(a) + SsrcLines(b)
    decreases |b|
  {
    if b == [] {
      assert a + b == a;
    } else {
      hide SsrcLines;
      var front := b[..|b| - 1];
      SsrcLinesAppend(a, front);
      SplitLast(a, b);
      SsrcLinesSnoc(a, front, b[|b| - 1]);
    }
  }

  lemma {:induction false} NoSsrcLines(lines: seq<string>)
    requires NoSsrc(lines)
    ensures SsrcLines(lines) == [] && Erase(lines) == lines
  {
    hide IsSsrc;
    if lines != [] {
      NoSsrcLines(lines[..|lines| - 1]);
    }
  }

  /** The a=ssrc lines of a printed section: one with the mapped SSRC, or none. */
  lemma BlockSsrcLines(s: Section, env: Env, lookup: Lookup)
    requires ParsedSection(s) && HasPort(s, env.port) && !Has(env.port, ' ')
    requires |MidLines(s.codecLines)| == 1
    ensures SsrcLines(Block(s, env, lookup)) == if s.mid in lookup then [SsrcLine(lookup[s.mid])] else []
  {
    hide Block, SectionLines, ParsedSection, HasPort, Has, MidLines, SsrcLines, IsSsrc, SsrcLine, IsEnd;
    var lines, block := SectionLines(s, env, true), Block(s, env, lookup);
    OneMidBlock(s, env, lookup);
    SectionNoSsrc(s, env);
    if s.mid in lookup {
      var line := SsrcLine(lookup[s.mid]);
      var k :| 0 <= k < |lines| && IsEnd(lines[k]) && block == lines[..k] + [line] + lines[k..];
      NoSsrcLines(lines[..k]);
      NoSsrcLines(lines[k..]);
      SsrcLineIsSsrc(lookup[s.mid]);
      SnocFilters(lines[..k], line);
      SsrcLinesAppend(lines[..k] + [line], lines[k..]);
      assert [] + [line] == [line];
    } else {
      NoSsrcLines(lines);
    }
  }

  const CNAME := "cname:mini-livechat"

  lemma SsrcLineOneLine(ssrc: u32)
    ensures OneLine(SsrcLine(ssrc))
  {
    DecimalDigits(ssrc);
    hide Decimal;
    var digits := Decimal(ssrc);
    assert OneLine(digits);
    hide OneLine;
    assert OneLine("a=ssrc:") && OneLine(" cname:mini-livechat") by { FixedOneLine(); }
    OneLineAppend("a=ssrc:", digits);
    OneLineAppend("a=ssrc:" + digits, " cname:mini-livechat");
  }

  lemma FixedOneLine()
    ensures OneLine("a=ssrc:") && OneLine(" cname:mini-livechat")
  {
  }

  lemma CnameIsWord()
    ensures IsWord(CNAME)
  {
  }

  lemma DigitsAreWord(n: nat)
    ensures IsWord(Decimal(n))
  {
    DecimalDigits(n);
  }

  lemma SsrcLineTail(ssrc: u32)
    ensures |SsrcLine(ssrc)| >= 7 && SsrcLine(ssrc)[7..] == Decimal(ssrc) + " " + CNAME
  {
    var digits := Decimal(ssrc);
    hide Decimal;
    var rest := digits + " " + CNAME;
    assert SsrcLine(ssrc) == "a=ssrc:" + rest;
    assert ("a=ssrc:" + rest)[7..] == rest;
  }

  lemma SsrcLineWords(ssrc: u32)
    ensures |SsrcLine(ssrc)| >= 7 && Words(SsrcLine(ssrc)[7..]) == [Decimal(ssrc), CNAME]
  {
    hide Decimal, Words, SsrcLine, IsWord, CNAME;
    SsrcLineTail(ssrc);
    CnameIsWord();
    DigitsAreWord(ssrc);
    WordsOfFirst(Decimal(ssrc), CNAME);
    WordsOfFirst(CNAME, "");
    assert [Decimal(ssrc)] + [CNAME] == [Decimal(ssrc), CNAME];
  }

  /** The SSRC that an a=ssrc line names. */
  function SsrcOf(line: string): int {
    if |line| < 7 || Words(line[7..]) == [] then 0 else Number(Words(line[7..])[0])
  }

  /** The printed number is read back. */
  lemma SsrcReadBack(ssrc: u32)
    ensures SsrcOf(SsrcLine(ssrc)) == ssrc
  {
    hide Decimal, Words, SsrcLine;
    SsrcLineWords(ssrc);
    DecimalBack(ssrc);
  }

  lemma {:induction false} AnnouncedOneLine(st: Scan, lines: seq<string>, lookup: Lookup)
    requires AllOneLine(st.out) && AllOneLine(lines)
    ensures AllOneLine(ScanAll(st, lines, lookup).out)
  {
    hide OneLine, SsrcLine, StartsWith, IsMid, IsEnd, Trim;
    if lines != [] {
      var n := |lines| - 1;
      AnnouncedOneLine(st, lines[..n], lookup);
      forall ssrc: u32 ensures OneLine(SsrcLine(ssrc)) { SsrcLineOneLine(ssrc); }
    }
  }

  lemma {:induction false} NothingMapped(st: Scan, lines: seq<string>)
    ensures ScanAll(st, lines, map[]).out == st.out + lines
  {
    hide SsrcLine, StartsWith, IsMid, IsEnd, Trim;
    if lines != [] {
      var n := |lines| - 1;
      NothingMapped(st, lines[..n]);
      assert st.out + lines[..n] + [lines[n]] == st.out + lines;
    }
  }

  /** The offers whose answer is read as it was printed: all values are single lines, and no patch is misled. */
  predicate CleanOffer(offer: string, env: Env) {
    SingleLineEnv(env) && !Has(env.port, ' ') && PatchesAreRight(Parse(Lines(offer), env.port), env, true)
  }

  /** With no equals sign in the mids and the printed values, single lines are enough. */
  lemma NoEqualsIsClean(offer: string, env: Env)
    requires SingleLineEnv(env) && !Has(env.port, ' ') && NoEqualsEnv(env)
    requires NoEqualsMids(Parse(Lines(offer), env.port))
    ensures CleanOffer(offer, env)
  {
    hide Parse, Lines, NoEqualsEnv, PatchesAreRight, NoEqualsMids, ParsedSection;
    LinesAreOneLine(offer);
    ParseMakesSections(Lines(offer), env.port);
    NoEqualsPatchesAreRight(Parse(Lines(offer), env.port), env, true);
  }

  lemma ParsedOffer(offer: string, env: Env)
    requires CleanOffer(offer, env)
    ensures var sections := Parse(Lines(offer), env.port);
            && (forall i :: 0 <= i < |sections| ==> ParsedSection(sections[i]) && HasPort(sections[i], env.port))
            && AllOneLine(AnswerLines(sections, env, true))
  {
    var answer := AnswerText(Parse(Lines(offer), env.port), env, true);
    AnswerTextLines(offer, env, true);
    hide Parse, Lines, AnswerText, AnswerLines, ParsedSection, HasPort, Has, OneLine;
    LinesAreOneLine(offer);
    LinesAreOneLine(answer);
    ParseMakesSections(Lines(offer), env.port);
    ParsedHasPort(Lines(offer), env.port);
  }

  /** The lines of the renegotiated text are those of the loop over the base answer, also when nothing is mapped. */
  lemma RenegoLines(offer: string, env: Env, mappings: seq<SsrcMapping>)
    requires CleanOffer(offer, env)
    ensures var sections := Parse(Lines(offer), env.port);
            Lines(RenegoText(AnswerText(sections, env, true), mappings))
            == Announced(AnswerLines(sections, env, true), LookupOf(mappings))
  {
    var sections := Parse(Lines(offer), env.port);
    var lines := AnswerLines(sections, env, true);
    hide Parse, AnswerText, AnswerLines, Join, Lines, OneLine, ScanAll, ParsedSection, HasPort;
    AnswerTextLines(offer, env, true);
    ParsedOffer(offer, env);
    if mappings == [] {
      NothingMapped(START, lines);
      assert [] + lines == lines;
    } else {
      AnnouncedOneLine(START, lines, LookupOf(mappings));
      LinesOfJoin(Announced(lines, LookupOf(mappings)));
    }
  }

  lemma AnnouncedIsBlocks(sections: seq<Section>, env: Env, lookup: Lookup)
    requires !Has(env.port, ' ')
    requires forall i :: 0 <= i < |sections| ==> ParsedSection(sections[i]) && HasPort(sections[i], env.port)
    ensures Announced(AnswerLines(sections, env, true), lookup)
         == HeaderLines(sections, env) + Blocks(sections, env, lookup)
  {
    var header := HeaderLines(sections, env);
    HeaderPlain(sections, env);
    hide HeaderLines, ScanAll, ParsedSection, HasPort, Has, Plain, AllSectionLines;
    CopyPlain(START, header, lookup);
    assert [] + header == header;
    ScanAppend(START, header, AllSectionLines(sections, env, true), lookup);
    ScanSections(Scan(header, None, false), sections, env, lookup);
  }

  /** The renegotiated text is the header and one block per offered section. */
  lemma RenegoIsBlocks(offer: string, env: Env, mappings: seq<SsrcMapping>)
    requires CleanOffer(offer, env)
    ensures var sections := Parse(Lines(offer), env.port);
            Lines(RenegoText(AnswerText(sections, env, true), mappings))
            == HeaderLines(sections, env) + Blocks(sections, env, LookupOf(mappings))
  {
    hide Parse, AnswerText, AnswerLines, Lines, ParsedSection, HasPort, RenegoText, HeaderLines, Blocks, Announced;
    ParsedOffer(offer, env);
    RenegoLines(offer, env, mappings);
    AnnouncedIsBlocks(Parse(Lines(offer), env.port), env, LookupOf(mappings));
  }

  /** The lines of a text by media section: each m= line with what follows up to the next. */
  function Groups(lines: seq<string>): seq<seq<string>> {
    if lines == [] then []
    else
      var before, last := Groups(lines[..|lines| - 1]), lines[|lines| - 1];
      if StartsWith(last, "m=") then before + [[last]]
      else if before == [] then []
      else before[|before| - 1 := before[|before| - 1] + [last]]
  }

  predicate NoMLine(lines: seq<string>) {
    forall i :: 0 <= i < |lines| ==> !StartsWith(lines[i], "m=")
  }

  lemma {:induction false} GroupsOfHeader(lines: seq<string>)
    requires NoMLine(lines)
    ensures Groups(lines) == []
  {
    hide StartsWith;
    if lines != [] {
      GroupsOfHeader(lines[..|lines| - 1]);
    }
  }

  lemma {:induction false} GroupsOfOneMore(before: seq<string>, m: string, rest: seq<string>)
    requires StartsWith(m, "m=") && NoMLine(rest)
    ensures Groups(before + ([m] + rest)) == Groups(before) + [[m] + rest]
    decreases |rest|
  {
    hide StartsWith;
    var lines := before + ([m] + rest);
    if rest == [] {
      assert lines[..|lines| - 1] == before && lines[|lines| - 1] == m && [m] + rest == [m];
    } else {
      var n := |rest| - 1;
      GroupsOfOneMore(before, m, rest[..n]);
      assert lines[..|lines| - 1] == before + ([m] + rest[..n]) && lines[|lines| - 1] == rest[n];
      assert [m] + rest[..n] + [rest[n]] == [m] + rest;
    }
  }

  /** The loop writes every line it reads, and adds no m= line. */
  lemma {:induction false} ScanAddsNoMLine(st: Scan, lines: seq<string>, lookup: Lookup)
    requires NoMLine(lines)
    ensures var out := ScanAll(st, lines, lookup).out;
            st.out <= out && NoMLine(out[|st.out|..])
  {
    hide StartsWith, SsrcLine, IsMid, IsEnd, Trim;
    if lines != [] {
      var n := |lines| - 1;
      var before := ScanAll(st, lines[..n], lookup).out;
      var out := ScanAll(st, lines, lookup).out;
      ScanAddsNoMLine(st, lines[..n], lookup);
      forall ssrc: u32 ensures !StartsWith(SsrcLine(ssrc), "m=") { SsrcLineIsNoMLine(ssrc); }
      assert before <= out && NoMLine(out[|before|..]);
      assert out[|st.out|..] == before[|st.out|..] + out[|before|..];
    }
  }

  lemma SsrcLineIsNoMLine(ssrc: u32)
    ensures !StartsWith(SsrcLine(ssrc), "m=")
  {
    SsrcLineIsSsrc(ssrc);
    NotPrefix(SsrcLine(ssrc), "m=", 0);
  }

  /** A printed block is one m= line and others behind it. */
  lemma BlockIsGroup(s: Section, env: Env, lookup: Lookup) returns (m: string, rest: seq<string>)
    requires ParsedSection(s) && HasPort(s, env.port) && !Has(env.port, ' ')
    ensures Block(s, env, lookup) == [m] + rest && StartsWith(m, "m=") && NoMLine(rest)
  {
    hide StartsWith, HeadLines, TailLines, AnswerMLine, ScanAll, ScanLine, ParsedSection, HasPort, Has, KindOf;
    m := AnswerMLine(s, true);
    var body := HeadLines(s, env, true) + TailLines(s, env, true);
    MLineAgain(s, env.port, true);
    HeadHasNoMedia(s, env, true);
    TailHasNoMedia(s, env, true);
    NoMLineByKind(body);
    ScanMedia(START, m, lookup);
    ScanOne(START, m, lookup);
    ScanAppend(START, [m], body, lookup);
    assert START.out + [m] == [m];
    ScanAddsNoMLine(Scan([m], None, false), body, lookup);
    rest := Block(s, env, lookup)[1..];
  }

  lemma NoMLineByKind(lines: seq<string>)
    requires NoMedia(lines)
    ensures NoMLine(lines)
  {
  }

  lemma {:induction false} GroupsOfBlocks(header: seq<string>, sections: seq<Section>, env: Env, lookup: Lookup)
    requires NoMLine(header) && !Has(env.port, ' ')
    requires forall i :: 0 <= i < |sections| ==> ParsedSection(sections[i]) && HasPort(sections[i], env.port)
    ensures var groups := Groups(header + Blocks(sections, env, lookup));
            && |groups| == |sections|
            && forall k :: 0 <= k < |sections| ==> groups[k] == Block(sections[k], env, lookup)
  {
    hide Block, ParsedSection, HasPort, Has, Groups, NoMLine;
    if sections == [] {
      GroupsOfHeader(header);
      assert header + [] == header;
    } else {
      var n := |sections| - 1;
      var before := header + Blocks(sections[..n], env, lookup);
      GroupsOfBlocks(header, sections[..n], env, lookup);
      var m, rest := BlockIsGroup(sections[n], env, lookup);
      GroupsOfOneMore(before, m, rest);
      assert header + Blocks(sections, env, lookup) == before + ([m] + rest);
    }
  }

  /** Media section `k` of the renegotiated text is the block of offered section `k`. */
  lemma RenegoGroups(offer: string, env: Env, mappings: seq<SsrcMapping>)
    requires CleanOffer(offer, env)
    ensures var sections := Parse(Lines(offer), env.port);
            var groups := Groups(Lines(RenegoText(AnswerText(sections, env, true), mappings)));
            && |groups| == |sections|
            && forall k :: 0 <= k < |sections| ==> groups[k] == Block(sections[k], env, LookupOf(mappings))
  {
    hide Parse, AnswerText, Lines, ParsedSection, HasPort, RenegoText, HeaderLines, Blocks, Block, Groups;
    var sections := Parse(Lines(offer), env.port);
    RenegoIsBlocks(offer, env, mappings);
    ParsedOffer(offer, env);
    HeaderPlain(sections, env);
    GroupsOfBlocks(HeaderLines(sections, env), sections, env, LookupOf(mappings));
  }

  lemma {:induction false} GroupPerMediaLine(lines: seq<string>)
    ensures |Groups(lines)| == MediaCount(lines)
  {
    if lines != [] {
      GroupPerMediaLine(lines[..|lines| - 1]);
    }
  }

  lemma MediaCountSnoc(lines: seq<string>, line: string)
    ensures MediaCount(lines + [line]) == MediaCount(lines) + (if StartsWith(line, "m=") then 1 else 0)
  {
    hide KindOf, StartsWith;
    MediaIff(line);
    assert (lines + [line])[..|lines|] == lines;
  }

  lemma ScanLineMedia(st: Scan, line: string, lookup: Lookup)
    ensures MediaCount(ScanLine(st, line, lookup).out) == MediaCount(st.out) + (if StartsWith(line, "m=") then 1 else 0)
  {
    hide SsrcLine, Trim, MediaCount, IsMid, IsEnd;
    MediaCountSnoc(st.out, line);
    var next := ScanLine(st, line, lookup);
    if next.out != st.out + [line] {
      var ssrc := lookup[next.mid.value];
      SsrcLineIsNoMLine(ssrc);
      MediaCountSnoc(st.out, SsrcLine(ssrc));
      MediaCountSnoc(st.out + [SsrcLine(ssrc)], line);
    }
  }

  lemma MediaIff(line: string)
    ensures KindOf(line).Media? <==> StartsWith(line, "m=")
  {
  }

  lemma MediaCountLast(lines: seq<string>)
    requires lines != []
    ensures var n := |lines| - 1;
            MediaCount(lines) == MediaCount(lines[..n]) + (if StartsWith(lines[n], "m=") then 1 else 0)
  {
    hide KindOf, StartsWith;
    MediaIff(lines[|lines| - 1]);
  }

  lemma {:induction false} ScanKeepsMedia(st: Scan, lines: seq<string>, lookup: Lookup)
    ensures MediaCount(ScanAll(st, lines, lookup).out) == MediaCount(st.out) + MediaCount(lines)
  {
    hide ScanLine, StartsWith, MediaCount, KindOf;
    if lines == [] {
      NoMediaLines();
    } else {
      var n := |lines| - 1;
      ScanKeepsMedia(st, lines[..n], lookup);
      ScanLineMedia(ScanAll(st, lines[..n], lookup), lines[n], lookup);
      MediaCountLast(lines);
    }
  }

  /** A renegotiated text has as many media sections as the text it was made from has m= lines, whatever that is. */
  lemma RenegoKeepsMedia(text: string, mappings: seq<SsrcMapping>)
    ensures |Groups(Lines(RenegoText(text, mappings)))| == MediaCount(Lines(text))
  {
    hide Lines, Join, Groups, MediaCount, ScanAll, OneLine, LookupOf;
    var lookup := LookupOf(mappings);
    GroupPerMediaLine(Lines(RenegoText(text, mappings)));
    if mappings != [] {
      LinesAreOneLine(text);
      AnnouncedOneLine(START, Lines(text), lookup);
      LinesOfJoin(Announced(Lines(text), lookup));
      ScanKeepsMedia(START, Lines(text), lookup);
      NoMediaLines();
    }
  }

  lemma NoMediaLines()
    ensures MediaCount([]) == 0
  {
  }

  /**
   * For every ufrag: the renegotiated text has one media section per offered one if and only if no line of the ufrag
   * behind its first starts with m=.
   */
  lemma GroupPerSection(offer: string, env: Env, mappings: seq<SsrcMapping>)
    requires OwnLines(env) && !Has(env.port, ' ')
    requires PatchesAreRight(Parse(Lines(offer), env.port), env, true)
    ensures var sections := Parse(Lines(offer), env.port);
            |Groups(Lines(RenegoText(AnswerText(sections, env, true), mappings)))| == |sections|
            <==> sections == [] || NoMedia(Extra(env))
  {
    hide Parse, Lines, AnswerText, RenegoText, Groups, MediaCount, PatchesAreRight, OwnLines, Has, Extra, NoMedia;
    AsManySections(offer, env, true);
    RenegoKeepsMedia(AnswerText(Parse(Lines(offer), env.port), env, true), mappings);
  }

  /** Erasing the a=ssrc lines of the renegotiated text gives back the lines of the base answer. */
  lemma EraseGivesBase(offer: string, env: Env, mappings: seq<SsrcMapping>)
    requires CleanOffer(offer, env)
    ensures var base := AnswerText(Parse(Lines(offer), env.port), env, true);
            Erase(Lines(RenegoText(base, mappings))) == Lines(base)
  {
    var sections := Parse(Lines(offer), env.port);
    var lines := AnswerLines(sections, env, true);
    hide Parse, AnswerText, Lines, OneLine, ScanAll, ParsedSection, HasPort, RenegoText, HeaderLines, AllSectionLines,
         Erase, IsSsrc, Has;
    AnswerTextLines(offer, env, true);
    ParsedOffer(offer, env);
    RenegoLines(offer, env, mappings);
    HeaderPlain(sections, env);
    AllSectionsNoSsrc(sections, env);
    assert NoSsrc(lines);
    EraseAnnounced(START, lines, LookupOf(mappings));
    NoSsrcLines([]);
    assert [] + lines == lines;
  }

  /** The parser skips a=ssrc lines. */
  lemma {:induction false} ParseErased(lines: seq<string>, port: string)
    ensures Parse(Erase(lines), port) == Parse(lines, port)
  {
    hide KindOf, NewSection, IsSsrc;
    if lines != [] {
      var n := |lines| - 1;
      ParseErased(lines[..n], port);
      var before := Erase(lines[..n]);
      assert (before + [lines[n]])[..|before|] == before;
      if IsSsrc(lines[n]) { SsrcKind(lines[n]); }
    }
  }

  /** A renegotiated answer is read as the same sections as the base answer. */
  lemma RenegoReparses(offer: string, env: Env, mappings: seq<SsrcMapping>)
    requires CleanOffer(offer, env)
    ensures var sections := Parse(Lines(offer), env.port);
            Parse(Lines(RenegoText(AnswerText(sections, env, true), mappings)), env.port)
            == AnswerSections(sections, true)
  {
    hide Parse, AnswerText, Lines, RenegoText, AnswerSections, Erase, Has, SingleLineEnv, PatchesAreRight;
    EraseGivesBase(offer, env, mappings);
    ParseErased(Lines(RenegoText(AnswerText(Parse(Lines(offer), env.port), env, true), mappings)), env.port);
    AnswerReparses(offer, env, true);
  }
}
