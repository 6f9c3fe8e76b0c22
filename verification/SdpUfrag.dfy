/**
 * The answer read again when its ufrag has line feeds: an endpoint that joined without an offer has the ufrag that its
 * client chose (src/protocol/protocol.rs:268), and a renegotiation prints it as it is.
 */
module SdpUfrag {
  import opened Basics
  import opened Text
  import opened SdpParse
  import opened SdpAnswer
  import opened SdpPatch
  import opened SdpReparse

  // ------------------------------------------------------------------------
  // The extra lines
  // ------------------------------------------------------------------------

  function UfragLine(env: Env): string {
    "a=ice-ufrag:" + env.ufrag
  }

  /** The lines that are read behind the first one of the ufrag line. */
  function Extra(env: Env): seq<string> {
    var lines := Lines(UfragLine(env) + "\r\n");
    if lines == [] then [] else lines[1..]
  }

  /** The first of them is the credential line that the parser skips. */
  lemma UfragLines(env: Env) returns (first: string)
    ensures Lines(UfragLine(env) + "\r\n") == [first] + Extra(env) && KindOf(first) == Skipped
  {
    var x := UfragLine(env) + "\r\n";
    assert x[|x| - 1] == '\n';
    var piece, rest := FirstPiece(x);
    LinesOfPiece(piece, rest);
    first := StripCr(piece);
    UfragPiece(env, piece, rest);
    IceKind(first);
  }

  lemma UfragPiece(env: Env, piece: string, rest: string)
    requires UfragLine(env) + "\r\n" == piece + "\n" + rest
    ensures StartsWith(StripCr(piece), "a=ice-")
  {
    var x := UfragLine(env) + "\r\n";
    assert forall k :: 0 <= k < 12 ==> x[k] == "a=ice-ufrag:"[k];
    assert x[|piece|] == '\n';
    assert |piece| >= 12;
    assert forall k :: 0 <= k < 12 ==> piece[k] == x[k];
    var s := StripCr(piece);
    assert s[..6] == "a=ice-";
  }

  /** A single-line ufrag has none. */
  lemma NothingExtra(env: Env)
    requires OneLine(env.ufrag)
    ensures Extra(env) == []
  {
    OneLineAppend("a=ice-ufrag:", env.ufrag);
    ExpandSingle(UfragLine(env));
  }

  // ------------------------------------------------------------------------
  // The lines that are read
  // ------------------------------------------------------------------------

  /** The body of a section as it is read. */
  function ReadBody(s: Section, env: Env, conference: bool): seq<string> {
    Expand(HeadLines(s, env, conference)) + TailLines(s, env, conference)
  }

  function BackLines(env: Env): seq<string> {
    ["a=ice-pwd:" + env.pwd, "a=fingerprint:" + env.fingerprint, "a=setup:passive", "a=rtcp-mux"]
  }

  lemma BackLinesSkipped(env: Env)
    ensures AllSkipped(BackLines(env))
  {
    hide KindOf;
    IceKind("a=ice-pwd:" + env.pwd);
    FingerprintKind(env.fingerprint);
    SetupKind();
    RtcpMuxKind();
  }

  lemma BackLinesOneLine(env: Env)
    requires OwnLines(env)
    ensures AllOneLine(BackLines(env)) && OneLine("c=IN IP4 " + env.ip)
  {
    OneLineAppend("c=IN IP4 ", env.ip);
    OneLineAppend("a=ice-pwd:", env.pwd);
    OneLineAppend("a=fingerprint:", env.fingerprint);
    assert OneLine("a=setup:passive") && OneLine("a=rtcp-mux");
    hide OneLine;
  }

  lemma ReadCredentials(env: Env) returns (front: seq<string>, back: seq<string>)
    requires OwnLines(env)
    ensures Expand(Credentials(env)) == front + Extra(env) + back && AllSkipped(front) && AllSkipped(back)
  {
    hide KindOf, OneLine, Expand, Extra, UfragLine, OwnLines, BackLines, Credentials, Lines;
    var c, u := "c=IN IP4 " + env.ip, UfragLine(env);
    back := BackLines(env);
    BackLinesSkipped(env);
    BackLinesOneLine(env);
    ConnectionKind(env.ip);
    var first := UfragLines(env);
    ExpandSingle(c);
    ExpandSingle(u);
    ExpandOneLines(back);
    ExpandAppend([c], [u]);
    ExpandAppend([c] + [u], back);
    CredentialsParts(env);
    front := [c, first];
    assert [c] + ([first] + Extra(env)) == front + Extra(env);
  }

  lemma CredentialsParts(env: Env)
    ensures Credentials(env) == ["c=IN IP4 " + env.ip] + [UfragLine(env)] + BackLines(env)
  {
  }

  lemma ReadSection(s: Section, env: Env, conference: bool)
    requires OwnLines(env) && ParsedSection(s)
    ensures Expand(SectionLines(s, env, conference)) == [AnswerMLine(s, conference)] + ReadBody(s, env, conference)
  {
    hide Expand, HeadLines, TailLines, AnswerMLine, OneLine, OwnLines, ParsedSection;
    var m, head, tail := AnswerMLine(s, conference), HeadLines(s, env, conference), TailLines(s, env, conference);
    MLineOneLine(s, conference);
    TailOneLine(s, env, conference);
    ExpandSingle(m);
    ExpandOneLines(tail);
    ExpandAppend(head, tail);
    ExpandAppend([m], head + tail);
  }

  lemma ReadHead(s: Section, env: Env, conference: bool) returns (front: seq<string>, back: seq<string>)
    requires OwnLines(env) && ParsedSection(s)
    ensures Expand(HeadLines(s, env, conference)) == front + Extra(env) + (back + FlagLines(s, conference))
    ensures AllSkipped(front) && AllSkipped(back)
  {
    hide Expand, Credentials, FlagLines, Extra, KindOf, OneLine, OwnLines, MidOf, IsCodecLine;
    front, back := ReadCredentials(env);
    MidOneLine(s.codecLines);
    FlagsOneLine(s, conference);
    ExpandOneLines(FlagLines(s, conference));
    ExpandAppend(Credentials(env), FlagLines(s, conference));
    var flags := FlagLines(s, conference);
    assert front + Extra(env) + back + flags == front + Extra(env) + (back + flags);
  }

  // ------------------------------------------------------------------------
  // Counting m= lines
  // ------------------------------------------------------------------------

  function MediaCount(lines: seq<string>): nat {
    if lines == [] then 0
    else MediaCount(lines[..|lines| - 1]) + (if KindOf(lines[|lines| - 1]).Media? then 1 else 0)
  }

  lemma {:induction false} MediaCountAppend(a: seq<string>, b: seq<string>)
    ensures MediaCount(a + b) == MediaCount(a) + MediaCount(b)
    decreases |b|
  {
    hide KindOf;
    if b == [] {
      assert a + b == a;
    } else {
      var n := |b| - 1;
      MediaCountAppend(a, b[..n]);
      assert (a + b)[..|a + b| - 1] == a + b[..n];
    }
  }

  lemma {:induction false} NoMediaCount(lines: seq<string>)
    ensures MediaCount(lines) == 0 <==> NoMedia(lines)
  {
    hide KindOf;
    if lines != [] {
      var n := |lines| - 1;
      NoMediaCount(lines[..n]);
      assert lines == lines[..n] + [lines[n]];
    }
  }

  /** Any text has as many sections as m= lines. */
  lemma {:induction false} SectionPerMediaLine(lines: seq<string>, port: string)
    ensures |Parse(lines, port)| == MediaCount(lines)
  {
    hide KindOf, Absorb, NewSection;
    if lines != [] {
      SectionPerMediaLine(lines[..|lines| - 1], port);
    }
  }

  lemma SectionMediaCount(s: Section, env: Env, conference: bool)
    requires OwnLines(env) && ParsedSection(s) && HasPort(s, env.port) && !Has(env.port, ' ')
    ensures MediaCount(Expand(SectionLines(s, env, conference))) == 1 + MediaCount(Extra(env))
  {
    hide KindOf, HeadLines, TailLines, AnswerMLine, OwnLines, ParsedSection, HasPort, Has, SetPort, MediaTypeOf,
          FlagLines, Extra, Expand, StartsWith;
    var m, head, tail := AnswerMLine(s, conference), HeadLines(s, env, conference), TailLines(s, env, conference);
    var flags := FlagLines(s, conference);
    ReadSection(s, env, conference);
    var front, back := ReadHead(s, env, conference);
    MLineAgain(s, env.port, conference);
    MediaKind(m);
    TailHasNoMedia(s, env, conference);
    FlagsHaveNoMedia(s, conference);
    NoMediaCount(front);
    NoMediaCount(back);
    NoMediaCount(flags);
    NoMediaCount(tail);
    OneMediaCount(m);
    MediaCountAppend(back, flags);
    MediaCountAppend(front, Extra(env));
    MediaCountAppend(front + Extra(env), back + flags);
    MediaCountAppend(Expand(head), tail);
    MediaCountAppend([m], ReadBody(s, env, conference));
  }

  lemma FlagsHaveNoMedia(s: Section, conference: bool)
    ensures NoMedia(FlagLines(s, conference))
  {
    RtcpRsizeKind();
    DirectionKind(AnswerDirection(s.direction, conference));
    MsidKind(s.mid);
    hide KindOf, MsidLine;
  }

  lemma OneMediaCount(m: string)
    requires KindOf(m).Media?
    ensures MediaCount([m]) == 1
  {
    hide KindOf;
    assert [m][..0] == [] && MediaCount([]) == 0;
  }

  predicate AllReadable(sections: seq<Section>, env: Env) {
    forall i :: 0 <= i < |sections| ==> ParsedSection(sections[i]) && HasPort(sections[i], env.port)
  }

  lemma {:induction false} SectionsMediaCount(sections: seq<Section>, env: Env, conference: bool)
    requires OwnLines(env) && AllReadable(sections, env) && !Has(env.port, ' ')
    ensures MediaCount(Expand(AllSectionLines(sections, env, conference))) == |sections| * (1 + MediaCount(Extra(env)))
  {
    hide KindOf, SectionLines, ParsedSection, HasPort, Has, OwnLines, Extra, Lines, OneLine;
    if sections == [] {
      assert Expand([]) == [] && MediaCount([]) == 0;
    } else {
      hide Expand, MediaCount;
      var n := |sections| - 1;
      var before, lines := AllSectionLines(sections[..n], env, conference), SectionLines(sections[n], env, conference);
      SectionsMediaCount(sections[..n], env, conference);
      SectionMediaCount(sections[n], env, conference);
      ExpandAppend(before, lines);
      MediaCountAppend(Expand(before), Expand(lines));
      OneFactorMore(n, 1 + MediaCount(Extra(env)));
    }
  }

  /** The lines of the printed text, for any ufrag. */
  lemma ReadText(offer: string, env: Env, conference: bool)
    requires OwnLines(env) && !Has(env.port, ' ')
    requires PatchesAreRight(Parse(Lines(offer), env.port), env, conference)
    ensures var sections := Parse(Lines(offer), env.port);
            && AllReadable(sections, env)
            && Lines(AnswerText(sections, env, conference))
               == HeaderLines(sections, env) + Expand(AllSectionLines(sections, env, conference))
  {
    hide Parse, Lines, AnswerText, AllSectionLines, HeaderLines, Join, PatchesAreRight, OwnLines, OneLine,
         ParsedSection, HasPort, Has, MidOf, IsCodecLine, Expand;
    var sections := Parse(Lines(offer), env.port);
    LinesAreOneLine(offer);
    OwnPort(env);
    ParseMakesSections(Lines(offer), env.port);
    ParsedHasPort(Lines(offer), env.port);
    AnswerIsItsLines(sections, env, conference);
    LinesOfAnyJoin(AnswerLines(sections, env, conference));
    ExpandAppend(HeaderLines(sections, env), AllSectionLines(sections, env, conference));
    forall i | 0 <= i < |sections| ensures OneLine(sections[i].mid) { MidIsOneLine(sections[i]); }
    HeaderOneLine(sections, env);
    ExpandOneLines(HeaderLines(sections, env));
  }

  lemma OwnPort(env: Env)
    requires OwnLines(env)
    ensures OneLine(env.port)
  {
  }

  lemma MidIsOneLine(s: Section)
    requires ParsedSection(s)
    ensures OneLine(s.mid)
  {
    MidOneLine(s.codecLines);
  }

  /**
   * For every ufrag: the answer has as many sections as the offer if and only if no line of the ufrag behind its
   * first starts with m=.
   */
  lemma AsManySections(offer: string, env: Env, conference: bool)
    requires OwnLines(env) && !Has(env.port, ' ')
    requires PatchesAreRight(Parse(Lines(offer), env.port), env, conference)
    ensures var sections := Parse(Lines(offer), env.port);
            var lines := Lines(AnswerText(sections, env, conference));
            MediaCount(lines) == |sections| <==> sections == [] || NoMedia(Extra(env))
  {
    hide Parse, Lines, AnswerText, AllSectionLines, HeaderLines, PatchesAreRight, OwnLines, AllReadable, Has, KindOf,
         Extra, Expand, NoMedia;
    var sections := Parse(Lines(offer), env.port);
    var header, body := HeaderLines(sections, env), Expand(AllSectionLines(sections, env, conference));
    ReadText(offer, env, conference);
    HeaderHasNoMedia(sections, env);
    NoMediaCount(header);
    NoMediaCount(Extra(env));
    MediaCountAppend(header, body);
    SectionsMediaCount(sections, env, conference);
    Product(|sections|, MediaCount(Extra(env)));
  }

  lemma OneFactorMore(n: nat, k: nat)
    ensures n * k + k == (n + 1) * k
  {
  }

  lemma Product(n: nat, k: nat)
    ensures n * (1 + k) == n <==> n == 0 || k == 0
  {
    if n > 0 && k > 0 {
      assert n * (1 + k) == n + n * k && n * k > 0;
    }
  }

  // ------------------------------------------------------------------------
  // Reading the same sections
  // ------------------------------------------------------------------------

  function CodecCount(lines: seq<string>): nat {
    if lines == [] then 0
    else
      var kind := KindOf(lines[|lines| - 1]);
      CodecCount(lines[..|lines| - 1]) + (if kind.Mid? || kind.Kept? then 1 else 0)
  }

  predicate HasRsize(lines: seq<string>) {
    exists i :: 0 <= i < |lines| && KindOf(lines[i]).Rsize?
  }

  lemma HasRsizeSnoc(lines: seq<string>)
    requires lines != []
    ensures HasRsize(lines) <==> HasRsize(lines[..|lines| - 1]) || KindOf(lines[|lines| - 1]).Rsize?
  {
    hide KindOf;
    var n := |lines| - 1;
    assert lines == lines[..n] + [lines[n]];
    if HasRsize(lines[..n]) {
      var i :| 0 <= i < n && KindOf(lines[..n][i]).Rsize?;
      assert KindOf(lines[i]).Rsize?;
    }
  }

  lemma {:induction false} AbsorbCount(t: Section, lines: seq<string>)
    ensures |AbsorbAll(t, lines).codecLines| == |t.codecLines| + CodecCount(lines)
    ensures AbsorbAll(t, lines).rsize == (t.rsize || HasRsize(lines))
  {
    hide KindOf, HasRsize;
    if lines == [] {
      assert !HasRsize([]) by { NoRsize(); }
    } else {
      AbsorbCount(t, lines[..|lines| - 1]);
      HasRsizeSnoc(lines);
    }
  }

  lemma NoRsize()
    ensures !HasRsize([])
  {
  }

  /** Lines without anything to collect change at most the direction and rtcp-rsize. */
  lemma {:induction false} AbsorbUncollected(t: Section, lines: seq<string>)
    requires CodecCount(lines) == 0
    ensures var r := AbsorbAll(t, lines); r == t.(direction := r.direction, rsize := r.rsize)
  {
    hide KindOf;
    if lines != [] {
      AbsorbUncollected(t, lines[..|lines| - 1]);
    }
  }

  function Blank(s: Section, env: Env, conference: bool): Section {
    NewSection(AnswerMLine(s, conference), env.port)
  }

  /** The section as it is read. */
  function ReadAs(s: Section, env: Env, conference: bool): Section {
    var extra := AbsorbAll(Blank(s, env, conference), Extra(env));
    AbsorbAll(AbsorbAll(extra, FlagLines(s, conference)), TailLines(s, env, conference))
  }

  lemma ReadSectionAgain(before: seq<string>, s: Section, env: Env, conference: bool)
    requires OwnLines(env) && ParsedSection(s) && HasPort(s, env.port) && !Has(env.port, ' ') && NoMedia(Extra(env))
    ensures Parse(before + Expand(SectionLines(s, env, conference)), env.port)
         == Parse(before, env.port) + [ReadAs(s, env, conference)]
  {
    hide Parse, AbsorbAll, KindOf, AnswerMLine, HeadLines, TailLines, FlagLines, SetPort, MediaTypeOf, Extra, Expand,
         OwnLines, ParsedSection, HasPort, Has, StartsWith, OneLine;
    var m, tail, flags := AnswerMLine(s, conference), TailLines(s, env, conference), FlagLines(s, conference);
    var blank, extra := Blank(s, env, conference), Extra(env);
    ReadSection(s, env, conference);
    var front, back := ReadHead(s, env, conference);
    var body := ReadBody(s, env, conference);
    assert body == front + extra + (back + flags) + tail;
    MLineAgain(s, env.port, conference);
    MediaKind(m);
    TailHasNoMedia(s, env, conference);
    FlagsHaveNoMedia(s, conference);
    assert NoMedia(body);
    ParseSection(before, m, body, env.port);
    assert before + [m] + body == before + ([m] + body);
    AbsorbBody(blank, front, extra, back, flags, tail);
  }

  lemma AbsorbBody(t: Section, front: seq<string>, extra: seq<string>, back: seq<string>, flags: seq<string>,
                   tail: seq<string>)
    requires AllSkipped(front) && AllSkipped(back)
    ensures AbsorbAll(t, front + extra + (back + flags) + tail)
         == AbsorbAll(AbsorbAll(AbsorbAll(t, extra), flags), tail)
  {
    hide AbsorbAll, KindOf;
    var u := AbsorbAll(t, extra);
    AbsorbAppend(t, front + extra + (back + flags), tail);
    AbsorbAppend(t, front + extra, back + flags);
    AbsorbAppend(t, front, extra);
    AbsorbSkipped(t, front);
    AbsorbAppend(u, back, flags);
    AbsorbSkipped(u, back);
  }

  /** The extra lines are harmless for a section: nothing of them is collected, and rtcp-rsize is not new. */
  predicate HarmlessFor(extra: seq<string>, s: Section) {
    CodecCount(extra) == 0 && (HasRsize(extra) ==> s.rsize)
  }

  lemma ReadAsPrinted(s: Section, env: Env, conference: bool)
    requires ParsedSection(s) && HasPort(s, env.port) && !Has(env.port, ' ')
    ensures ReadAs(s, env, conference) == AnswerSection(s, conference) <==> HarmlessFor(Extra(env), s)
  {
    var blank, extra := Blank(s, env, conference), Extra(env);
    var flags, tail := FlagLines(s, conference), TailLines(s, env, conference);
    var read, flagged := AbsorbAll(blank, extra), AbsorbAll(AbsorbAll(blank, extra), flags);
    MLineAgain(s, env.port, conference);
    assert s.mid == MidOf(s.codecLines);
    hide AbsorbAll, KindOf, AnswerMLine, TailLines, FlagLines, SetPort, MediaTypeOf, Extra, HasPort, Has, StartsWith,
         OneLine, CodecLines, CodecCount, HasRsize, MidOf, IsCodecLine;
    AbsorbFlags(read, s, conference);
    AbsorbFlags(blank, s, conference);
    AbsorbTail(blank, s, env, conference);
    AbsorbCount(blank, extra);
    AbsorbCount(blank, tail);
    AbsorbCount(flagged, tail);
    if HarmlessFor(extra, s) {
      AbsorbUncollected(blank, extra);
      AbsorbTail(flagged, s, env, conference);
    }
  }

  function ReadSections(sections: seq<Section>, env: Env, conference: bool): seq<Section> {
    seq(|sections|, i requires 0 <= i < |sections| => ReadAs(sections[i], env, conference))
  }

  lemma {:induction false} ReadSectionsAgain(header: seq<string>, sections: seq<Section>, env: Env, conference: bool)
    requires NoMedia(header) && NoMedia(Extra(env)) && OwnLines(env) && !Has(env.port, ' ')
    requires AllReadable(sections, env)
    ensures Parse(header + Expand(AllSectionLines(sections, env, conference)), env.port)
         == ReadSections(sections, env, conference)
  {
    hide Parse, SectionLines, ParsedSection, HasPort, ReadAs, KindOf, Extra, OwnLines, Has, Lines;
    if sections == [] {
      ParseHeader(header, env.port);
      assert header + Expand([]) == header;
    } else {
      var n := |sections| - 1;
      var before, lines := AllSectionLines(sections[..n], env, conference), SectionLines(sections[n], env, conference);
      ReadSectionsAgain(header, sections[..n], env, conference);
      ReadSectionAgain(header + Expand(before), sections[n], env, conference);
      ExpandAppend(before, lines);
      hide Expand;
      assert header + Expand(before) + Expand(lines) == header + (Expand(before) + Expand(lines));
      assert ReadSections(sections, env, conference)
          == ReadSections(sections[..n], env, conference) + [ReadAs(sections[n], env, conference)];
    }
  }

  /** No extra line starts a section or is collected, and rtcp-rsize is in none unless in every section. */
  predicate Harmless(extra: seq<string>, sections: seq<Section>) {
    NoMedia(extra) && forall i :: 0 <= i < |sections| ==> HarmlessFor(extra, sections[i])
  }

  /**
   * For every ufrag: reading the answer with the offer's parser gives the sections that were printed if and only if
   * the extra lines of the ufrag are harmless.
   */
  lemma AnswerReparsesExactly(offer: string, env: Env, conference: bool)
    requires OwnLines(env) && !Has(env.port, ' ')
    requires PatchesAreRight(Parse(Lines(offer), env.port), env, conference)
    ensures var sections := Parse(Lines(offer), env.port);
            Parse(Lines(AnswerText(sections, env, conference)), env.port) == AnswerSections(sections, conference)
            <==> sections == [] || Harmless(Extra(env), sections)
  {
    hide Parse, Lines, AnswerText, AllSectionLines, HeaderLines, PatchesAreRight, OwnLines, Has, KindOf, ParsedSection,
         HasPort, Extra, Expand, NoMedia, HarmlessFor, ReadAs, AnswerSection;
    var sections := Parse(Lines(offer), env.port);
    var lines := Lines(AnswerText(sections, env, conference));
    ReadText(offer, env, conference);
    AsManySections(offer, env, conference);
    SectionPerMediaLine(lines, env.port);
    HeaderHasNoMedia(sections, env);
    if NoMedia(Extra(env)) {
      ReadSectionsAgain(HeaderLines(sections, env), sections, env, conference);
      forall i | 0 <= i < |sections|
        ensures ReadAs(sections[i], env, conference) == AnswerSection(sections[i], conference)
                <==> HarmlessFor(Extra(env), sections[i])
      {
        ReadAsPrinted(sections[i], env, conference);
      }
      SameSections(sections, env, conference);
    }
  }

  lemma SameSections(sections: seq<Section>, env: Env, conference: bool)
    ensures ReadSections(sections, env, conference) == AnswerSections(sections, conference)
            <==> forall i :: 0 <= i < |sections| ==>
                   ReadAs(sections[i], env, conference) == AnswerSection(sections[i], conference)
  {
    hide ReadAs, AnswerSection;
    var a, b := ReadSections(sections, env, conference), AnswerSections(sections, conference);
    if a == b {
      forall i | 0 <= i < |sections|
        ensures ReadAs(sections[i], env, conference) == AnswerSection(sections[i], conference)
      {
        assert a[i] == b[i];
      }
    }
  }
}
