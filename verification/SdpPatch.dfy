/**
 * The patch of an m= line that is already printed (`rfind` and `replace_range` in src/protocol/sdp.rs): when it
 * hits the line of the section being printed, and what the printed text then is.
 */
module SdpPatch {
  import opened Basics
  import opened Text
  import opened SdpParse
  import opened SdpAnswer

  predicate NoEquals(s: string) {
    !Has(s, '=')
  }

  /** The token-char of RFC 8866, section 9. */
  predicate TokenChar(c: char) {
    var n := c as int;
    n == 0x21 || 0x23 <= n <= 0x27 || 0x2A <= n <= 0x2B || 0x2D <= n <= 0x2E || 0x30 <= n <= 0x39
    || 0x41 <= n <= 0x5A || 0x5E <= n <= 0x7E
  }

  predicate IsToken(s: string) {
    forall i :: 0 <= i < |s| ==> TokenChar(s[i])
  }

  /** None of the values that a section's attributes print has an equals sign. */
  predicate NoEqualsEnv(env: Env) {
    NoEquals(env.ip) && NoEquals(env.ufrag) && NoEquals(env.pwd) && NoEquals(env.fingerprint)
  }

  // ------------------------------------------------------------------------
  // Where m= can occur
  // ------------------------------------------------------------------------

  predicate NoMEquals(t: string) {
    forall j :: 0 <= j && j + 1 < |t| ==> !(t[j] == 'm' && t[j + 1] == '=')
  }

  /** A line whose only equals sign is its second character, after something else than m. */
  predicate Attribute(line: string) {
    |line| >= 2 && line[0] != 'm' && line[1] == '=' && forall j :: 2 <= j < |line| ==> line[j] != '='
  }

  lemma {:induction false} AttributesHideNoMedia(lines: seq<string>)
    requires forall i :: 0 <= i < |lines| ==> Attribute(lines[i])
    ensures NoMEquals(Join(lines)) && (lines != [] ==> Join(lines)[|Join(lines)| - 1] == '\n')
  {
    if lines != [] {
      var n := |lines| - 1;
      AttributesHideNoMedia(lines[..n]);
      var before, line := Join(lines[..n]), lines[n];
      var t := before + line + "\r\n";
      assert n > 0 ==> lines[..n] != [];
      assert before != [] ==> n > 0;
      forall j | 0 <= j && j + 1 < |t| ensures !(t[j] == 'm' && t[j + 1] == '=') {
        if j + 1 < |before| {
          assert t[j] == before[j] && t[j + 1] == before[j + 1];
        } else if |before| <= j && j + 1 < |before| + |line| {
          assert t[j] == line[j - |before|] && t[j + 1] == line[j + 1 - |before|];
        }
      }
    }
  }

  /**
   * In `text + m + "\r\n" + front + last` the last occurrence of the m= line `m` is the one behind `text`
   * exactly when `last` does not contain `m`; `front` holds attribute lines only.
   */
  lemma LastMediaLine(text: string, m: string, front: string, last: string)
    requires StartsWith(m, "m=") && OneLine(m)
    requires NoMEquals(front) && (front != [] ==> front[|front| - 1] == '\n')
    ensures Last(text + m + "\r\n" + front + last, m) == Some(|text|) <==> !Contains(last, m)
  {
    var t := text + m + "\r\n" + front + last;
    var base := |text| + |m| + 2 + |front|;
    assert OccursAt(t, m, |text|) by {
      assert t[|text|..|text| + |m|] == m;
    }
    forall i | |text| < i < base ensures !OccursAt(t, m, i) {
      NoEarlierMediaLine(text, m, front, last, i);
    }
    forall i | base <= i <= |t| ensures OccursAt(t, m, i) <==> OccursAt(last, m, i - base) {
      assert t[base..] == last;
      if i + |m| <= |t| {
        assert t[i..i + |m|] == last[i - base..i - base + |m|];
      }
    }
    if Contains(last, m) {
      var k :| 0 <= k <= |last| && OccursAt(last, m, k);
      assert OccursAt(t, m, base + k);
      LastIsLast(t, m, |t|, base + k);
    } else {
      forall i | |text| < i <= |t| ensures !OccursAt(t, m, i) {
        if base <= i { assert 0 <= i - base <= |last|; }
      }
      LastFromIs(t, m, |t|, Some(|text|));
    }
  }

  lemma {:induction false} LastIsLast(s: string, p: string, i: nat, k: nat)
    requires k <= i && OccursAt(s, p, k)
    ensures LastFrom(s, p, i).Some? && LastFrom(s, p, i).value >= k
  {
    if !OccursAt(s, p, i) {
      LastIsLast(s, p, i - 1, k);
    }
  }

  lemma NoEarlierMediaLine(text: string, m: string, front: string, last: string, i: nat)
    requires StartsWith(m, "m=") && OneLine(m)
    requires NoMEquals(front) && (front != [] ==> front[|front| - 1] == '\n')
    requires |text| < i < |text| + |m| + 2 + |front|
    ensures !OccursAt(text + m + "\r\n" + front + last, m, i)
  {
    var t := text + m + "\r\n" + front + last;
    var end := |text| + |m|;
    assert m[0] == 'm' && m[1] == '=';
    if i < end {
      if i == |text| + 1 {
        DiffersAt(t, m, i, 0);
      } else {
        assert t[end + 1] == '\n';
        DiffersAt(t, m, i, end + 1 - i);
      }
    } else if i < end + 2 {
      DiffersAt(t, m, i, 0);
    } else {
      var j := i - end - 2;
      assert t[i] == front[j];
      if t[i] != m[0] {
        DiffersAt(t, m, i, 0);
      } else {
        assert t[i + 1] == front[j + 1];
        DiffersAt(t, m, i, 1);
      }
    }
  }

  lemma DiffersAt(s: string, p: string, i: nat, k: nat)
    requires k < |p| && i + k < |s| && s[i + k] != p[k]
    ensures !OccursAt(s, p, i)
  {
    if i + |p| <= |s| {
      assert s[i..i + |p|][k] == s[i + k];
    }
  }

  lemma ReplacedLast(text: string, m: string, front: string, last: string, newM: string)
    requires StartsWith(m, "m=") && OneLine(m) && !Contains(last, m)
    requires NoMEquals(front) && (front != [] ==> front[|front| - 1] == '\n')
    ensures ReplaceLast(text + m + "\r\n" + front + last, m, newM) == text + newM + "\r\n" + front + last
  {
    LastMediaLine(text, m, front, last);
    var t := text + m + "\r\n" + front + last;
    var rest := "\r\n" + front + last;
    assert t == text + (m + rest);
    assert t[..|text|] == text && t[|text| + |m|..] == rest;
    assert text + newM + rest == text + newM + "\r\n" + front + last;
  }

  // ------------------------------------------------------------------------
  // The patch of a section
  // ------------------------------------------------------------------------

  /** The attributes printed behind the m= line contain it. */
  predicate HeadHasMLine(s: Section, env: Env, conference: bool) {
    Contains(Join(HeadLines(s, env, conference)), s.mLine)
  }

  /**
   * Whatever was printed before and whatever the printed values are, the patch hits the m= line being printed if and
   * only if the attributes printed behind it do not contain that line.
   */
  lemma PatchHitsCurrentSection(text: string, s: Section, env: Env, conference: bool)
    requires ParsedSection(s)
    ensures Last(text + s.mLine + "\r\n" + Join(HeadLines(s, env, conference)), s.mLine) == Some(|text|)
            <==> !HeadHasMLine(s, env, conference)
  {
    var head := Join(HeadLines(s, env, conference));
    hide Join, Last, Contains, HeadLines, OneLine;
    LastMediaLine(text, s.mLine, "", head);
    assert text + s.mLine + "\r\n" + "" + head == text + s.mLine + "\r\n" + head;
  }

  lemma OccursFirst(text: string, m: string, rest: string)
    ensures OccursAt(text + m + rest, m, |text|)
  {
    assert (text + m + rest)[|text|..|text| + |m|] == m;
  }

  lemma {:induction false} LastOccurs(s: string, p: string, i: nat)
    ensures LastFrom(s, p, i).Some? ==> LastFrom(s, p, i).value <= i && OccursAt(s, p, LastFrom(s, p, i).value)
  {
    if !OccursAt(s, p, i) && i > 0 {
      LastOccurs(s, p, i - 1);
    }
  }

  /** The last occurrence is never in front of the m= line being printed, and not inside it. */
  lemma LastIsHereOrBehind(text: string, m: string, rest: string)
    requires StartsWith(m, "m=") && OneLine(m)
    ensures var found := Last(text + m + "\r\n" + rest, m);
            found.Some? && OccursAt(text + m + "\r\n" + rest, m, found.value)
            && (found.value == |text| || found.value >= |text| + |m| + 2)
  {
    hide StartsWith, OneLine, OccursAt;
    var t := text + m + "\r\n" + rest;
    assert t == text + m + ("\r\n" + rest) && t == text + m + "\r\n" + "" + rest;
    OccursFirst(text, m, "\r\n" + rest);
    LastIsLast(t, m, |t|, |text|);
    LastOccurs(t, m, |t|);
    var i := Last(t, m).value;
    if |text| < i < |text| + |m| + 2 {
      NoEarlierMediaLine(text, m, "", rest, i);
    }
  }

  /** An m= line without the patch, and the same text with another m= line, differ. */
  predicate Differ(a: string, b: string) {
    exists p :: 0 <= p < |a| && p < |b| && a[p] != b[p]
  }

  lemma DifferMore(a: string, b: string, x: string, y: string)
    requires Differ(a, b)
    ensures Differ(a + x, b + y)
  {
    var p :| 0 <= p < |a| && p < |b| && a[p] != b[p];
    assert (a + x)[p] == a[p] && (b + y)[p] == b[p];
  }

  lemma DifferBehind(text: string, a: string, b: string)
    requires Differ(a, b)
    ensures Differ(text + a, text + b)
  {
    var p :| 0 <= p < |a| && p < |b| && a[p] != b[p];
    assert (text + a)[|text| + p] == a[p] && (text + b)[|text| + p] == b[p];
  }

  /** Two different lines differ also with their line ends. */
  lemma {:induction false} EndedLinesDiffer(m: string, q: string)
    requires OneLine(m) && OneLine(q) && m != q
    ensures Differ(m + "\r\n", q + "\r\n")
    decreases |m|
  {
    var a, b := m + "\r\n", q + "\r\n";
    if m == [] {
      assert a[0] == '\r' && a[1] == '\n' && b[0] == q[0];
      assert b[1] == (if |q| > 1 then q[1] else '\r');
    } else if q == [] {
      assert b[0] == '\r' && b[1] == '\n' && a[0] == m[0];
      assert a[1] == (if |m| > 1 then m[1] else '\r');
    } else if m[0] != q[0] {
      assert a[0] != b[0];
    } else {
      assert m == [m[0]] + m[1..] && q == [q[0]] + q[1..];
      EndedLinesDiffer(m[1..], q[1..]);
      DifferBehind([m[0]], m[1..] + "\r\n", q[1..] + "\r\n");
      assert a == [m[0]] + (m[1..] + "\r\n") && b == [q[0]] + (q[1..] + "\r\n");
    }
  }

  /** The patch of the section changes nothing, or hits its own m= line. */
  predicate PatchIsRight(s: Section, env: Env, conference: bool) {
    AnswerDirection(s.direction, conference).SendOnly? && FilteredMLine(s).Some? && FilteredMLine(s).value != s.mLine
    ==> !HeadHasMLine(s, env, conference)
  }

  lemma PatchLands(text: string, m: string, head: string, q: string)
    requires StartsWith(m, "m=") && OneLine(m) && (Contains(head, m) ==> q == m)
    ensures ReplaceLast(text + m + "\r\n" + head, m, q) == text + q + "\r\n" + head
  {
    var t := text + m + "\r\n" + head;
    LastIsHereOrBehind(text, m, head);
    var i := Last(t, m).value;
    if q == m {
      assert t[..i] + m + t[i + |m|..] == t;
    } else {
      hide OneLine, StartsWith, OccursAt, Contains;
      ReplacedLast(text, m, "", head, q);
      assert text + m + "\r\n" + "" + head == t && text + q + "\r\n" + "" + head == text + q + "\r\n" + head;
    }
  }

  /** A patch that lands behind the m= line leaves it in the text. */
  lemma PatchLeavesMLine(text: string, m: string, head: string, q: string) returns (more: string)
    requires StartsWith(m, "m=") && OneLine(m) && Contains(head, m)
    ensures ReplaceLast(text + m + "\r\n" + head, m, q) == text + (m + "\r\n") + more
  {
    hide StartsWith, OneLine, Contains, OccursAt;
    var t, kept := text + m + "\r\n" + head, text + (m + "\r\n");
    assert t == text + m + "\r\n" + "" + head;
    LastMediaLine(text, m, "", head);
    LastIsHereOrBehind(text, m, head);
    assert t == kept + head;
    more := ReplacedBehind(kept, head, m, q);
  }

  lemma ReplacedBehind(kept: string, head: string, m: string, q: string) returns (more: string)
    requires Last(kept + head, m).Some? && Last(kept + head, m).value >= |kept|
    ensures ReplaceLast(kept + head, m, q) == kept + more
  {
    KeepsPrefix(kept, kept + head, m, q);
    more := ReplaceLast(kept + head, m, q)[|kept|..];
  }

  lemma PatchMisses(text: string, m: string, head: string, q: string)
    requires StartsWith(m, "m=") && OneLine(m) && OneLine(q) && Contains(head, m) && q != m
    ensures Differ(ReplaceLast(text + m + "\r\n" + head, m, q), text + q + "\r\n" + head)
  {
    hide StartsWith, OneLine, Contains, Differ, ReplaceLast;
    var more := PatchLeavesMLine(text, m, head, q);
    EndedLinesDiffer(m, q);
    DifferBehind(text, m + "\r\n", q + "\r\n");
    DifferMore(text + (m + "\r\n"), text + (q + "\r\n"), more, head);
    assert text + (q + "\r\n") + head == text + q + "\r\n" + head;
  }

  lemma KeepsPrefix(text: string, printed: string, m: string, q: string)
    requires text <= printed && Last(printed, m).Some? && Last(printed, m).value >= |text|
    ensures text <= ReplaceLast(printed, m, q)
  {
    var i := Last(printed, m).value;
    if i + |m| <= |printed| {
      assert text <= printed[..i];
    }
  }

  lemma {:induction false} FilterMembers(pts: seq<string>, allowed: seq<string>)
    ensures forall i :: 0 <= i < |Filter(pts, allowed)| ==> Filter(pts, allowed)[i] in pts
  {
    if pts != [] {
      FilterMembers(pts[..|pts| - 1], allowed);
    }
  }

  lemma MLineOneLine(s: Section, conference: bool)
    requires ParsedSection(s)
    ensures OneLine(AnswerMLine(s, conference))
  {
    if AnswerDirection(s.direction, conference).SendOnly? && FilteredMLine(s).Some? {
      hide SplitN, Has, Spaced, AllowedPts, Words, JoinWith, Filter, MediaTypeOf, IndexOf;
      var p := SplitN(s.mLine, 4);
      var pts := Filter(Words(p[3]), AllowedPts(s));
      OneLineParts(s.mLine, 4);
      WordsAreWords(p[3]);
      FilterMembers(Words(p[3]), AllowedPts(s));
      forall i | 0 <= i < |pts| ensures OneLine(pts[i]) { WordIsOneLine(pts[i]); }
      OneLineBlank();
      OneLineJoined(pts, " ");
      OneLineSpaced(p[0], p[1], p[2], JoinWith(pts, " "));
    }
  }

  lemma OneLineBlank()
    ensures OneLine(" ")
  {
  }

  lemma WordIsOneLine(w: string)
    requires IsWord(w)
    ensures OneLine(w)
  {
  }

  // ------------------------------------------------------------------------
  // The printed section
  // ------------------------------------------------------------------------

  lemma SectionText(text: string, first: string, rest: seq<string>)
    ensures text + first + "\r\n" + Join(rest) == text + Join([first] + rest)
  {
    JoinOne(first);
    JoinAppend([first], rest);
    hide Join;
    assert text + (first + "\r\n" + Join(rest)) == text + first + "\r\n" + Join(rest);
  }

  /** The text of a printed section up to its attributes, as it should be. */
  lemma PrintedHead(text: string, s: Section, env: Env, conference: bool)
    requires ParsedSection(s)
    ensures var tail := Join(TailLines(s, env, conference));
            var head := text + AnswerMLine(s, conference) + "\r\n" + Join(HeadLines(s, env, conference));
            var printed := PrintSection(text, s, env, conference);
            if PatchIsRight(s, env, conference) then printed == head + tail else Differ(printed, head + tail)
  {
    hide HeadLines, TailLines, FilteredMLine, ReplaceLast, Join, Contains, OneLine, Differ, StartsWith;
    var head, tail := Join(HeadLines(s, env, conference)), Join(TailLines(s, env, conference));
    if AnswerDirection(s.direction, conference).SendOnly? && FilteredMLine(s).Some? {
      var q := FilteredMLine(s).value;
      MLineOneLine(s, conference);
      if PatchIsRight(s, env, conference) {
        PatchLands(text, s.mLine, head, q);
      } else {
        PatchMisses(text, s.mLine, head, q);
        DifferMore(ReplaceLast(text + s.mLine + "\r\n" + head, s.mLine, q), text + q + "\r\n" + head, tail, tail);
      }
    }
  }

  /**
   * Printing a section appends its lines, and keeps the text in front of it, if and only if its patch is right;
   * otherwise the text differs from that somewhere inside both.
   */
  lemma PrintedSection(text: string, s: Section, env: Env, conference: bool)
    requires ParsedSection(s)
    ensures var printed, lines := PrintSection(text, s, env, conference), Join(SectionLines(s, env, conference));
            if PatchIsRight(s, env, conference) then printed == text + lines else Differ(printed, text + lines)
  {
    hide Join, HeadLines, TailLines, AnswerMLine, PrintSection, ParsedSection, PatchIsRight, Differ;
    var head, tail := HeadLines(s, env, conference), TailLines(s, env, conference);
    var m := AnswerMLine(s, conference);
    PrintedHead(text, s, env, conference);
    JoinAppend(head, tail);
    SectionText(text, m, head + tail);
    assert text + m + "\r\n" + (Join(head) + Join(tail)) == text + m + "\r\n" + Join(head) + Join(tail);
  }

  /** In any case the text in front of the section is kept. */
  lemma KeepsText(text: string, s: Section, env: Env, conference: bool)
    requires ParsedSection(s)
    ensures text <= PrintSection(text, s, env, conference)
  {
    hide HeadLines, TailLines, FilteredMLine, Join, OneLine, StartsWith, OccursAt, Last;
    var head, tail := Join(HeadLines(s, env, conference)), Join(TailLines(s, env, conference));
    var printed := text + s.mLine + "\r\n" + head;
    LastIsHereOrBehind(text, s.mLine, head);
    assert text <= printed;
    if AnswerDirection(s.direction, conference).SendOnly? && FilteredMLine(s).Some? {
      KeepsPrefix(text, printed, s.mLine, FilteredMLine(s).value);
    }
  }

  // ------------------------------------------------------------------------
  // The whole answer
  // ------------------------------------------------------------------------

  predicate PatchesAreRight(sections: seq<Section>, env: Env, conference: bool) {
    forall i :: 0 <= i < |sections| ==> PatchIsRight(sections[i], env, conference)
  }

  predicate AllParsed(sections: seq<Section>) {
    forall i :: 0 <= i < |sections| ==> ParsedSection(sections[i])
  }

  lemma DifferAfter(printed: string, expected: string, after: string, lines: string)
    requires Differ(printed, expected) && printed <= after
    ensures Differ(after, expected + lines)
  {
    hide Differ;
    var more := after[|printed|..];
    DifferMore(printed, expected, more, lines);
    assert printed + more == after;
  }

  lemma {:induction false} PrintedSections(text: string, sections: seq<Section>, env: Env, conference: bool)
    requires AllParsed(sections)
    ensures var printed := PrintSections(text, sections, env, conference);
            var lines := Join(AllSectionLines(sections, env, conference));
            if PatchesAreRight(sections, env, conference) then printed == text + lines
            else Differ(printed, text + lines)
  {
    if sections == [] {
      assert Join([]) == "" && text + "" == text;
    } else {
      hide PrintSection, SectionLines, ParsedSection, PatchIsRight, Differ, Join;
      var n := |sections| - 1;
      var before, lines := AllSectionLines(sections[..n], env, conference), SectionLines(sections[n], env, conference);
      var printed := PrintSections(text, sections[..n], env, conference);
      PrintedSections(text, sections[..n], env, conference);
      PrintedSection(printed, sections[n], env, conference);
      KeepsText(printed, sections[n], env, conference);
      JoinAppend(before, lines);
      Associate(text, Join(before), Join(lines));
      AllButLast(sections, env, conference);
      if !PatchesAreRight(sections[..n], env, conference) {
        DifferAfter(printed, text + Join(before), PrintSection(printed, sections[n], env, conference), Join(lines));
      }
    }
  }

  lemma Associate(a: string, b: string, c: string)
    ensures a + b + c == a + (b + c)
  {
  }

  lemma AllButLast(sections: seq<Section>, env: Env, conference: bool)
    requires sections != []
    ensures var n := |sections| - 1;
            PatchesAreRight(sections, env, conference)
            <==> PatchesAreRight(sections[..n], env, conference) && PatchIsRight(sections[n], env, conference)
  {
    hide PatchIsRight;
    var n := |sections| - 1;
    assert sections == sections[..n] + [sections[n]];
  }

  lemma DifferentTexts(a: string, b: string)
    requires Differ(a, b)
    ensures a != b
  {
  }

  /**
   * For every offer and all printed values: the text built with patches is just the answer's lines, one after the
   * other, if and only if each patch that changes its m= line finds that line nowhere in the attributes behind it.
   */
  lemma AnswerIsItsLines(sections: seq<Section>, env: Env, conference: bool)
    requires AllParsed(sections)
    ensures AnswerText(sections, env, conference) == Join(AnswerLines(sections, env, conference))
            <==> PatchesAreRight(sections, env, conference)
  {
    hide AllParsed, PrintSections, AllSectionLines, HeaderLines, PatchesAreRight, Differ;
    var header := Join(HeaderLines(sections, env));
    PrintedSections(header, sections, env, conference);
    JoinAppend(HeaderLines(sections, env), AllSectionLines(sections, env, conference));
    if !PatchesAreRight(sections, env, conference) {
      DifferentTexts(AnswerText(sections, env, conference),
                     header + Join(AllSectionLines(sections, env, conference)));
    }
  }

  // ------------------------------------------------------------------------
  // Values that cannot mislead the patch
  // ------------------------------------------------------------------------

  lemma HeadIsAttributes(s: Section, env: Env, conference: bool)
    requires NoEqualsEnv(env) && NoEquals(s.mid)
    ensures forall i :: 0 <= i < |HeadLines(s, env, conference)| ==> Attribute(HeadLines(s, env, conference)[i])
  {
    var direction := "a=" + AnswerDirection(s.direction, conference).Name();
    CredentialsAreAttributes(env);
    MsidIsAttribute(s.mid);
    assert Attribute("a=rtcp-rsize") && Attribute(direction);
    hide Attribute, Credentials, MsidLine;
    assert forall i :: 0 <= i < |FlagLines(s, conference)| ==> Attribute(FlagLines(s, conference)[i]);
  }

  lemma CredentialsAreAttributes(env: Env)
    requires NoEqualsEnv(env)
    ensures forall i :: 0 <= i < |Credentials(env)| ==> Attribute(Credentials(env)[i])
  {
  }

  lemma MsidIsAttribute(mid: string)
    requires NoEquals(mid)
    ensures Attribute(MsidLine(mid))
  {
  }

  /** The attribute lines in front of the msid line. */
  function FrontLines(s: Section, env: Env, conference: bool): seq<string> {
    Credentials(env)
    + (if s.rsize then ["a=rtcp-rsize"] else [])
    + ["a=" + AnswerDirection(s.direction, conference).Name()]
  }

  lemma FrontIsAttributes(s: Section, env: Env, conference: bool)
    requires NoEqualsEnv(env)
    ensures forall i :: 0 <= i < |FrontLines(s, env, conference)| ==> Attribute(FrontLines(s, env, conference)[i])
  {
    var direction := "a=" + AnswerDirection(s.direction, conference).Name();
    CredentialsAreAttributes(env);
    assert Attribute("a=rtcp-rsize") && Attribute(direction);
    hide Attribute, Credentials;
  }

  /** When only the mid may have an equals sign, the msid line decides. */
  lemma OnlyMsidMisleads(s: Section, env: Env, conference: bool)
    requires ParsedSection(s) && NoEqualsEnv(env) && AnswerDirection(s.direction, conference).SendOnly?
    ensures HeadHasMLine(s, env, conference) <==> Contains(MsidLine(s.mid) + "\r\n", s.mLine)
  {
    hide Join, Last, MsidLine, Contains, FrontLines, OneLine, NoMEquals, Attribute, NoEqualsEnv, Credentials,
         StartsWith;
    var front := FrontLines(s, env, conference);
    FrontIsAttributes(s, env, conference);
    AttributesHideNoMedia(front);
    EmptyJoin();
    JoinSnoc(front, MsidLine(s.mid));
    HeadSplits(s, env, conference);
    var f, msid, last := Join(front), MsidLine(s.mid), MsidLine(s.mid) + "\r\n";
    PatchHitsCurrentSection("", s, env, conference);
    LastMediaLine("", s.mLine, f, last);
    assert "" + s.mLine + "\r\n" + (f + msid + "\r\n") == "" + s.mLine + "\r\n" + f + last;
  }

  lemma HeadSplits(s: Section, env: Env, conference: bool)
    requires AnswerDirection(s.direction, conference).SendOnly?
    ensures HeadLines(s, env, conference) == FrontLines(s, env, conference) + [MsidLine(s.mid)]
  {
  }

  lemma EmptyJoin()
    ensures Join([]) == ""
  {
  }

  /** With no equals sign in the mid and the printed values, the attributes cannot contain an m= line. */
  lemma NoEqualsNoMLine(s: Section, env: Env, conference: bool)
    requires ParsedSection(s) && NoEqualsEnv(env) && NoEquals(s.mid)
    ensures !HeadHasMLine(s, env, conference)
  {
    HeadIsAttributes(s, env, conference);
    AttributesHideNoMedia(HeadLines(s, env, conference));
    hide Join, HeadLines, Attribute;
    var head := Join(HeadLines(s, env, conference));
    assert s.mLine[0] == 'm' && s.mLine[1] == '=';
    forall i | 0 <= i <= |head| ensures !OccursAt(head, s.mLine, i) {
      if i + 1 < |head| {
        DiffersAt(head, s.mLine, i, if head[i] == 'm' then 1 else 0);
      }
    }
  }

  predicate NoEqualsMids(sections: seq<Section>) {
    forall i :: 0 <= i < |sections| ==> NoEquals(sections[i].mid)
  }

  lemma NoEqualsPatchesAreRight(sections: seq<Section>, env: Env, conference: bool)
    requires AllParsed(sections) && NoEqualsEnv(env) && NoEqualsMids(sections)
    ensures PatchesAreRight(sections, env, conference)
  {
    hide ParsedSection, NoEqualsEnv, NoEquals, HeadHasMLine, FilteredMLine;
    forall i | 0 <= i < |sections| ensures PatchIsRight(sections[i], env, conference) {
      NoEqualsNoMLine(sections[i], env, conference);
    }
  }

  lemma TokensHaveNoEquals(mid: string)
    requires IsToken(mid)
    ensures NoEquals(mid)
  {
    assert !TokenChar('=');
  }

  lemma TokenMidsHaveNoEquals(sections: seq<Section>)
    requires forall i :: 0 <= i < |sections| ==> IsToken(sections[i].mid)
    ensures NoEqualsMids(sections)
  {
    forall i | 0 <= i < |sections| ensures NoEquals(sections[i].mid) { TokensHaveNoEquals(sections[i].mid); }
  }

  // ------------------------------------------------------------------------
  // Values that do
  // ------------------------------------------------------------------------

  lemma ContainsInside(a: string, b: string, c: string, p: string)
    requires Contains(b, p)
    ensures Contains(a + b + c, p)
  {
    var t := a + b + c;
    var k :| 0 <= k <= |b| && OccursAt(b, p, k);
    assert t[|a| + k..|a| + k + |p|] == b[k..k + |p|];
    assert OccursAt(t, p, |a| + k);
  }

  lemma ContainsItself(p: string)
    ensures Contains(p, p)
  {
    assert OccursAt(p, p, 0);
  }

  lemma {:induction false} JoinContains(lines: seq<string>, i: nat, p: string)
    requires i < |lines| && Contains(lines[i], p)
    ensures Contains(Join(lines), p)
  {
    hide Contains;
    var n := |lines| - 1;
    var before, last := Join(lines[..n]), lines[n] + "\r\n";
    assert Join(lines) == "" + before + last && Join(lines) == before + lines[n] + "\r\n";
    if i < n {
      JoinContains(lines[..n], i, p);
      ContainsInside("", before, last, p);
    } else {
      ContainsInside(before, lines[n], "\r\n", p);
    }
  }

  /** A mid that spells out the m= line of its own section. */
  lemma MediaLineAsMidMisleads(s: Section, env: Env, conference: bool)
    requires AnswerDirection(s.direction, conference).SendOnly? && s.mid == s.mLine
    ensures HeadHasMLine(s, env, conference)
  {
    hide Join, Contains;
    var lines, rest := HeadLines(s, env, conference), " server-" + s.mid + "-track";
    assert lines[|lines| - 1] == MsidLine(s.mid) == "a=msid:server-" + s.mid + rest;
    ContainsItself(s.mLine);
    ContainsInside("a=msid:server-", s.mid, rest, s.mLine);
    JoinContains(lines, |lines| - 1, s.mLine);
  }

  /** A ufrag that spells out the m= line, whatever the mid. */
  lemma MediaLineAsUfragMisleads(s: Section, env: Env, conference: bool)
    requires env.ufrag == s.mLine
    ensures HeadHasMLine(s, env, conference)
  {
    hide Join, Contains;
    var lines := HeadLines(s, env, conference);
    assert lines[1] == "a=ice-ufrag:" + env.ufrag + "";
    ContainsItself(s.mLine);
    ContainsInside("a=ice-ufrag:", env.ufrag, "", s.mLine);
    JoinContains(lines, 1, s.mLine);
  }
}
