/** The string operations of the SDP code, on sequences of characters. */
module Text {
  import opened Basics

  /** `starts_with`. */
  predicate StartsWith(s: string, p: string) {
    p <= s
  }

  predicate Has(s: string, c: char) {
    exists i :: 0 <= i < |s| && s[i] == c
  }

  /** Index of the first `c`, or the length. */
  function IndexOf(s: string, c: char): (i: nat)
    ensures i <= |s| && (forall k :: 0 <= k < i ==> s[k] != c) && (i < |s| ==> s[i] == c)
  {
    if s == [] || s[0] == c then 0 else 1 + IndexOf(s[1..], c)
  }

  lemma IndexOfIs(s: string, c: char, i: nat)
    requires i < |s| && s[i] == c && forall k :: 0 <= k < i ==> s[k] != c
    ensures IndexOf(s, c) == i
  {
  }

  // ------------------------------------------------------------------------
  // Lines
  // ------------------------------------------------------------------------

  function StripCr(s: string): string {
    if s != [] && s[|s| - 1] == '\r' then s[..|s| - 1] else s
  }

  /** `str::lines`: pieces ended by a line feed lose one carriage return; a last piece without one stays as it is. */
  function Lines(text: string): seq<string>
    decreases |text|
  {
    var i := IndexOf(text, '\n');
    if text == [] then []
    else if i == |text| then [text]
    else [StripCr(text[..i])] + Lines(text[i + 1..])
  }

  function Join(lines: seq<string>): string {
    if lines == [] then "" else Join(lines[..|lines| - 1]) + lines[|lines| - 1] + "\r\n"
  }

  predicate OneLine(s: string) {
    !Has(s, '\n')
  }

  predicate AllOneLine(lines: seq<string>) {
    forall i :: 0 <= i < |lines| ==> OneLine(lines[i])
  }

  lemma OneLineAppend(a: string, b: string)
    requires OneLine(a) && OneLine(b)
    ensures OneLine(a + b)
  {
    var s := a + b;
    forall i | 0 <= i < |s| ensures s[i] != '\n' {
      assert s[i] == if i < |a| then a[i] else b[i - |a|];
    }
  }

  lemma {:induction false} LinesAreOneLine(text: string)
    ensures AllOneLine(Lines(text))
    decreases |text|
  {
    var i := IndexOf(text, '\n');
    if i < |text| {
      LinesAreOneLine(text[i + 1..]);
    }
  }

  lemma {:induction false} JoinAppend(a: seq<string>, b: seq<string>)
    ensures Join(a + b) == Join(a) + Join(b)
    decreases |b|
  {
    if b == [] {
      assert a + b == a;
    } else {
      var n := |b| - 1;
      JoinAppend(a, b[..n]);
      assert (a + b)[..|a + b| - 1] == a + b[..n];
    }
  }

  lemma JoinOne(line: string)
    ensures Join([line]) == line + "\r\n"
  {
    assert [line][..0] == [];
  }

  lemma LinesOfFirst(line: string, rest: string)
    requires OneLine(line)
    ensures Lines(line + "\r\n" + rest) == [line] + Lines(rest)
  {
    var text := line + "\r\n" + rest;
    var i := |line| + 1;
    assert text[i] == '\n' && forall k :: 0 <= k < i ==> text[k] != '\n';
    IndexOfIs(text, '\n', i);
    assert text[..i] == line + "\r" && text[i + 1..] == rest;
    assert (line + "\r")[..|line|] == line;
  }

  /** Lines printed with CR LF are read back as they are. */
  lemma {:induction false} LinesOfJoin(lines: seq<string>)
    requires AllOneLine(lines)
    ensures Lines(Join(lines)) == lines
  {
    if lines != [] {
      var rest := lines[1..];
      LinesOfJoin(rest);
      JoinOne(lines[0]);
      JoinAppend([lines[0]], rest);
      assert lines == [lines[0]] + rest;
      LinesOfFirst(lines[0], Join(rest));
    }
  }

  lemma LinesOfPiece(piece: string, rest: string)
    requires OneLine(piece)
    ensures Lines(piece + "\n" + rest) == [StripCr(piece)] + Lines(rest)
  {
    var text := piece + "\n" + rest;
    var i := |piece|;
    assert text[i] == '\n' && forall k :: 0 <= k < i ==> text[k] == piece[k];
    IndexOfIs(text, '\n', i);
    assert text[..i] == piece && text[i + 1..] == rest;
  }

  lemma FirstPiece(x: string) returns (piece: string, rest: string)
    requires x != "" && x[|x| - 1] == '\n'
    ensures x == piece + "\n" + rest && OneLine(piece) && (rest == "" || rest[|rest| - 1] == '\n')
  {
    var i := IndexOf(x, '\n');
    assert i < |x|;
    piece, rest := x[..i], x[i + 1..];
    assert x[i] == '\n';
  }

  lemma LinesAppendStep(piece: string, rest: string, y: string)
    requires OneLine(piece) && Lines(rest + y) == Lines(rest) + Lines(y)
    ensures Lines(piece + "\n" + rest + y) == Lines(piece + "\n" + rest) + Lines(y)
  {
    hide Lines, OneLine;
    LinesOfPiece(piece, rest);
    LinesOfPiece(piece, rest + y);
    assert piece + "\n" + rest + y == piece + "\n" + (rest + y);
  }

  lemma {:induction false} LinesAppend(x: string, y: string)
    requires x == "" || x[|x| - 1] == '\n'
    ensures Lines(x + y) == Lines(x) + Lines(y)
    decreases |x|
  {
    hide Lines, OneLine;
    if x == "" {
      LinesOfNothing();
      assert x + y == y;
    } else {
      var piece, rest := FirstPiece(x);
      LinesAppend(rest, y);
      LinesAppendStep(piece, rest, y);
    }
  }

  /** The lines that are read when `lines` are printed, some of which may have line feeds inside. */
  function Expand(lines: seq<string>): seq<string> {
    if lines == [] then [] else Expand(lines[..|lines| - 1]) + Lines(lines[|lines| - 1] + "\r\n")
  }

  lemma {:induction false} LinesOfAnyJoin(lines: seq<string>)
    ensures Lines(Join(lines)) == Expand(lines)
  {
    hide Lines;
    if lines == [] {
      assert Lines("") == [] by { LinesOfNothing(); }
    } else {
      var n := |lines| - 1;
      var before, last := Join(lines[..n]), lines[n] + "\r\n";
      LinesOfAnyJoin(lines[..n]);
      JoinEnds(lines[..n]);
      LinesAppend(before, last);
      assert Join(lines) == before + last;
    }
  }

  lemma LinesOfNothing()
    ensures Lines("") == []
  {
  }

  lemma JoinEnds(lines: seq<string>)
    ensures Join(lines) == "" || Join(lines)[|Join(lines)| - 1] == '\n'
  {
  }

  lemma {:induction false} ExpandAppend(a: seq<string>, b: seq<string>)
    ensures Expand(a + b) == Expand(a) + Expand(b)
    decreases |b|
  {
    hide Lines;
    if b == [] {
      assert a + b == a;
    } else {
      var n := |b| - 1;
      ExpandAppend(a, b[..n]);
      assert (a + b)[..|a + b| - 1] == a + b[..n];
    }
  }

  lemma ExpandSingle(line: string)
    ensures Expand([line]) == Lines(line + "\r\n")
    ensures OneLine(line) ==> Expand([line]) == [line]
  {
    assert [line][..0] == [];
    if OneLine(line) {
      LinesOfFirst(line, "");
      LinesOfNothing();
      assert line + "\r\n" + "" == line + "\r\n";
    }
  }

  lemma {:induction false} ExpandOneLines(lines: seq<string>)
    requires AllOneLine(lines)
    ensures Expand(lines) == lines
  {
    hide OneLine, Lines;
    if lines != [] {
      var n := |lines| - 1;
      ExpandOneLines(lines[..n]);
      ExpandSingle(lines[n]);
      ExpandAppend(lines[..n], [lines[n]]);
      assert lines == lines[..n] + [lines[n]];
    }
  }

  // ------------------------------------------------------------------------
  // Pieces
  // ------------------------------------------------------------------------

  /** `char::is_whitespace`: the White_Space property of Unicode. */
  predicate IsWhitespace(c: char) {
    var n := c as int;
    || n == 0x20 || 0x09 <= n <= 0x0D || n == 0x85 || n == 0xA0 || n == 0x1680 || 0x2000 <= n <= 0x200A
    || n == 0x2028 || n == 0x2029 || n == 0x202F || n == 0x205F || n == 0x3000
  }

  function TrimStart(s: string): string {
    if s != [] && IsWhitespace(s[0]) then TrimStart(s[1..]) else s
  }

  function TrimEnd(s: string): string {
    if s != [] && IsWhitespace(s[|s| - 1]) then TrimEnd(s[..|s| - 1]) else s
  }

  function Trim(s: string): string {
    TrimEnd(TrimStart(s))
  }

  /** Length of the longest whitespace-free prefix. */
  function WordLength(s: string): (n: nat)
    ensures n <= |s|
    ensures forall k :: 0 <= k < n ==> !IsWhitespace(s[k])
    ensures n < |s| ==> IsWhitespace(s[n])
  {
    if s == [] || IsWhitespace(s[0]) then 0 else 1 + WordLength(s[1..])
  }

  /** `split_whitespace`. */
  function Words(s: string): seq<string>
    decreases |s|
  {
    if s == [] then []
    else if IsWhitespace(s[0]) then Words(s[1..])
    else
      var n := WordLength(s);
      assert n > 0;
      [s[..n]] + Words(s[n..])
  }

  /** `splitn(n, ' ')`. */
  function SplitN(s: string, n: nat): (parts: seq<string>)
    requires n > 0
    ensures 0 < |parts| <= n
  {
    var i := IndexOf(s, ' ');
    if n == 1 || i == |s| then [s] else [s[..i]] + SplitN(s[i + 1..], n - 1)
  }

  lemma SplitOne(s: string)
    ensures SplitN(s, 1) == [s]
  {
  }

  lemma SplitStep(first: string, rest: string, n: nat)
    requires n > 1 && !Has(first, ' ')
    ensures SplitN(first + " " + rest, n) == [first] + SplitN(rest, n - 1)
  {
    var s := first + " " + rest;
    assert s[|first|] == ' ' && forall k :: 0 <= k < |first| ==> s[k] == first[k];
    IndexOfIs(s, ' ', |first|);
    assert s[..|first|] == first && s[|first| + 1..] == rest;
  }

  function Spaced(a: string, b: string, c: string, d: string): string {
    a + " " + b + " " + c + " " + d
  }

  lemma SplitFour(a: string, b: string, c: string, d: string)
    requires !Has(a, ' ') && !Has(b, ' ') && !Has(c, ' ')
    ensures SplitN(Spaced(a, b, c, d), 4) == [a, b, c, d]
  {
    hide SplitN, Has, Spaced;
    SplitOne(d);
    var two := c + " " + d;
    SplitStep(c, d, 2);
    var three := b + " " + two;
    SplitStep(b, two, 3);
    SplitStep(a, three, 4);
    SpacedFromRight(a, b, c, d);
    assert [c] + [d] == [c, d] && [b] + [c, d] == [b, c, d] && [a] + [b, c, d] == [a, b, c, d];
  }

  lemma SplitHead(s: string, n: nat) returns (first: string, rest: string)
    requires n > 1 && |SplitN(s, n)| > 1
    ensures s == first + " " + rest && !Has(first, ' ')
    ensures SplitN(s, n) == [first] + SplitN(rest, n - 1)
  {
    var i := IndexOf(s, ' ');
    first, rest := s[..i], s[i + 1..];
    assert s[i] == ' ';
  }

  lemma SpacedFromRight(a: string, b: string, c: string, d: string)
    ensures a + " " + (b + " " + (c + " " + d)) == Spaced(a, b, c, d)
  {
  }

  lemma OneLineSpaced(a: string, b: string, c: string, d: string)
    requires OneLine(a) && OneLine(b) && OneLine(c) && OneLine(d)
    ensures OneLine(Spaced(a, b, c, d))
  {
    assert forall i :: 0 <= i < |a| ==> a[i] != '\n';
  }

  lemma FourParts(line: string)
    requires |SplitN(line, 4)| == 4
    ensures var p := SplitN(line, 4);
            line == Spaced(p[0], p[1], p[2], p[3]) && !Has(p[0], ' ') && !Has(p[1], ' ') && !Has(p[2], ' ')
  {
    hide SplitN, Has, Spaced;
    var a, three := SplitHead(line, 4);
    var b, two := SplitHead(three, 3);
    var c, d := SplitHead(two, 2);
    SplitOne(d);
    assert SplitN(line, 4) == [a, b, c, d];
    SpacedFromRight(a, b, c, d);
  }

  function JoinWith(parts: seq<string>, separator: string): string {
    if parts == [] then ""
    else if |parts| == 1 then parts[0]
    else parts[0] + separator + JoinWith(parts[1..], separator)
  }

  lemma {:induction false} OneLineJoined(parts: seq<string>, separator: string)
    requires AllOneLine(parts) && OneLine(separator)
    ensures OneLine(JoinWith(parts, separator))
  {
    if |parts| > 1 {
      OneLineJoined(parts[1..], separator);
      OneLineAppend(parts[0], separator);
      OneLineAppend(parts[0] + separator, JoinWith(parts[1..], separator));
    }
  }

  predicate IsWord(w: string) {
    w != [] && forall k :: 0 <= k < |w| ==> !IsWhitespace(w[k])
  }

  predicate AllWords(ws: seq<string>) {
    forall i :: 0 <= i < |ws| ==> IsWord(ws[i])
  }

  lemma {:induction false} WordsAreWords(s: string)
    ensures AllWords(Words(s))
    decreases |s|
  {
    if s != [] {
      if IsWhitespace(s[0]) {
        WordsAreWords(s[1..]);
      } else {
        WordsAreWords(s[WordLength(s)..]);
      }
    }
  }

  lemma WordLengthIs(s: string, n: nat)
    requires n <= |s| && (forall k :: 0 <= k < n ==> !IsWhitespace(s[k])) && (n < |s| ==> IsWhitespace(s[n]))
    ensures WordLength(s) == n
  {
  }

  lemma WordsOfFirst(w: string, rest: string)
    requires IsWord(w)
    ensures Words(w) == [w] && Words(w + " " + rest) == [w] + Words(rest)
  {
    WordLengthIs(w, |w|);
    assert w[..|w|] == w && w[|w|..] == [];
    var s := w + " " + rest;
    assert s[|w|] == ' ' && forall k :: 0 <= k < |w| ==> s[k] == w[k];
    WordLengthIs(s, |w|);
    assert s[..|w|] == w && s[|w|..] == " " + rest;
    assert (" " + rest)[1..] == rest;
  }

  /** Words joined with blanks are read back by `split_whitespace`. */
  lemma {:induction false} WordsOfJoin(ws: seq<string>)
    requires AllWords(ws)
    ensures Words(JoinWith(ws, " ")) == ws
  {
    if ws != [] {
      WordsOfFirst(ws[0], JoinWith(ws[1..], " "));
      WordsOfJoin(ws[1..]);
      assert ws == [ws[0]] + ws[1..];
    }
  }

  function Digit(d: nat): char
    requires d < 10
  {
    "0123456789"[d]
  }

  function Decimal(n: nat): string {
    if n < 10 then [Digit(n)] else Decimal(n / 10) + [Digit(n % 10)]
  }

  lemma {:induction false} DecimalDigits(n: nat)
    ensures |Decimal(n)| > 0
    ensures forall i :: 0 <= i < |Decimal(n)| ==> '0' <= Decimal(n)[i] <= '9'
  {
    if n >= 10 {
      DecimalDigits(n / 10);
    }
  }

  /** The number that decimal digits write; other characters count by their distance from '0'. */
  function Number(s: string): int {
    if s == [] then 0 else 10 * Number(s[..|s| - 1]) + (s[|s| - 1] as int - '0' as int)
  }

  lemma {:induction false} DecimalBack(n: nat)
    ensures Number(Decimal(n)) == n
  {
    var last := [Digit(n % 10)];
    assert Digit(n % 10) as int == '0' as int + n % 10;
    if n >= 10 {
      DecimalBack(n / 10);
      assert (Decimal(n / 10) + last)[..|Decimal(n / 10)|] == Decimal(n / 10);
    } else {
      assert Decimal(n) == last && last[..0] == [];
      assert Number([]) == 0;
    }
  }

  // ------------------------------------------------------------------------
  // Search
  // ------------------------------------------------------------------------

  predicate OccursAt(s: string, p: string, i: nat) {
    i + |p| <= |s| && s[i..i + |p|] == p
  }

  predicate Contains(s: string, p: string) {
    exists i :: 0 <= i <= |s| && OccursAt(s, p, i)
  }

  /** `rfind`: the start of the last occurrence. */
  method RFind(s: string, p: string) returns (r: Option<nat>)
    ensures r.Some? ==> OccursAt(s, p, r.value) && forall i :: r.value < i <= |s| ==> !OccursAt(s, p, i)
    ensures r.None? ==> forall i :: 0 <= i <= |s| ==> !OccursAt(s, p, i)
  {
    var i: int := |s|;
    while i >= 0
      invariant -1 <= i <= |s|
      invariant forall k :: i < k <= |s| ==> !OccursAt(s, p, k)
    {
      if i + |p| <= |s| && s[i..i + |p|] == p {
        return Some(i);
      }
      i := i - 1;
    }
    return None;
  }

  /** The start of the last occurrence at or before `i`. */
  function LastFrom(s: string, p: string, i: nat): Option<nat> {
    if OccursAt(s, p, i) then Some(i) else if i == 0 then None else LastFrom(s, p, i - 1)
  }

  function Last(s: string, p: string): Option<nat> {
    LastFrom(s, p, |s|)
  }

  lemma {:induction false} LastFromIs(s: string, p: string, i: nat, r: Option<nat>)
    requires r.Some? ==> r.value <= i && OccursAt(s, p, r.value) && forall k :: r.value < k <= i ==> !OccursAt(s, p, k)
    requires r.None? ==> forall k :: 0 <= k <= i ==> !OccursAt(s, p, k)
    ensures LastFrom(s, p, i) == r
  {
    if !OccursAt(s, p, i) && i > 0 {
      LastFromIs(s, p, i - 1, r);
    }
  }

  /** `rfind` followed by `replace_range`. */
  function ReplaceLast(s: string, p: string, q: string): string {
    match Last(s, p)
    case None => s
    case Some(i) => if i + |p| <= |s| then s[..i] + q + s[i + |p|..] else s
  }
}
