/** Scanning a session description for its media sources (`a=ssrc:` lines, section 4.1 of RFC 5576). */
module Ssrc {
  import opened Text

  const PREFIX := "a=ssrc:"

  // ----- Trimming and searching -----

  /** Unicode white space, as Go's TrimSpace knows it. */
  predicate IsSpace(c: char) {
    c in "\t\n\U{0b}\U{0c}\r \U{85}\U{a0}\U{1680}\U{2028}\U{2029}\U{202f}\U{205f}\U{3000}" || '\U{2000}' <= c <= '\U{200a}'
  }

  function TrimLeft(s: string): string {
    if s != "" && IsSpace(s[0]) then TrimLeft(s[1..]) else s
  }

  function TrimRight(s: string): (t: string)
    ensures t <= s
  {
    if s != "" && IsSpace(s[|s| - 1]) then TrimRight(s[..|s| - 1]) else s
  }

  function TrimSpace(s: string): string {
    TrimRight(TrimLeft(s))
  }

  predicate OccursAt(s: string, sub: string, i: nat) {
    i + |sub| <= |s| && s[i..i + |sub|] == sub
  }

  predicate Contains(s: string, sub: string) {
    exists i | 0 <= i <= |s| :: OccursAt(s, sub, i)
  }

  lemma {:induction false} TrimRightStopsAt(head: string, tail: string)
    requires head != "" && !IsSpace(head[|head| - 1])
    ensures head <= TrimRight(head + tail) <= head + tail
  {
    if tail == "" {
      assert head + tail == head;
    } else {
      TrimRightStopsAt(head, tail[..|tail| - 1]);
      assert (head + tail)[..|head + tail| - 1] == head + tail[..|tail| - 1];
    }
  }

  // ----- One line -----

  /** The text before the first separator, and whether there is one. */
  lemma {:induction false} SplitHead(s: string, sep: char)
    ensures Split(s, sep)[0] <= s && sep !in Split(s, sep)[0]
    ensures |Split(s, sep)| >= 2 <==> sep in s
  {
    if s == "" {
    } else {
      SplitHead(s[1..], sep);
      assert s == [s[0]] + s[1..];
    }
  }

  lemma {:induction false} SplitKeepsPrefix(prefix: string, rest: string, sep: char)
    requires sep !in prefix
    ensures prefix <= Split(prefix + rest, sep)[0]
  {
    if prefix == "" {
    } else {
      SplitKeepsPrefix(prefix[1..], rest, sep);
      assert (prefix + rest)[1..] == prefix[1..] + rest;
      assert prefix == [prefix[0]] + prefix[1..];
    }
  }

  /** The first token of a line with the prefix keeps the prefix, so it always has a second piece: the index is in range. */
  lemma TokenHasTwoPieces(line: string)
    requires HasPrefix(line, PREFIX)
    ensures |Split(Split(line, ' ')[0], ':')| >= 2
  {
    var rest := line[|PREFIX|..];
    SplitKeepsPrefix(PREFIX, rest, ' ');
    SplitHead(Split(line, ' ')[0], ':');
    assert line == PREFIX + rest;
    assert PREFIX[6] == ':';
    assert Split(line, ' ')[0][6] == ':';
  }

  /** The source a line announces, if it is such a line, does not mention rtx, and its number parses. */
  function LineSsrc(line: string): Option<nat> {
    var trimmed := TrimSpace(line);
    if HasPrefix(trimmed, PREFIX) && !Contains(trimmed, "rtx") then
      TokenHasTwoPieces(trimmed);
      ParseUint32(Split(Split(trimmed, ' ')[0], ':')[1])
    else None
  }

  function Numbers(lines: seq<string>): seq<nat> {
    if lines == [] then []
    else
      var n := LineSsrc(lines[|lines| - 1]);
      Numbers(lines[..|lines| - 1]) + (if n.Some? then [n.value] else [])
  }

  function Sources(sdp: string): set<nat> {
    var numbers := Numbers(Split(sdp, '\n'));
    set n | n in numbers
  }

  // ----- Which lines announce a source -----

  /** The white space of the Unicode standard, by code point. */
  lemma SpaceIsWhite(c: char)
    ensures IsSpace(c) <==>
      var n := c as int;
      || 9 <= n <= 13 || n == 32 || n == 0x85 || n == 0xa0 || n == 0x1680 || 0x2000 <= n <= 0x200a
      || n == 0x2028 || n == 0x2029 || n == 0x202f || n == 0x205f || n == 0x3000
  {
  }

  lemma ContainsIff(s: string, sub: string)
    ensures Contains(s, sub) <==> exists a, b :: s == a + sub + b
  {
    if i :| 0 <= i <= |s| && OccursAt(s, sub, i) {
      assert s == s[..i] + sub + s[i + |sub|..];
    }
    if a, b :| s == a + sub + b {
      assert OccursAt(s, sub, |a|);
    }
  }

  predicate AllSpace(s: string) {
    forall i | 0 <= i < |s| :: IsSpace(s[i])
  }

  predicate NoSpaceAtEnds(s: string) {
    s != "" ==> !IsSpace(s[0]) && !IsSpace(s[|s| - 1])
  }

  lemma {:induction false} TrimLeftIs(lead: string, rest: string)
    requires AllSpace(lead) && (rest != "" ==> !IsSpace(rest[0]))
    ensures TrimLeft(lead + rest) == rest
  {
    if lead == "" {
      assert lead + rest == rest;
    } else {
      TrimLeftIs(lead[1..], rest);
      assert (lead + rest)[1..] == lead[1..] + rest;
    }
  }

  lemma {:induction false} TrimRightIs(rest: string, trail: string)
    requires AllSpace(trail) && (rest != "" ==> !IsSpace(rest[|rest| - 1]))
    ensures TrimRight(rest + trail) == rest
  {
    if trail == "" {
      assert rest + trail == rest;
    } else {
      TrimRightIs(rest, trail[..|trail| - 1]);
      assert (rest + trail)[..|rest + trail| - 1] == rest + trail[..|trail| - 1];
    }
  }

  lemma {:induction false} TrimLeftSplits(s: string) returns (lead: string)
    ensures AllSpace(lead) && s == lead + TrimLeft(s) && (TrimLeft(s) != "" ==> !IsSpace(TrimLeft(s)[0]))
  {
    if s != "" && IsSpace(s[0]) {
      var more := TrimLeftSplits(s[1..]);
      lead := [s[0]] + more;
      assert s == [s[0]] + s[1..];
    } else {
      lead := "";
    }
  }

  lemma {:induction false} TrimRightSplits(s: string) returns (trail: string)
    ensures AllSpace(trail) && s == TrimRight(s) + trail && (TrimRight(s) != "" ==> !IsSpace(TrimRight(s)[|TrimRight(s)| - 1]))
  {
    if s != "" && IsSpace(s[|s| - 1]) {
      var more := TrimRightSplits(s[..|s| - 1]);
      trail := more + [s[|s| - 1]];
      assert s == s[..|s| - 1] + [s[|s| - 1]];
    } else {
      trail := "";
    }
  }

  /** White space, a text that neither begins nor ends with any, white space. */
  predicate TrimsTo(line: string, lead: string, text: string, trail: string) {
    line == lead + text + trail && AllSpace(lead) && AllSpace(trail) && NoSpaceAtEnds(text)
  }

  lemma TrimmedBlank(lead: string, trail: string)
    requires AllSpace(lead) && AllSpace(trail)
    ensures TrimSpace(lead + trail) == ""
  {
    TrimLeftIs(lead + trail, "");
    assert lead + trail + "" == lead + trail;
  }

  lemma TrimmedNonBlank(lead: string, text: string, trail: string)
    requires AllSpace(lead) && AllSpace(trail) && text != "" && NoSpaceAtEnds(text)
    ensures TrimSpace(lead + (text + trail)) == text
  {
    var rest := text + trail;
    assert rest[0] == text[0];
    TrimLeftIs(lead, rest);
    TrimRightIs(text, trail);
  }

  lemma TrimmedText(line: string, lead: string, text: string, trail: string)
    requires TrimsTo(line, lead, text, trail)
    ensures TrimSpace(line) == text
  {
    assert line == lead + (text + trail);
    if text == "" {
      TrimmedBlank(lead, trail);
      assert text + trail == trail;
    } else {
      TrimmedNonBlank(lead, text, trail);
    }
  }

  lemma TrimSpaceTrims(line: string) returns (lead: string, trail: string)
    ensures TrimsTo(line, lead, TrimSpace(line), trail)
  {
    var text := TrimSpace(line);
    lead := TrimLeftSplits(line);
    trail := TrimRightSplits(TrimLeft(line));
    if text != "" { assert text[0] == TrimLeft(line)[0]; }
    assert lead + (text + trail) == lead + text + trail;
  }

  /** What trimming leaves is the text between the white space, however the line is read so. */
  lemma TrimSpaceIff(line: string, text: string)
    ensures TrimSpace(line) == text <==> exists lead, trail :: TrimsTo(line, lead, text, trail)
  {
    var first, last := TrimSpaceTrims(line);
    if lead, trail :| TrimsTo(line, lead, text, trail) { TrimmedText(line, lead, text, trail); }
  }

  /** The trimmed line: the prefix, a number, and nothing more or something that a space or a colon separates from it. */
  predicate Announces(text: string, number: string, rest: string) {
    && text == "a=ssrc:" + number + rest && ' ' !in number && ':' !in number
    && (rest != "" ==> rest[0] == ' ' || rest[0] == ':')
  }

  lemma {:induction false} HeadOfSplit(a: string, b: string, sep: char)
    requires sep !in a
    ensures Split(a + b, sep)[0] == a + Split(b, sep)[0]
  {
    if a == "" {
      assert a + b == b;
    } else {
      HeadOfSplit(a[1..], b, sep);
      assert (a + b)[1..] == a[1..] + b && (a + b)[0] == a[0];
      assert a == [a[0]] + a[1..];
    }
  }

  lemma {:induction false} AfterHead(s: string, sep: char) returns (rest: string)
    ensures s == Split(s, sep)[0] + rest && sep !in Split(s, sep)[0] && (rest != "" ==> rest[0] == sep)
  {
    if s == "" {
      rest := "";
    } else if s[0] == sep {
      rest := s;
    } else {
      rest := AfterHead(s[1..], sep);
      assert s == [s[0]] + s[1..];
    }
  }

  /** The piece of the first token that is read as the number. */
  function NumberOf(text: string): string
    requires HasPrefix(text, PREFIX)
  {
    TokenHasTwoPieces(text);
    Split(Split(text, ' ')[0], ':')[1]
  }

  lemma NumberOfIs(after: string)
    ensures HasPrefix(PREFIX + after, PREFIX) && NumberOf(PREFIX + after) == Split(Split(after, ' ')[0], ':')[0]
  {
    HeadOfSplit(PREFIX, after, ' ');
    var token := Split(after, ' ')[0];
    SplitFirst("a=ssrc", ':', token);
    assert PREFIX + token == "a=ssrc" + [':'] + token;
  }

  lemma AnnouncedNumber(text: string, number: string, rest: string)
    requires Announces(text, number, rest)
    ensures HasPrefix(text, PREFIX) && NumberOf(text) == number
  {
    assert text == PREFIX + (number + rest);
    NumberOfIs(number + rest);
    HeadOfSplit(number, rest, ' ');
    HeadOfSplit(number, Split(rest, ' ')[0], ':');
  }

  lemma TokenAndTail(after: string) returns (more: string, tail: string)
    ensures var number := Split(Split(after, ' ')[0], ':')[0];
      && after == number + more + tail && ' ' !in number && ':' !in number
      && (more != "" ==> more[0] == ':') && (tail != "" ==> tail[0] == ' ')
  {
    var token := Split(after, ' ')[0];
    tail := AfterHead(after, ' ');
    more := AfterHead(token, ':');
  }

  lemma AnnouncedBy(number: string, more: string, tail: string)
    requires ' ' !in number && ':' !in number && (more != "" ==> more[0] == ':') && (tail != "" ==> tail[0] == ' ')
    ensures Announces(PREFIX + (number + more + tail), number, more + tail)
  {
    assert PREFIX + (number + more + tail) == PREFIX + number + (more + tail);
  }

  lemma NumberIsAnnounced(text: string) returns (rest: string)
    requires HasPrefix(text, PREFIX)
    ensures Announces(text, NumberOf(text), rest)
  {
    var after := text[|PREFIX|..];
    var more, tail := TokenAndTail(after);
    rest := more + tail;
    assert text == PREFIX + after;
    NumberOfIs(after);
    AnnouncedBy(NumberOf(text), more, tail);
  }

  /** What a line announces: a number after the prefix, if the line, without white space at its ends, does not mention rtx. */
  predicate Reads(line: string, lead: string, text: string, trail: string, number: string, rest: string) {
    TrimsTo(line, lead, text, trail) && Announces(text, number, rest) && !Contains(text, "rtx")
  }

  /** Exactly the lines that announce source `n`. */
  lemma LineSsrcIff(line: string, n: nat)
    ensures LineSsrc(line) == Some(n) <==>
      exists lead, text, trail, number, rest :: Reads(line, lead, text, trail, number, rest) && ParseUint32(number) == Some(n)
  {
    if LineSsrc(line) == Some(n) {
      var lead, trail := TrimSpaceTrims(line);
      var rest := NumberIsAnnounced(TrimSpace(line));
      assert Reads(line, lead, TrimSpace(line), trail, NumberOf(TrimSpace(line)), rest);
    }
    if lead, text, trail, number, rest :| Reads(line, lead, text, trail, number, rest) && ParseUint32(number) == Some(n) {
      TrimmedText(line, lead, text, trail);
      AnnouncedNumber(text, number, rest);
    }
  }

  /** The sources of a text are those that its lines announce. */
  lemma {:induction false} NumbersIff(lines: seq<string>, n: nat)
    ensures n in Numbers(lines) <==> exists line | line in lines :: LineSsrc(line) == Some(n)
  {
    if lines == [] {
    } else {
      var init, last := lines[..|lines| - 1], lines[|lines| - 1];
      NumbersIff(init, n);
      assert lines == init + [last];
      assert forall line :: line in lines <==> line in init || line == last;
    }
  }

  // ----- The scan -----

  /** The first loop: the numbers of the source lines, in order. */
  method CollectNumbers(lines: seq<string>) returns (ssrcs: seq<nat>)
    ensures ssrcs == Numbers(lines)
  {
    ssrcs := [];
    for i := 0 to |lines|
      invariant ssrcs == Numbers(lines[..i])
    {
      assert lines[..i + 1][..i] == lines[..i];
      var line := TrimSpace(lines[i]);
      if HasPrefix(line, PREFIX) && !Contains(line, "rtx") {
        var parts := Split(line, ' ');
        TokenHasTwoPieces(line);
        var ssrc := ParseUint32(Split(parts[0], ':')[1]);
        if ssrc.Some? {
          ssrcs := ssrcs + [ssrc.value];
        }
      }
    }
    assert lines[..|lines|] == lines;
  }

  /** The other loops: the numbers without repetition, in the order in which the map of them happens to be iterated. */
  method Unique(ssrcs: seq<nat>) returns (ssrcList: seq<nat>)
    ensures forall n :: n in ssrcList <==> n in ssrcs
    ensures forall i, j | 0 <= i < j < |ssrcList| :: ssrcList[i] != ssrcList[j]
    ensures |ssrcList| == |set n | n in ssrcs|
  {
    var unique: map<nat, bool> := map[];
    for i := 0 to |ssrcs|
      invariant forall n :: n in unique <==> n in ssrcs[..i]
    {
      unique := unique[ssrcs[i] := true];
    }
    assert ssrcs[..|ssrcs|] == ssrcs;
    assert unique.Keys == set n | n in ssrcs;

    ssrcList := [];
    var remaining := unique.Keys;
    while remaining != {}
      invariant remaining <= unique.Keys && (forall n :: n in ssrcList <==> n in unique && n !in remaining)
      invariant |ssrcList| + |remaining| == |unique.Keys|
      invariant forall i, j | 0 <= i < j < |ssrcList| :: ssrcList[i] != ssrcList[j]
    {
      var ssrc :| ssrc in remaining;
      ssrcList := ssrcList + [ssrc];
      remaining := remaining - {ssrc};
    }
  }

  /**
   For every text and every order in which the map of unique sources is iterated: two different sources if there are
   two, the only one and 0 if there is one, and 0 twice if there is none.
   */
  method ExtractSSRCFromSDP(sdp: string) returns (primarySSRC: nat, rtxSSRC: nat)
    ensures var all := Sources(sdp);
      && (all == {} ==> primarySSRC == 0 && rtxSSRC == 0)
      && (all != {} ==> primarySSRC in all)
      && (|all| == 1 ==> rtxSSRC == 0)
      && (|all| >= 2 ==> rtxSSRC in all && rtxSSRC != primarySSRC)
  {
    primarySSRC, rtxSSRC := 0, 0;
    var ssrcs := CollectNumbers(Split(sdp, '\n'));
    var ssrcList := Unique(ssrcs);
    assert Sources(sdp) == set n | n in ssrcs;
    if |ssrcList| >= 1 {
      primarySSRC := ssrcList[0];
    }
    if |ssrcList| >= 2 {
      rtxSSRC := ssrcList[1];
    }
  }

  // ----- The printer and the round trip -----

  /** A line of a description: a source with an attribute, or anything the scan passes over. */
  datatype SdpLine = Source(ssrc: nat, attribute: string) | Other(text: string)

  predicate Printable(line: SdpLine) {
    match line
    case Source(ssrc, attribute) => ssrc < 0x1_0000_0000 && '\n' !in attribute && !Contains(attribute, "rtx")
    case Other(text) => '\n' !in text && (HasPrefix(TrimSpace(text), PREFIX) ==> Contains(TrimSpace(text), "rtx"))
  }

  function PrintLine(line: SdpLine): string {
    match line
    case Source(ssrc, attribute) => PREFIX + Decimal(ssrc) + " " + attribute
    case Other(text) => text
  }

  function PrintLines(lines: seq<SdpLine>): seq<string> {
    seq(|lines|, i requires 0 <= i < |lines| => PrintLine(lines[i]))
  }

  function SourcesOf(lines: seq<SdpLine>): seq<nat> {
    if lines == [] then []
    else SourcesOf(lines[..|lines| - 1])
         + (if lines[|lines| - 1].Source? then [lines[|lines| - 1].ssrc] else [])
  }

  lemma NoRtxInHead(ssrc: nat, attribute: string)
    requires !Contains(attribute, "rtx")
    ensures !Contains(PREFIX + Decimal(ssrc) + " " + attribute, "rtx")
  {
    DecimalRoundTrip(ssrc);
    var line, head := PREFIX + Decimal(ssrc) + " " + attribute, |PREFIX| + |Decimal(ssrc)| + 1;
    assert line[head..] == attribute;
    assert PREFIX[5] == 'c' && forall i | 0 <= i < |PREFIX| && i != 4 :: PREFIX[i] != 'r';
    forall i | 0 <= i < head ensures line[i] != 'r' || (i + 1 < |line| && line[i + 1] != 't') {
      if i < |PREFIX| {
        assert line[i] == PREFIX[i];
        if i == 4 { assert line[5] == PREFIX[5]; }
      } else if i < head - 1 {
        assert line[i] == Decimal(ssrc)[i - |PREFIX|];
      }
    }
    forall i | 0 <= i <= |line| ensures !OccursAt(line, "rtx", i) {
      if i + 3 <= |line| {
        if i < head {
          assert line[i..i + 3][0] == line[i] && line[i..i + 3][1] == line[i + 1];
        } else {
          assert line[i..i + 3] == attribute[i - head..i - head + 3];
          assert !OccursAt(attribute, "rtx", i - head);
        }
      }
    }
  }

  lemma ContainsInPrefix(s: string, t: string, sub: string)
    requires t <= s && Contains(t, sub)
    ensures Contains(s, sub)
  {
    var i :| 0 <= i <= |t| && OccursAt(t, sub, i);
    assert OccursAt(s, sub, i);
  }

  lemma HeadOfLine(ssrc: nat)
    ensures var head := PREFIX + Decimal(ssrc);
      head != "" && head[0] == 'a' && !IsSpace(head[0]) && !IsSpace(head[|head| - 1])
  {
    DecimalRoundTrip(ssrc);
    var head := PREFIX + Decimal(ssrc);
    assert head[0] == PREFIX[0];
    assert head[|head| - 1] == Decimal(ssrc)[|Decimal(ssrc)| - 1];
    assert IsDigit(head[|head| - 1]);
  }

  lemma TrimmedTail(head: string, rest: string, trimmed: string) returns (tail: string)
    requires head <= trimmed <= head + rest
    ensures trimmed == head + tail && tail <= rest
  {
    tail := trimmed[|head|..];
    assert trimmed == (head + rest)[..|trimmed|];
    assert tail == rest[..|tail|];
  }

  /** The trimmed line: the head always survives, and what follows it, if anything, starts with the space. */
  lemma TrimmedLine(ssrc: nat, attribute: string) returns (tail: string)
    ensures TrimSpace(PREFIX + Decimal(ssrc) + " " + attribute) == PREFIX + Decimal(ssrc) + tail
    ensures tail <= " " + attribute
  {
    HeadOfLine(ssrc);
    var head, rest := PREFIX + Decimal(ssrc), " " + attribute;
    assert PREFIX + Decimal(ssrc) + " " + attribute == head + rest;
    TrimRightStopsAt(head, rest);
    tail := TrimmedTail(head, rest, TrimRight(head + rest));
  }

  lemma FirstToken(head: string, tail: string)
    requires ' ' !in head && (tail != "" ==> tail[0] == ' ')
    ensures Split(head + tail, ' ')[0] == head
  {
    SplitFirst(head, ' ', if tail == "" then "" else tail[1..]);
    assert head + tail == if tail == "" then head else head + [' '] + tail[1..];
  }

  lemma NotInDecimal(n: nat, c: char)
    requires !IsDigit(c)
    ensures c !in Decimal(n)
  {
    DecimalRoundTrip(n);
  }

  lemma NoSpaceInHead(ssrc: nat)
    ensures ' ' !in PREFIX + Decimal(ssrc)
  {
    NotInDecimal(ssrc, ' ');
  }

  lemma SecondPiece(ssrc: nat)
    ensures Split(PREFIX + Decimal(ssrc), ':') == ["a=ssrc", Decimal(ssrc)]
  {
    NotInDecimal(ssrc, ':');
    SplitPair("a=ssrc", ':', Decimal(ssrc));
    assert PREFIX == "a=ssrc" + [':'];
  }

  lemma TrimmedIsPrefix(ssrc: nat, attribute: string, tail: string)
    requires !Contains(attribute, "rtx") && tail <= " " + attribute
    ensures !Contains(PREFIX + Decimal(ssrc) + tail, "rtx")
  {
    var line, trimmed := PREFIX + Decimal(ssrc) + " " + attribute, PREFIX + Decimal(ssrc) + tail;
    NoRtxInHead(ssrc, attribute);
    assert line == PREFIX + Decimal(ssrc) + (" " + attribute);
    assert trimmed <= line;
    if Contains(trimmed, "rtx") { ContainsInPrefix(line, trimmed, "rtx"); }
  }

  lemma NoNewline(ssrc: nat, attribute: string)
    requires '\n' !in attribute
    ensures '\n' !in PREFIX + Decimal(ssrc) + " " + attribute
  {
    DecimalRoundTrip(ssrc);
    assert forall c | c in Decimal(ssrc) :: IsDigit(c);
  }

  lemma PrintedLineScans(line: SdpLine)
    requires Printable(line)
    ensures LineSsrc(PrintLine(line)) == if line.Source? then Some(line.ssrc) else None
    ensures '\n' !in PrintLine(line)
  {
    if line.Source? {
      var n, attribute := line.ssrc, line.attribute;
      var tail := TrimmedLine(n, attribute);
      var trimmed := PREFIX + Decimal(n) + tail;
      TrimmedIsPrefix(n, attribute, tail);
      NoSpaceInHead(n);
      SecondPiece(n);
      FirstToken(PREFIX + Decimal(n), tail);
      DecimalRoundTrip(n);
      NoNewline(n, attribute);
    }
  }

  lemma {:induction false} NumbersOfPrinted(lines: seq<SdpLine>)
    requires forall line | line in lines :: Printable(line)
    ensures Numbers(PrintLines(lines)) == SourcesOf(lines)
  {
    if lines == [] {
    } else {
      var init := lines[..|lines| - 1];
      NumbersOfPrinted(init);
      PrintedLineScans(lines[|lines| - 1]);
      assert PrintLines(lines)[..|lines| - 1] == PrintLines(init);
    }
  }

  /** Scanning a printed description finds its sources, in order and with repetitions, and none of its other lines. */
  lemma SsrcRoundTrip(lines: seq<SdpLine>)
    requires forall line | line in lines :: Printable(line)
    ensures Numbers(Split(Join(PrintLines(lines), '\n'), '\n')) == SourcesOf(lines)
    ensures Sources(Join(PrintLines(lines), '\n')) == set n | n in SourcesOf(lines)
  {
    if lines == [] {
      assert Split("", '\n') == [""];
      assert Numbers([""]) == Numbers([""][..0]) + [];
    } else {
      forall text | text in PrintLines(lines) ensures '\n' !in text {
        var i :| 0 <= i < |lines| && PrintLine(lines[i]) == text;
        PrintedLineScans(lines[i]);
      }
      SplitJoin(PrintLines(lines), '\n');
      NumbersOfPrinted(lines);
    }
  }
}
