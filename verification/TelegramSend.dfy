/** Sending to Telegram: long messages are cut into chunks by their UTF-16 length. */
module TelegramSend {
  import opened Text
  import opened Utf16

  // ---------------------------------------------------------------- chunking

  /** The characters that are not whitespace, in order. */
  function Ink(s: string): string {
    if s == [] then [] else (if IsSpace(s[0]) then [] else [s[0]]) + Ink(s[1..])
  }

  /** Every character that is not whitespace is within the limit on its own. */
  predicate Fits(s: string, limit: nat) {
    forall c :: c in Ink(s) ==> Width(c) <= limit
  }

  ghost predicate Within(chunks: seq<string>, limit: nat) {
    forall i :: 0 <= i < |chunks| ==> Utf16Len(chunks[i]) <= limit
  }

  ghost predicate NoneEmpty(chunks: seq<string>) {
    forall i :: 0 <= i < |chunks| ==> chunks[i] != []
  }

  lemma {:induction false} InkAppend(a: string, b: string)
    ensures Ink(a + b) == Ink(a) + Ink(b)
  {
    if a == [] {
      assert a + b == b;
    } else {
      assert (a + b)[1..] == a[1..] + b;
      InkAppend(a[1..], b);
    }
  }

  lemma {:induction false} InkBlank(s: string)
    ensures Ink(s) == [] <==> Blank(s)
  {
    if s != [] {
      InkBlank(s[1..]);
    }
  }

  /** What trimming removes is whitespace at the end. */
  lemma TrimEndGap(s: string)
    ensures TrimEnd(s) <= s && Blank(s[|TrimEnd(s)|..]) && Utf16Len(TrimEnd(s)) <= Utf16Len(s)
  {
    var j := TrimEndExactly(s);
    assert s == s[..j] + s[j..];
    EncodeAppend(s[..j], s[j..]);
  }

  /** A line, its end and the rest. */
  lemma InkLine(line: string, eol: string, rest: string)
    requires eol == "\n" || eol == "\r\n"
    ensures Ink(line + eol + rest) == Ink(line) + Ink(rest)
  {
    InkAppend(line + eol, rest);
    InkAppend(line, eol);
    InkEol(eol);
  }

  lemma InkEol(eol: string)
    requires eol == "\n" || eol == "\r\n"
    ensures Ink(eol) == []
  {
    assert eol == "\r\n" ==> eol[1..] == "\n";
    assert Ink("\n") == [];
  }

  /** Splitting into lines loses only line ends. */
  lemma {:induction false} InkLines(s: string)
    ensures Ink(Unlines(Lines(s))) == Ink(s)
    decreases |s|
  {
    if s != [] {
      var i := LineFeed(s);
      if i == |s| {
        InkLine(s, "\n", "");
        assert Unlines(Lines(s)) == s + "\n" + "";
      } else {
        var line := StripCr(s[..i]);
        var eol, rest := s[|line|..i + 1], s[i + 1..];
        LineAndEnd(s, i, line, eol, rest);
        InkLines(rest);
        InkLine(line, eol, rest);
        InkLine(line, "\n", Unlines(Lines(rest)));
        LinesStep(s, i);
        assert ([line] + Lines(rest))[1..] == Lines(rest);
      }
    }
  }

  // ---------------------------------------------------------------- chunks and the gaps between them

  /** How a text is divided: whitespace in front, then each chunk with the whitespace after it. */
  datatype Layout = Layout(lead: string, spans: seq<string>) {
    function Text(): string {
      lead + Concat(spans)
    }

    /** These chunks, in order, with nothing but whitespace before, between and after them. */
    ghost predicate Holds(chunks: seq<string>, limit: nat) {
      && |spans| == |chunks| && Blank(lead) && Terminated(lead)
      && forall i :: 0 <= i < |chunks| ==> SpanOf(spans[i], chunks[i], limit)
    }

    /** No two neighbours could have been sent together: with the whitespace after each they come within one character
        of the limit. */
    ghost predicate Packed(limit: nat) {
      forall i, j :: 0 <= i && j == i + 1 < |spans| ==> Utf16Len(spans[i]) + Utf16Len(spans[j]) + 2 > limit
    }

    /** What is collected now does not fit behind the last chunk. */
    predicate Tight(current: string, limit: nat) {
      spans == [] || Utf16Len(spans[|spans| - 1]) + Utf16Len(current) > limit
    }
  }

  /** A chunk and the whitespace lost after it, which ends with a line: the next line keeps its indentation. The chunk
      ends in ink, or it was cut inside a line, at the limit. */
  predicate SpanOf(span: string, chunk: string, limit: nat) {
    && chunk <= span && Blank(span[|chunk|..])
    && (span == chunk || Terminated(span))
    && (Utf16Len(chunk) + 2 > limit || (span != chunk && chunk != [] && !IsSpace(chunk[|chunk| - 1])))
  }

  /** The chunks spell the text, packed up to the limit. */
  ghost predicate Spells(s: string, chunks: seq<string>, limit: nat) {
    exists layout: Layout :: layout.Text() == s && layout.Holds(chunks, limit) && layout.Packed(limit)
  }

  function Pushed(l: Layout, span: string): Layout {
    l.(spans := l.spans + [span])
  }

  lemma PushedText(l: Layout, span: string)
    ensures Pushed(l, span).Text() == l.Text() + span
  {
    ConcatAppend(l.spans, [span]);
    assert Concat([span]) == span;
    Reassociate(l.lead, Concat(l.spans), span);
  }

  lemma PushedHolds(l: Layout, chunks: seq<string>, chunk: string, span: string, limit: nat)
    requires l.Holds(chunks, limit) && SpanOf(span, chunk, limit) && l.Packed(limit)
    requires l.spans == [] || Utf16Len(l.spans[|l.spans| - 1]) + Utf16Len(span) + 2 > limit
    ensures Pushed(l, span).Holds(chunks + [chunk], limit) && Pushed(l, span).Packed(limit)
  {
  }

  lemma WidenedText(l: Layout, gap: string, n: nat)
    requires n + 1 == |l.spans|
    ensures Layout(l.lead, l.spans[n := l.spans[n] + gap]).Text() == l.Text() + gap
  {
    var front, last := l.spans[..n], l.spans[n];
    assert l.spans == front + [last] && l.spans[n := last + gap] == front + [last + gap];
    ConcatLast(front, last);
    ConcatLast(front, last + gap);
    Reassociate(Concat(front), last, gap);
    Reassociate(l.lead, Concat(front) + last, gap);
  }

  lemma ConcatLast(front: seq<string>, last: string)
    ensures Concat(front + [last]) == Concat(front) + last
  {
    ConcatAppend(front, [last]);
    assert Concat([last]) == last;
  }

  lemma SpanWider(span: string, chunk: string, gap: string, limit: nat)
    requires SpanOf(span, chunk, limit) && Blank(gap) && Terminated(gap)
    ensures SpanOf(span + gap, chunk, limit) && Utf16Len(span + gap) == Utf16Len(span) + Utf16Len(gap)
  {
    assert (span + gap)[|chunk|..] == span[|chunk|..] + gap;
    BlankAppend(span[|chunk|..], gap);
    EncodeAppend(span, gap);
    if gap == [] {
      assert span + gap == span;
    }
  }

  lemma WidenedLead(l: Layout, chunks: seq<string>, gap: string, limit: nat)
    requires l.spans == [] && l.Holds(chunks, limit) && Blank(gap) && Terminated(gap)
    ensures Layout(l.lead + gap, []).Holds(chunks, limit)
  {
    LeadWider(l.lead, gap);
  }

  lemma WidenedLast(l: Layout, chunks: seq<string>, gap: string, limit: nat, n: nat, span: string)
    requires n + 1 == |l.spans| && span == l.spans[n] + gap
    requires l.Holds(chunks, limit) && Blank(gap) && Terminated(gap) && l.Packed(limit)
    ensures var wider := Layout(l.lead, l.spans[n := span]); wider.Holds(chunks, limit) && wider.Packed(limit)
    ensures Utf16Len(span) == Utf16Len(l.spans[n]) + Utf16Len(gap)
  {
    SpanWider(l.spans[n], chunks[n], gap, limit);
    LastWider(l, chunks, span, limit);
  }

  lemma LeadWider(lead: string, gap: string)
    requires Blank(lead) && Terminated(lead) && Blank(gap) && Terminated(gap)
    ensures Blank(lead + gap) && Terminated(lead + gap)
  {
    BlankAppend(lead, gap);
    assert gap == [] ==> lead + gap == lead;
  }

  lemma LastWider(l: Layout, chunks: seq<string>, span: string, limit: nat)
    requires l.Holds(chunks, limit) && l.Packed(limit) && l.spans != []
    requires SpanOf(span, chunks[|chunks| - 1], limit) && Utf16Len(span) >= Utf16Len(l.spans[|l.spans| - 1])
    ensures var wider := Layout(l.lead, l.spans[|l.spans| - 1 := span]);
            wider.Holds(chunks, limit) && wider.Packed(limit)
  {
  }

  lemma {:induction false} SpansInk(spans: seq<string>, chunks: seq<string>, limit: nat)
    requires |spans| == |chunks| && forall i :: 0 <= i < |chunks| ==> SpanOf(spans[i], chunks[i], limit)
    ensures Ink(Concat(spans)) == Ink(Concat(chunks))
    decreases |spans|
  {
    if spans != [] {
      SpansInk(spans[1..], chunks[1..], limit);
      assert spans[0] == chunks[0] + spans[0][|chunks[0]|..];
      InkAppend(chunks[0], spans[0][|chunks[0]|..]);
      InkBlank(spans[0][|chunks[0]|..]);
      InkAppend(spans[0], Concat(spans[1..]));
      InkAppend(chunks[0], Concat(chunks[1..]));
    }
  }

  lemma SpellsInk(l: Layout, chunks: seq<string>, limit: nat)
    requires l.Holds(chunks, limit)
    ensures Ink(Concat(chunks)) == Ink(l.Text())
  {
    SpansInk(l.spans, chunks, limit);
    InkAppend(l.lead, Concat(l.spans));
    InkBlank(l.lead);
  }

  // ---------------------------------------------------------------- as written

  /** The flush of a chunk: trailing whitespace goes, and nothing is sent if nothing is left. */
  method Flush(chunks0: seq<string>, current: string, limit: nat, ghost l0: Layout)
    returns (chunks: seq<string>, ghost l: Layout)
    requires l0.Holds(chunks0, limit) && l0.Packed(limit) && l0.Tight(current, limit) && Terminated(current)
    ensures l.Text() == l0.Text() + current && l.Holds(chunks, limit) && l.Packed(limit)
    ensures l.spans != [] ==> Utf16Len(l.spans[|l.spans| - 1]) >= Utf16Len(current)
    ensures l.spans != [] ==> TrimEnd(current) != [] || Utf16Len(l.spans[|l.spans| - 1]) > limit
    ensures Within(chunks0, limit) && Utf16Len(current) <= limit ==> Within(chunks, limit)
    ensures NoneEmpty(chunks0) ==> NoneEmpty(chunks)
  {
    chunks := chunks0;
    TrimEndGap(current);
    ghost var trimmed0 := TrimEnd(current);
    if trimmed0 == [] {
      l := DropBlank(chunks0, current, limit, l0);
    } else {
      FlushSpan(current, limit);
      PushedText(l0, current);
      PushedHolds(l0, chunks0, trimmed0, current, limit);
      l := Pushed(l0, current);
    }
    if current != [] {
      var trimmed := TrimEnd(current);
      if trimmed != [] {
        chunks := chunks + [trimmed];
      }
    }
  }

  /** Nothing is sent: the whitespace goes to the end of what was sent before, or to the front. */
  ghost method DropBlank(chunks: seq<string>, gap: string, limit: nat, l0: Layout) returns (l: Layout)
    requires l0.Holds(chunks, limit) && l0.Packed(limit) && Blank(gap) && Terminated(gap) && l0.Tight(gap, limit)
    ensures l.Text() == l0.Text() + gap && l.Holds(chunks, limit) && l.Packed(limit)
    ensures l.spans != [] ==> Utf16Len(l.spans[|l.spans| - 1]) > limit
    ensures l.spans != [] ==> Utf16Len(l.spans[|l.spans| - 1]) >= Utf16Len(gap)
  {
    if l0.spans == [] {
      WidenedLead(l0, chunks, gap, limit);
      l := Layout(l0.lead + gap, []);
      assert l0.lead + gap + "" == l0.lead + "" + gap;
    } else {
      var n := |l0.spans| - 1;
      var span := l0.spans[n] + gap;
      WidenedText(l0, gap, n);
      WidenedLast(l0, chunks, gap, limit, n, span);
      l := Layout(l0.lead, l0.spans[n := span]);
    }
  }

  lemma FlushSpan(current: string, limit: nat)
    requires Terminated(current) && TrimEnd(current) != []
    ensures SpanOf(current, TrimEnd(current), limit)
  {
    var j := TrimEndExactly(current);
  }

  /** One character of a long line: it joins the segment, or the segment is full and goes first. */
  method TakeChar(chunks0: seq<string>, segment0: string, ch: char, limit: nat, ghost l0: Layout)
    returns (chunks: seq<string>, segment: string, ghost l: Layout)
    requires l0.Holds(chunks0, limit) && l0.Packed(limit)
    ensures l.Text() + segment == l0.Text() + (segment0 + [ch]) && l.Holds(chunks, limit) && l.Packed(limit)
    ensures segment != [] && segment[|segment| - 1] == ch
    ensures if Utf16Len(segment0) + Width(ch) <= limit then l == l0
        && segment == segment0 + [ch] else l.Tight(segment, limit)
    ensures l0.Tight(segment0, limit) ==> l.Tight(segment, limit)
    ensures Width(ch) <= limit && Within(chunks0, limit) && Utf16Len(segment0) <= limit ==>
              Within(chunks, limit) && Utf16Len(segment) <= limit
    ensures Width(ch) <= limit && NoneEmpty(chunks0) ==> NoneEmpty(chunks)
  {
    chunks, segment, l := chunks0, segment0, l0;
    if Utf16Len(segment) + Width(ch) > limit {
      PushedText(l, segment);
      PushedHolds(l, chunks, segment, segment, limit);
      l := Pushed(l, segment);
      chunks := chunks + [segment];
      segment := "";
      Reassociate(l0.Text(), segment0, [ch]);
    }
    EncodePush(segment, ch);
    segment := segment + [ch];
  }

  /** A line longer than the limit is cut between characters; the last segment is left over. */
  method CutLine(chunks0: seq<string>, line: string, limit: nat, ghost l0: Layout)
    returns (chunks: seq<string>, segment: string, ghost l: Layout)
    requires l0.Holds(chunks0, limit) && l0.Packed(limit) && Utf16Len(line) > limit && Terminated(line)
    ensures Terminated(segment)
    ensures l.Text() + segment == l0.Text() + line && l.Holds(chunks, limit) && l.Packed(limit)
        && l.Tight(segment, limit)
    ensures Narrow(line, limit) && Within(chunks0, limit) ==> Within(chunks, limit) && Utf16Len(segment) <= limit
    ensures Narrow(line, limit) && NoneEmpty(chunks0) ==> NoneEmpty(chunks)
  {
    chunks, segment, l := chunks0, "", l0;
    ghost var fits := Narrow(line, limit);
    for i := 0 to |line|
      invariant l.Text() + segment == l0.Text() + line[..i] && l.Holds(chunks, limit) && l.Packed(limit)
      invariant l.Tight(segment, limit) || (segment == line[..i] && Utf16Len(segment) <= limit)
      invariant i > 0 ==> segment != [] && segment[|segment| - 1] == line[i - 1]
      invariant fits && Within(chunks0, limit) ==> Within(chunks, limit) && Utf16Len(segment) <= limit
      invariant fits && NoneEmpty(chunks0) ==> NoneEmpty(chunks)
    {
      OneMore(l0.Text(), line, i, l.Text(), segment);
      EncodePush(segment, line[i]);
      chunks, segment, l := TakeChar(chunks, segment, line[i], limit, l);
    }
    assert line[..|line|] == line;
  }

  lemma OneMore(done: string, line: string, i: nat, spelt: string, segment: string)
    requires i < |line| && spelt + segment == done + line[..i]
    ensures spelt + (segment + [line[i]]) == done + line[..i + 1] && line[..i + 1] == line[..i] + [line[i]]
  {
    Reassociate(spelt, segment, [line[i]]);
    assert line[..i + 1] == line[..i] + [line[i]];
    Reassociate(done, line[..i], [line[i]]);
  }

  predicate Narrow(line: string, limit: nat) {
    forall i :: 0 <= i < |line| ==> Width(line[i]) <= limit
  }

  /** One line: it joins the current chunk, starts a new one, or is cut. */
  method TakeLine(chunks0: seq<string>, current0: string, line: string, limit: nat, ghost l0: Layout)
    returns (chunks: seq<string>, current: string, ghost l: Layout)
    requires l0.Holds(chunks0, limit) && l0.Packed(limit) && l0.Tight(current0, limit)
    requires Terminated(current0) && Terminated(line) && line != []
    ensures Terminated(current)
    ensures l.Text() + current == l0.Text() + current0 + line
    ensures l.Holds(chunks, limit) && l.Packed(limit) && l.Tight(current, limit)
    ensures Narrow(line, limit) && Within(chunks0, limit) && Utf16Len(current0) <= limit ==>
              Within(chunks, limit) && Utf16Len(current) <= limit
    ensures Narrow(line, limit) && NoneEmpty(chunks0) ==> NoneEmpty(chunks)
  {
    if Utf16Len(current0) + Utf16Len(line) <= limit {
      EncodeAppend(current0, line);
      Reassociate(l0.Text(), current0, line);
      chunks, current, l := chunks0, current0 + line, l0;
    } else {
      chunks, l := Flush(chunks0, current0, limit, l0);
      if Utf16Len(line) <= limit {
        current := line;
      } else {
        chunks, current, l := CutLine(chunks, line, limit, l);
      }
    }
  }

  /** The loop over the lines, and the last flush. */
  method ChunkLines(text: string, limit: nat) returns (chunks: seq<string>, ghost l: Layout)
    ensures l.Text() == Unlines(Lines(text)) && l.Holds(chunks, limit) && l.Packed(limit)
    ensures limit >= 1 && Fits(text, limit) ==> Within(chunks, limit) && NoneEmpty(chunks)
  {
    chunks, l := [], Layout("", []);
    var current, lines := "", Lines(text);
    ghost var fits := limit >= 1 && Fits(text, limit);
    for i := 0 to |lines|
      invariant l.Text() + current == Unlines(lines[..i])
      invariant l.Holds(chunks, limit) && l.Packed(limit) && l.Tight(current, limit) && Terminated(current)
      invariant fits ==> Within(chunks, limit) && Utf16Len(current) <= limit && NoneEmpty(chunks)
    {
      LineFits(text, lines, i, limit);
      NextLine(lines, i);
      chunks, current, l := TakeLine(chunks, current, lines[i] + "\n", limit, l);
    }
    assert lines[..|lines|] == lines;
    chunks, l := Flush(chunks, current, limit, l);
  }

  /** `chunk_message`. A text within the limit is sent as it is. The chunks of a longer one spell its lines: only
      whitespace is lost, and only between chunks, and lines are packed while they fit. The chunks are all within a
      positive limit exactly when every character that is not whitespace is; the limit in use is 4096, so they always
      are. None of them is empty then. */
  method ChunkMessage(text: string, limit: nat) returns (chunks: seq<string>)
    ensures if Utf16Len(text) <= limit then chunks == [text] else Spells(Unlines(Lines(text)), chunks, limit)
    ensures Ink(Concat(chunks)) == Ink(text)
    ensures limit >= 1 ==> (Within(chunks, limit) <==> Fits(text, limit))
    ensures limit >= 1 && Fits(text, limit) && Utf16Len(text) > limit ==> NoneEmpty(chunks)
    ensures limit >= 2 ==> Within(chunks, limit)
  {
    if Utf16Len(text) <= limit {
      chunks := [text];
      assert Concat(chunks) == text;
    } else {
      ghost var l;
      chunks, l := ChunkLines(text, limit);
      InkLines(text);
      SpellsInk(l, chunks, limit);
    }
    InkFits(chunks, limit);
  }

  lemma NextLine(lines: seq<string>, i: nat)
    requires i < |lines|
    ensures Unlines(lines[..i + 1]) == Unlines(lines[..i]) + (lines[i] + "\n")
  {
    assert lines[..i + 1] == lines[..i] + [lines[i]];
    UnlinesAppend(lines[..i], [lines[i]]);
    assert Unlines([lines[i]]) == lines[i] + "\n";
  }

  lemma {:induction false} InkMember(s: string, i: nat)
    requires i < |s|
    ensures IsSpace(s[i]) || s[i] in Ink(s)
  {
    if i > 0 {
      InkMember(s[1..], i - 1);
    }
  }

  lemma SpaceIsNarrow(c: char)
    ensures IsSpace(c) ==> Width(c) == 1
  {
  }

  /** If every inked character of the text fits, every character of its lines does. */
  lemma {:induction false} LineFits(text: string, lines: seq<string>, i: nat, limit: nat)
    requires lines == Lines(text) && i < |lines|
    ensures limit >= 1 && Fits(text, limit) ==> Narrow(lines[i] + "\n", limit)
  {
    if limit >= 1 && Fits(text, limit) {
      InkLines(text);
      var line := lines[i] + "\n";
      assert lines == lines[..i] + ([lines[i]] + lines[i + 1..]);
      UnlinesAppend(lines[..i], [lines[i]] + lines[i + 1..]);
      assert Unlines(lines) == Unlines(lines[..i]) + (line + Unlines(lines[i + 1..]));
      InkAppend(Unlines(lines[..i]), line + Unlines(lines[i + 1..]));
      InkAppend(line, Unlines(lines[i + 1..]));
      forall k | 0 <= k < |line| ensures Width(line[k]) <= limit {
        InkMember(line, k);
        SpaceIsNarrow(line[k]);
      }
    }
  }

  lemma {:induction false} WidthOfMember(s: string, c: char)
    requires c in s
    ensures Width(c) <= Utf16Len(s)
  {
    if s[0] != c {
      WidthOfMember(s[1..], c);
    }
  }

  lemma {:induction false} ConcatMember(parts: seq<string>, c: char)
    requires c in Concat(parts)
    ensures exists i :: 0 <= i < |parts| && c in parts[i]
  {
    if c in parts[0] {
    } else {
      ConcatMember(parts[1..], c);
      var i :| 0 <= i < |parts[1..]| && c in parts[1..][i];
      assert c in parts[i + 1];
    }
  }

  lemma {:induction false} InkFrom(s: string, c: char)
    requires c in Ink(s)
    ensures c in s
  {
    if !(c == s[0] && !IsSpace(s[0])) {
      InkFrom(s[1..], c);
    }
  }

  /** Chunks within the limit can only hold characters within it. */
  lemma InkFits(chunks: seq<string>, limit: nat)
    ensures Within(chunks, limit) ==> Fits(Concat(chunks), limit)
  {
    if Within(chunks, limit) {
      var ink := Ink(Concat(chunks));
      forall c | c in ink ensures Width(c) <= limit {
        InkFrom(Concat(chunks), c);
        ConcatMember(chunks, c);
        var k :| 0 <= k < |chunks| && c in chunks[k];
        WidthOfMember(chunks[k], c);
      }
    }
  }
}
