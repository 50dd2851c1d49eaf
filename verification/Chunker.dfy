/** The splitter: a source is cut into top-level chunks of whole lines by one running bracket
    depth, a keyword table and a look at the next line. All theorems hold for every table. */
module Chunker {
  import opened Text

  /** A chunk; its content hash is represented by the text itself. */
  datatype AstChunk = AstChunk(text: string, lineStart: nat)

  /** The lines of a chunk and where they start. */
  datatype Piece = Piece(lineStart: nat, lines: seq<string>) {
    function Chunk(): AstChunk {
      AstChunk(Unlines(lines), lineStart)
    }
  }

  function BracketChange(ch: char): int {
    match ch
    case '{' => 1 case '(' => 1 case '[' => 1
    case '}' => -1 case ')' => -1 case ']' => -1
    case _ => 0
  }

  /** Openers minus closers, whatever their kind. */
  function Depth(t: string): int {
    if t == [] then 0 else BracketChange(t[0]) + Depth(t[1..])
  }

  method LineDepth(line: string) returns (depth: int)
    ensures depth == Depth(line)
  {
    depth := 0;
    for k := 0 to |line|
      invariant depth + Depth(line[k..]) == Depth(line)
    {
      match line[k] {
        case '{' => depth := depth + 1;
        case '(' => depth := depth + 1;
        case '[' => depth := depth + 1;
        case '}' => depth := depth - 1;
        case ')' => depth := depth - 1;
        case ']' => depth := depth - 1;
        case _ =>
      }
    }
  }

  function AsChunks(ps: seq<Piece>): (cs: seq<AstChunk>)
    ensures |cs| == |ps| && forall i :: 0 <= i < |ps| ==> cs[i] == ps[i].Chunk()
  {
    seq(|ps|, i requires 0 <= i < |ps| => ps[i].Chunk())
  }

  lemma AsChunksAppend(a: seq<Piece>, b: seq<Piece>)
    ensures AsChunks(a + b) == AsChunks(a) + AsChunks(b)
  {
  }

  lemma AsChunksPush(a: seq<Piece>, p: Piece)
    ensures AsChunks(a + [p]) == AsChunks(a) + [p.Chunk()]
  {
    AsChunksAppend(a, [p]);
    assert AsChunks([p]) == [p.Chunk()];
  }

  function Bodies(ps: seq<Piece>): (ls: seq<seq<string>>)
    ensures |ls| == |ps| && forall i :: 0 <= i < |ps| ==> ls[i] == ps[i].lines
  {
    seq(|ps|, i requires 0 <= i < |ps| => ps[i].lines)
  }

  function Texts(cs: seq<AstChunk>): (ts: seq<string>)
    ensures |ts| == |cs| && forall i :: 0 <= i < |cs| ==> ts[i] == cs[i].text
  {
    seq(|cs|, i requires 0 <= i < |cs| => cs[i].text)
  }

  datatype Splitter = Splitter(keywords: seq<string>) {

    /** A non-blank line that begins with a top-level keyword. */
    predicate StartsBlock(line: string) {
      !Blank(line) && exists k :: 0 <= k < |keywords| && keywords[k] <= Trim(line)
    }

    /** The lookahead: end of input, a blank line or a new block. */
    predicate CutsBefore(rest: seq<string>) {
      rest == [] || Blank(rest[0]) || StartsBlock(rest[0])
    }

    /** More than one byte besides surrounding whitespace. */
    predicate Substantial(cur: seq<string>) {
      Utf8Len(Trim(JoinLines(cur))) > 1
    }

    function Flush(cur: seq<string>, start: nat): seq<Piece> {
      if AllBlank(cur) then [] else [Piece(start, cur)]
    }

    /** The pieces still to come, given the lines left, the lines collected so far and their depth. */
    function Cut(rest: seq<string>, cur: seq<string>, start: nat, depth: int): seq<Piece>
      decreases |rest|, |cur|
    {
      if rest == [] then Flush(cur, start)
      else if depth == 0 && cur != [] && StartsBlock(rest[0]) then
        Flush(cur, start) + Cut(rest, [], start + |cur|, 0)
      else
        var grown, d := cur + [rest[0]], depth + Depth(rest[0]);
        if d == 0 && Substantial(grown) && CutsBefore(rest[1..]) then
          [Piece(start, grown)] + Cut(rest[1..], [], start + |grown|, 0)
        else
          Cut(rest[1..], grown, start, d)
    }

    function Pieces(source: string): seq<Piece> {
      if Blank(source) then [] else Cut(Lines(source), [], 0, 0)
    }

    /** `chunk_source`. */
    function Chunks(source: string): seq<AstChunk> {
      AsChunks(Pieces(source))
    }

    /** The text of the collected lines, unless it is blank. */
    method FlushChunk(cur: seq<string>, start: nat) returns (chunks: seq<AstChunk>)
      requires cur != []
      ensures chunks == AsChunks(Flush(cur, start))
    {
      var text := JoinLines(cur) + "\n";
      JoinIsUnlines(cur);
      BlankUnlines(cur);
      TrimBlank(text);
      chunks := if Trim(text) != [] then [AstChunk(text, start)] else [];
    }

    /** A missing next line counts as a blank one. */
    method LookAhead(lines: seq<string>, at: nat) returns (cuts: bool)
      requires at <= |lines|
      ensures cuts == CutsBefore(lines[at..])
    {
      var next := if at < |lines| then lines[at] else "";
      TrimBlank(next);
      cuts := Trim(next) == [] || StartsBlock(next);
    }

    /** One turn of the loop on a line that does not start a new chunk. */
    lemma {:induction false} CutStep(rest: seq<string>, cur: seq<string>, grown: seq<string>, start: nat, end: nat,
                  depth: int, d: int, tail: seq<string>)
      requires rest != [] && !(depth == 0 && cur != [] && StartsBlock(rest[0]))
      requires grown == cur + [rest[0]] && end == start + |grown| && d == depth + Depth(rest[0]) && tail == rest[1..]
      ensures Cut(rest, cur, start, depth) ==
              if d == 0 && Substantial(grown) && CutsBefore(tail) then [Piece(start, grown)] + Cut(tail, [], end, d)
              else Cut(tail, grown, start, d)
    {
      CutUnfold(rest, cur, start, depth);
    }

    lemma CutUnfold(rest: seq<string>, cur: seq<string>, start: nat, depth: int)
      requires rest != [] && !(depth == 0 && cur != [] && StartsBlock(rest[0]))
      ensures var grown, d := cur + [rest[0]], depth + Depth(rest[0]);
              Cut(rest, cur, start, depth) ==
                if d == 0 && Substantial(grown) && CutsBefore(rest[1..])
                then [Piece(start, grown)] + Cut(rest[1..], [], start + |grown|, 0)
                else Cut(rest[1..], grown, start, d)
    {
    }

    /** A new block begins: what is collected is flushed before it. */
    lemma BlockStep(total: seq<Piece>, done: seq<Piece>, rest: seq<string>, cur: seq<string>, start: nat)
      requires rest != [] && cur != [] && StartsBlock(rest[0]) && total == done + Cut(rest, cur, start, 0)
      ensures total == done + Flush(cur, start) + Cut(rest, [], start + |cur|, 0)
      ensures AsChunks(done + Flush(cur, start)) == AsChunks(done) + AsChunks(Flush(cur, start))
    {
      Reassociate(done, Flush(cur, start), Cut(rest, [], start + |cur|, 0));
      AsChunksAppend(done, Flush(cur, start));
    }

    /** A line is collected: a chunk may end after it. */
    lemma LineStep(total: seq<Piece>, done: seq<Piece>, lines: seq<string>, i: nat, cur: seq<string>, start: nat,
                   depth: int)
      requires i < |lines| && start + |cur| == i && !(depth == 0 && cur != [] && StartsBlock(lines[i]))
      requires total == done + Cut(lines[i..], cur, start, depth)
      ensures var grown, d, tail := cur + [lines[i]], depth + Depth(lines[i]), lines[i + 1..];
              var piece := Piece(start, grown);
              if d == 0 && Substantial(grown) && CutsBefore(tail)
              then && total == done + [piece] + Cut(tail, [], i + 1, d)
                   && AsChunks(done + [piece]) == AsChunks(done) + [AstChunk(JoinLines(grown) + "\n", start)]
              else total == done + Cut(tail, grown, start, d)
    {
      var grown, d, tail := cur + [lines[i]], depth + Depth(lines[i]), lines[i + 1..];
      var piece := Piece(start, grown);
      assert lines[i..][0] == lines[i] && lines[i..][1..] == tail;
      CutStep(lines[i..], cur, grown, start, i + 1, depth, d, tail);
      if d == 0 && Substantial(grown) && CutsBefore(tail) {
        JoinIsUnlines(grown);
        AsChunksPush(done, piece);
        Reassociate(done, [piece], Cut(tail, [], i + 1, d));
      }
    }

    /** One turn of the loop: a new block flushes what is collected; the line is collected; a complete unit before a
        blank line or a block becomes a chunk. */
    method ReadLine(lines: seq<string>, lineIdx: nat, chunks0: seq<AstChunk>, current0: seq<string>, start0: nat,
                    depth0: int,
                    ghost total: seq<Piece>, ghost done0: seq<Piece>)
      returns (chunks: seq<AstChunk>, current: seq<string>, currentStart: nat, depth: int, ghost done: seq<Piece>)
      requires lineIdx < |lines| && start0 + |current0| == lineIdx && chunks0 == AsChunks(done0)
      requires total == done0 + Cut(lines[lineIdx..], current0, start0, depth0)
      ensures currentStart + |current| == lineIdx + 1 && chunks == AsChunks(done)
      ensures total == done + Cut(lines[lineIdx + 1..], current, currentStart, depth)
    {
      chunks, current, currentStart, depth, done := chunks0, current0, start0, depth0, done0;
      var line := lines[lineIdx];
      if depth == 0 && current != [] && StartsBlock(line) {
        BlockStep(total, done, lines[lineIdx..], current, currentStart);
        var flushed := FlushChunk(current, currentStart);
        chunks := chunks + flushed;
        done := done + Flush(current, currentStart);
        current, currentStart := [], lineIdx;
      }
      LineStep(total, done, lines, lineIdx, current, currentStart, depth);
      current := current + [line];
      var change := LineDepth(line);
      depth := depth + change;
      var cuts := LookAhead(lines, lineIdx + 1);
      if depth == 0 && current != [] && Substantial(current) && cuts {
        chunks := chunks + [AstChunk(JoinLines(current) + "\n", currentStart)];
        done := done + [Piece(currentStart, current)];
        current, currentStart := [], lineIdx + 1;
      }
    }

    /** The loop as written, with its last-resort chunk for a source that produced none: never taken. */
    method ChunkSource(source: string) returns (chunks: seq<AstChunk>)
      ensures chunks == Chunks(source)
    {
      TrimBlank(source);
      if Trim(source) == [] {
        return [];
      }
      var lines := Lines(source);
      var current: seq<string>, currentStart: nat, depth := [], 0, 0;
      chunks := [];
      ghost var total, done: seq<Piece> := Cut(lines, [], 0, 0), [];
      for lineIdx := 0 to |lines|
        invariant currentStart + |current| == lineIdx
        invariant chunks == AsChunks(done)
        invariant total == done + Cut(lines[lineIdx..], current, currentStart, depth)
      {
        chunks, current, currentStart, depth, done :=
          ReadLine(lines, lineIdx, chunks, current, currentStart, depth, total, done);
      }
      AsChunksAppend(done, Flush(current, currentStart));
      if current != [] {
        var flushed := FlushChunk(current, currentStart);
        chunks := chunks + flushed;
      }
      SomethingCut(source);
      if chunks == [] {
        assert false; // the whole source as one chunk
      }
    }

    lemma SomethingCut(source: string)
      requires !Blank(source)
      ensures Cut(Lines(source), [], 0, 0) != []
    {
      BlankLines(source);
      assert [] + Lines(source) == Lines(source);
      NonBlankIsCut(Lines(source), [], 0, 0);
    }

    /** Something is cut whenever some line is not blank. */
    lemma {:induction false} NonBlankIsCut(rest: seq<string>, cur: seq<string>, start: nat, depth: int)
      requires !AllBlank(cur + rest)
      ensures Cut(rest, cur, start, depth) != []
      decreases |rest|, |cur|
    {
      if rest == [] {
        assert cur + rest == cur;
      } else if depth == 0 && cur != [] && StartsBlock(rest[0]) {
        assert [] + rest == rest && !Blank(rest[0]);
        NonBlankIsCut(rest, [], start + |cur|, 0);
      } else {
        var tail, grown, d := rest[1..], cur + [rest[0]], depth + Depth(rest[0]);
        assert grown + tail == cur + rest;
        CutStep(rest, cur, grown, start, start + |grown|, depth, d, tail);
        if !(d == 0 && Substantial(grown) && CutsBefore(tail)) {
          NonBlankIsCut(tail, grown, start, d);
        }
      }
    }
  }
}
