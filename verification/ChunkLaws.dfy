/** Where the splitter cuts, in terms of the keyword table and the text alone: between two lines exactly when no bracket
    is open and the next line begins with a keyword, or is blank and more than one byte of text precedes it. */
module ChunkLaws {
  import opened Text
  import opened SyntaxGate
  import opened GateTheory
  import opened GateLaws
  import opened Chunker
  import opened ChunkTheory
  import opened Rechunk
  import opened UntouchedText

  /** The line, without surrounding whitespace, begins with an entry of the table. */
  ghost predicate KeywordLine(keywords: seq<string>, line: string) {
    Trim(line) != [] && exists k :: k in keywords && k <= Trim(line)
  }

  /** As many brackets closed as opened, whatever their kinds. */
  ghost predicate Even(t: string) {
    Surplus(t, Round) + Surplus(t, Curly) + Surplus(t, Square) == 0
  }

  /** A chunk made of these lines ends before the next line. */
  ghost predicate EndsBefore(keywords: seq<string>, lines: seq<string>, next: string) {
    && Even(Unlines(lines))
    && (KeywordLine(keywords, next) || (Trim(next) == [] && Utf8Len(Trim(JoinLines(lines))) > 1))
  }

  lemma KeywordLineIs(sp: Splitter, line: string)
    ensures sp.StartsBlock(line) <==> KeywordLine(sp.keywords, line)
  {
    TrimBlank(line);
    if KeywordLine(sp.keywords, line) {
      var k :| k in sp.keywords && k <= Trim(line);
      var i :| 0 <= i < |sp.keywords| && sp.keywords[i] == k;
    }
    if sp.StartsBlock(line) {
      var i :| 0 <= i < |sp.keywords| && sp.keywords[i] <= Trim(line);
      assert sp.keywords[i] in sp.keywords;
    }
  }

  lemma {:induction false} DepthIsSurplus(t: string)
    ensures Depth(t) == Surplus(t, Round) + Surplus(t, Curly) + Surplus(t, Square)
  {
    DepthIsSum(ZERO, t);
    SurplusIs(t);
  }

  lemma BreaksIs(sp: Splitter, lines: seq<string>, next: string)
    ensures Breaks(sp, lines, next) <==> EndsBefore(sp.keywords, lines, next)
  {
    KeywordLineIs(sp, next);
    DepthIsSurplus(Unlines(lines));
    TrimBlank(next);
  }

  // ---------------------------------------------------------------- ends and starts

  /** From line `from` on: a piece ends only where the loop breaks, and a piece after dropped lines begins a block. */
  ghost predicate Placed(sp: Splitter, lines: seq<string>, from: nat, ps: seq<Piece>)
    decreases |ps|
  {
    ps == [] ||
    (var start, end := ps[0].lineStart, ps[0].lineStart + |ps[0].lines|;
     && (from < start ==> start < |lines| && sp.StartsBlock(lines[start]))
     && (end < |lines| ==> Breaks(sp, ps[0].lines, lines[end]))
     && Placed(sp, lines, end, ps[1..]))
  }

  lemma PlacedPush(sp: Splitter, lines: seq<string>, from: nat, end: nat, qs: seq<Piece>, ps: seq<Piece>)
    requires from <= end <= |lines| && Placed(sp, lines, end, qs) && ps == [Piece(from, lines[from..end])] + qs
    requires end < |lines| ==> Breaks(sp, lines[from..end], lines[end])
    ensures Placed(sp, lines, from, ps)
  {
    assert ps[1..] == qs;
  }

  /** Dropped lines in front of a block. */
  lemma PlacedSkip(sp: Splitter, lines: seq<string>, from: nat, mid: nat, ps: seq<Piece>)
    requires from <= mid < |lines| && sp.StartsBlock(lines[mid]) && Placed(sp, lines, mid, ps)
    requires ps != [] ==> ps[0].lineStart == mid
    ensures Placed(sp, lines, from, ps)
  {
  }

  lemma DepthSlice(lines: seq<string>, start: nat, i: nat)
    requires start <= i < |lines|
    ensures Depth(Unlines(lines[start..i + 1])) == Depth(Unlines(lines[start..i])) + Depth(lines[i])
  {
    assert lines[start..i + 1] == lines[start..i] + [lines[i]];
    DepthGrows(lines[start..i], lines[i]);
  }

  /** Reading from a block on, the first piece begins there. */
  lemma {:induction false} FirstPiece(sp: Splitter, rest: seq<string>, cur: seq<string>, start: nat, depth: int)
    requires !AllBlank(cur)
    ensures var ps := sp.Cut(rest, cur, start, depth); ps != [] && ps[0].lineStart == start
    decreases |rest|
  {
    if rest != [] && !(depth == 0 && cur != [] && sp.StartsBlock(rest[0])) {
      var tail, grown, d := rest[1..], cur + [rest[0]], depth + Depth(rest[0]);
      sp.CutStep(rest, cur, grown, start, start + |grown|, depth, d, tail);
      AllBlankAppend(cur, [rest[0]]);
      if !(d == 0 && sp.Substantial(grown) && sp.CutsBefore(tail)) {
        FirstPiece(sp, tail, grown, start, d);
      }
    }
  }

  lemma BlockFirst(sp: Splitter, rest: seq<string>, start: nat)
    requires rest != [] && sp.StartsBlock(rest[0])
    ensures var ps := sp.Cut(rest, [], start, 0); ps != [] && ps[0].lineStart == start
  {
    var tail, grown, d := rest[1..], [rest[0]], Depth(rest[0]);
    assert [] + [rest[0]] == grown && !AllBlank(grown);
    sp.CutStep(rest, [], grown, start, start + 1, 0, d, tail);
    if !(d == 0 && sp.Substantial(grown) && sp.CutsBefore(tail)) {
      FirstPiece(sp, tail, grown, start, d);
    }
  }

  lemma {:induction false} CutPlaced(sp: Splitter, lines: seq<string>, start: nat, i: nat, depth: int, ps: seq<Piece>)
    requires start <= i <= |lines| && depth == Depth(Unlines(lines[start..i]))
    requires ps == sp.Cut(lines[i..], lines[start..i], start, depth)
    ensures Placed(sp, lines, start, ps)
    decreases |lines| - i, i - start, 1
  {
    if i == |lines| {
      if !AllBlank(lines[start..i]) {
        PlacedPush(sp, lines, start, i, [], ps);
      }
    } else if depth == 0 && start < i && sp.StartsBlock(lines[i]) {
      CutFlush(sp, lines, start, i);
      var qs := sp.Cut(lines[i..], lines[i..i], i, 0);
      assert lines[i..i] == [] && Unlines(lines[i..i]) == "";
      CutPlaced(sp, lines, i, i, 0, qs);
      BlockFirst(sp, lines[i..], i);
      if AllBlank(lines[start..i]) {
        assert ps == qs;
        PlacedSkip(sp, lines, start, i, ps);
      } else {
        PlacedPush(sp, lines, start, i, qs, ps);
      }
    } else {
      GrowPlaced(sp, lines, start, i, depth, ps);
    }
  }

  lemma {:induction false} GrowPlaced(sp: Splitter, lines: seq<string>, start: nat, i: nat, depth: int, ps: seq<Piece>)
    requires start <= i < |lines| && depth == Depth(Unlines(lines[start..i]))
    requires ps == sp.Cut(lines[i..], lines[start..i], start, depth)
    requires !(depth == 0 && start < i && sp.StartsBlock(lines[i]))
    ensures Placed(sp, lines, start, ps)
    decreases |lines| - i, i - start, 0
  {
    var tail, grown, d := lines[i + 1..], lines[start..i + 1], depth + Depth(lines[i]);
    CutAt(sp, lines, start, i, depth, d);
    DepthSlice(lines, start, i);
    if d == 0 && sp.Substantial(grown) && sp.CutsBefore(tail) {
      var qs := sp.Cut(tail, lines[i + 1..i + 1], i + 1, d);
      assert lines[i + 1..i + 1] == [] && Unlines(lines[i + 1..i + 1]) == "";
      CutPlaced(sp, lines, i + 1, i + 1, d, qs);
      PlacedPush(sp, lines, start, i + 1, qs, ps);
    } else {
      CutPlaced(sp, lines, start, i + 1, d, ps);
    }
  }

  // ---------------------------------------------------------------- the law

  /** The line after the piece before `k`. */
  function FromOf(ps: seq<Piece>, k: nat): nat
    requires k < |ps|
  {
    if k == 0 then 0 else ps[k - 1].lineStart + |ps[k - 1].lines|
  }

  lemma {:induction false} PlacedAt(sp: Splitter, lines: seq<string>, from: nat, ps: seq<Piece>, k: nat)
    requires Placed(sp, lines, from, ps) && k < |ps|
    ensures var start, end := ps[k].lineStart, ps[k].lineStart + |ps[k].lines|;
            && ((if k == 0 then from else FromOf(ps, k)) < start ==> start < |lines| && sp.StartsBlock(lines[start]))
            && (end < |lines| ==> Breaks(sp, ps[k].lines, lines[end]))
    decreases k
  {
    if k > 0 {
      PlacedAt(sp, lines, ps[0].lineStart + |ps[0].lines|, ps[1..], k - 1);
    }
  }

  lemma SourcePlaced(sp: Splitter, source: string)
    ensures Placed(sp, Lines(source), 0, sp.Pieces(source))
  {
    var lines := Lines(source);
    assert lines[0..] == lines && lines[0..0] == [] && Unlines(lines[0..0]) == "";
    CutPlaced(sp, lines, 0, 0, 0, sp.Cut(lines, [], 0, 0));
  }

  lemma NoEndInside(sp: Splitter, q: seq<string>)
    requires Unbroken(sp, q)
    ensures forall i :: 0 < i < |q| ==> !EndsBefore(sp.keywords, q[..i], q[i])
  {
    forall i | 0 < i < |q| ensures !EndsBefore(sp.keywords, q[..i], q[i]) {
      NoBreakAt(sp, q, i);
      BreaksIs(sp, q[..i], q[i]);
    }
  }

  lemma EndsAndStarts(sp: Splitter, lines: seq<string>, ps: seq<Piece>, k: nat)
    requires Placed(sp, lines, 0, ps) && k < |ps|
    ensures var start, end := ps[k].lineStart, ps[k].lineStart + |ps[k].lines|;
            && (end < |lines| ==> EndsBefore(sp.keywords, ps[k].lines, lines[end]))
            && (FromOf(ps, k) < start ==> start < |lines| && KeywordLine(sp.keywords, lines[start]))
  {
    var start, end := ps[k].lineStart, ps[k].lineStart + |ps[k].lines|;
    PlacedAt(sp, lines, 0, ps, k);
    if end < |lines| {
      BreaksIs(sp, ps[k].lines, lines[end]);
    }
    if start < |lines| {
      KeywordLineIs(sp, lines[start]);
    }
  }

  /** A chunk ends between two of its lines nowhere, and after its last line always, unless the source ends there; a
      chunk
      in front of which blank lines were dropped begins with a keyword line. */
  lemma CutExactly(sp: Splitter, source: string, k: nat)
    requires k < |sp.Pieces(source)|
    ensures var p := sp.Pieces(source)[k];
            forall i :: 0 < i < |p.lines| ==> !EndsBefore(sp.keywords, p.lines[..i], p.lines[i])
    ensures var lines, ps := Lines(source), sp.Pieces(source);
            var start, end := ps[k].lineStart, ps[k].lineStart + |ps[k].lines|;
            && (end < |lines| ==> EndsBefore(sp.keywords, ps[k].lines, lines[end]))
            && (FromOf(ps, k) < start ==> start < |lines| && KeywordLine(sp.keywords, lines[start]))
  {
    var ps := sp.Pieces(source);
    SourcePlaced(sp, source);
    EndsAndStarts(sp, Lines(source), ps, k);
    BaseGroups(sp, source);
    RegularAt(sp, Bodies(ps), true, k);
    NoEndInside(sp, ps[k].lines);
  }

  /** A source without blank and keyword lines is one chunk. */
  lemma OneChunk(sp: Splitter, source: string)
    requires forall line :: line in Lines(source) ==> Trim(line) != [] && !KeywordLine(sp.keywords, line)
    ensures sp.Pieces(source) == if Lines(source) == [] then [] else [Piece(0, Lines(source))]
  {
    var lines, ps := Lines(source), sp.Pieces(source);
    ChunksTile(sp, source);
    if lines != [] {
      assert lines[0] in lines;
      TrimBlank(lines[0]);
      var j := TilesCover(lines, 0, ps, 0);
      FirstOfTiles(lines, ps, j);
      CutExactly(sp, source, 0);
      forall i | 0 <= i < |lines| ensures !EndsBefore(sp.keywords, ps[0].lines, lines[i]) {
        assert lines[i] in lines;
      }
      assert |ps[0].lines| == |lines| && lines[..|lines|] == lines;
      if |ps| > 1 {
        TilesSecond(lines, ps);
      }
      assert ps == [ps[0]];
    } else {
      BlankLines(source);
    }
  }

  lemma FirstOfTiles(lines: seq<string>, ps: seq<Piece>, j: nat)
    requires Tiles(lines, 0, ps) && lines != [] && !Blank(lines[0]) && j < |ps|
    ensures ps[0].lineStart == 0 && |ps[0].lines| <= |lines| && ps[0].lines == lines[..|ps[0].lines|]
  {
    if ps[0].lineStart > 0 {
      BlankAt(lines[0..ps[0].lineStart], 0);
    }
    assert lines[0..|ps[0].lines|] == lines[..|ps[0].lines|];
  }

  lemma TilesSecond(lines: seq<string>, ps: seq<Piece>)
    requires Tiles(lines, 0, ps) && |ps| > 1
    ensures ps[0].lineStart + |ps[0].lines| < |lines|
  {
    var q := ps[1..][0];
    assert q.lines != [];
  }

  /** A chunk's text is its lines, each followed by a line feed, and its number is that of its first line. */
  lemma ChunkText(sp: Splitter, source: string, k: nat)
    requires k < |sp.Pieces(source)|
    ensures var p := sp.Pieces(source)[k];
            |sp.Chunks(source)| == |sp.Pieces(source)| &&
            sp.Chunks(source)[k] == AstChunk(JoinLines(p.lines) + "\n", p.lineStart)
  {
    BaseGroups(sp, source);
    RegularAt(sp, Bodies(sp.Pieces(source)), true, k);
    JoinIsUnlines(sp.Pieces(source)[k].lines);
  }
}
