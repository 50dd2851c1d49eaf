/** What the splitter guarantees, for every keyword table and every source: its chunks tile the
    lines, each but the last has net bracket count zero, and an accepted source is cut into accepted
    chunks. */
module ChunkTheory {
  import opened Text
  import opened SyntaxGate
  import opened GateTheory
  import opened Chunker

  // ---------------------------------------------------------------- the chunks tile the source

  /** From line `from` on, `ps` are non-blank slices of `lines`, in order and disjoint, each starting at its
      line number; every line outside them is blank. */
  ghost predicate Tiles(lines: seq<string>, from: nat, ps: seq<Piece>)
    decreases |ps|
  {
    if ps == [] then from <= |lines| && AllBlank(lines[from..])
    else
      var start, end := ps[0].lineStart, ps[0].lineStart + |ps[0].lines|;
      && from <= start && end <= |lines|
      && AllBlank(lines[from..start])
      && ps[0].lines == lines[start..end]
      && !AllBlank(ps[0].lines)
      && Tiles(lines, end, ps[1..])
  }

  lemma {:induction false} TilesSkip(lines: seq<string>, from: nat, mid: nat, ps: seq<Piece>)
    requires from <= mid <= |lines| && AllBlank(lines[from..mid]) && Tiles(lines, mid, ps)
    ensures Tiles(lines, from, ps)
  {
    var end := if ps == [] then |lines| else ps[0].lineStart;
    assert lines[from..end] == lines[from..mid] + lines[mid..end];
    assert lines[from..|lines|] == lines[from..] && lines[mid..|lines|] == lines[mid..];
    AllBlankAppend(lines[from..mid], lines[mid..end]);
  }

  lemma TilesPush(lines: seq<string>, from: nat, end: nat, ps: seq<Piece>, qs: seq<Piece>)
    requires from <= end <= |lines| && !AllBlank(lines[from..end]) && Tiles(lines, end, ps)
    requires qs == [Piece(from, lines[from..end])] + ps
    ensures Tiles(lines, from, qs)
  {
    assert qs[1..] == ps && lines[from..from] == [];
  }

  lemma SubstantialIsNotBlank(sp: Splitter, cur: seq<string>)
    requires sp.Substantial(cur)
    ensures !AllBlank(cur)
  {
    TrimBlank(JoinLines(cur));
    if cur != [] {
      JoinIsUnlines(cur);
      BlankUnlines(cur);
      BlankFeed(JoinLines(cur));
    }
  }

  lemma TilesFlush(sp: Splitter, lines: seq<string>, from: nat, end: nat, ps: seq<Piece>, qs: seq<Piece>)
    requires from <= end <= |lines| && Tiles(lines, end, ps)
    requires qs == sp.Flush(lines[from..end], from) + ps
    ensures Tiles(lines, from, qs)
  {
    if AllBlank(lines[from..end]) {
      TilesSkip(lines, from, end, ps);
      assert qs == ps;
    } else {
      TilesPush(lines, from, end, ps, qs);
    }
  }

  lemma CutAt(sp: Splitter, lines: seq<string>, start: nat, i: nat, depth: int, d: int)
    requires start <= i < |lines| && d == depth + Depth(lines[i])
    requires !(depth == 0 && start < i && sp.StartsBlock(lines[i]))
    ensures var grown, tail := lines[start..i + 1], lines[i + 1..];
            sp.Cut(lines[i..], lines[start..i], start, depth) ==
              if d == 0 && sp.Substantial(grown) && sp.CutsBefore(tail)
              then [Piece(start, grown)] + sp.Cut(tail, [], i + 1, d)
              else sp.Cut(tail, grown, start, d)
  {
    var rest, cur, grown, tail := lines[i..], lines[start..i], lines[start..i + 1], lines[i + 1..];
    assert grown == cur + [rest[0]] && tail == rest[1..] && |cur| == i - start;
    sp.CutStep(rest, cur, grown, start, i + 1, depth, d, tail);
  }

  lemma CutFlush(sp: Splitter, lines: seq<string>, start: nat, i: nat)
    requires start < i < |lines| && sp.StartsBlock(lines[i])
    ensures sp.Cut(lines[i..], lines[start..i], start, 0) ==
            sp.Flush(lines[start..i], start) + sp.Cut(lines[i..], [], i, 0)
  {
    assert start + |lines[start..i]| == i;
  }

  lemma {:induction false} CutTiles(sp: Splitter, lines: seq<string>, start: nat, i: nat, depth: int, ps: seq<Piece>)
    requires start <= i <= |lines| && ps == sp.Cut(lines[i..], lines[start..i], start, depth)
    ensures Tiles(lines, start, ps)
    decreases |lines| - i, i - start, 1
  {
    if i == |lines| {
      TilesFlush(sp, lines, start, i, [], ps);
    } else if depth == 0 && start < i && sp.StartsBlock(lines[i]) {
      CutFlush(sp, lines, start, i);
      var qs := sp.Cut(lines[i..], lines[i..i], i, 0);
      assert lines[i..i] == [];
      CutTiles(sp, lines, i, i, 0, qs);
      TilesFlush(sp, lines, start, i, qs, ps);
    } else {
      GrowTiles(sp, lines, start, i, depth, ps);
    }
  }

  /** The case of a line that does not start a new chunk. */
  lemma {:induction false} GrowTiles(sp: Splitter, lines: seq<string>, start: nat, i: nat, depth: int, ps: seq<Piece>)
    requires start <= i < |lines| && ps == sp.Cut(lines[i..], lines[start..i], start, depth)
    requires !(depth == 0 && start < i && sp.StartsBlock(lines[i]))
    ensures Tiles(lines, start, ps)
    decreases |lines| - i, i - start, 0
  {
    var tail, grown, d := lines[i + 1..], lines[start..i + 1], depth + Depth(lines[i]);
    CutAt(sp, lines, start, i, depth, d);
    if d == 0 && sp.Substantial(grown) && sp.CutsBefore(tail) {
      var qs := sp.Cut(tail, lines[i + 1..i + 1], i + 1, d);
      assert lines[i + 1..i + 1] == [];
      CutTiles(sp, lines, i + 1, i + 1, d, qs);
      SubstantialIsNotBlank(sp, grown);
      TilesPush(lines, start, i + 1, qs, ps);
    } else {
      CutTiles(sp, lines, start, i + 1, d, ps);
    }
  }

  /** The chunks of a source tile its lines: no non-blank line is lost, duplicated or moved. */
  lemma ChunksTile(sp: Splitter, source: string)
    ensures Tiles(Lines(source), 0, sp.Pieces(source))
  {
    var lines := Lines(source);
    BlankLines(source);
    assert lines[0..] == lines && lines[0..0] == [];
    CutTiles(sp, lines, 0, 0, 0, sp.Cut(lines, [], 0, 0));
  }

  /** Every non-blank line lies in a piece of a tiling, at its own line number. */
  lemma {:induction false} TilesCover(lines: seq<string>, from: nat, ps: seq<Piece>, i: nat) returns (k: nat)
    requires Tiles(lines, from, ps) && from <= i < |lines| && !Blank(lines[i])
    ensures k < |ps| && ps[k].lineStart <= i < ps[k].lineStart + |ps[k].lines|
    ensures ps[k].lines[i - ps[k].lineStart] == lines[i]
    decreases |ps|
  {
    var start := if ps == [] then |lines| else ps[0].lineStart;
    assert lines[from..|lines|] == lines[from..];
    if i < start {
      BlankAt(lines[from..start], i - from);
    } else {
      var end := start + |ps[0].lines|;
      if i < end {
        k := 0;
      } else {
        k := TilesCover(lines, end, ps[1..], i);
        k := k + 1;
      }
    }
  }

  lemma {:induction false} BlankAt(ls: seq<string>, i: nat)
    requires AllBlank(ls) && i < |ls|
    ensures Blank(ls[i])
  {
    if i > 0 {
      BlankAt(ls[1..], i - 1);
    }
  }

  // ---------------------------------------------------------------- brackets

  lemma {:induction false} DepthAppend(a: string, b: string)
    ensures Depth(a + b) == Depth(a) + Depth(b)
  {
    if a == [] {
      assert a + b == b;
    } else {
      assert (a + b)[1..] == a[1..] + b;
      DepthAppend(a[1..], b);
    }
  }

  lemma DepthGrows(cur: seq<string>, line: string)
    ensures Depth(Unlines(cur + [line])) == Depth(Unlines(cur)) + Depth(line)
  {
    UnlinesAppend(cur, [line]);
    assert Unlines([line]) == line + "\n";
    DepthAppend(Unlines(cur), line + "\n");
    DepthAppend(line, "\n");
    assert Depth("\n") == 0;
  }

  /** The splitter's one depth is the sum of the gate's three counters. */
  lemma {:induction false} DepthIsSum(c: Counts, t: string)
    ensures After(c, t).Sum() == c.Sum() + Depth(t)
    decreases t
  {
    if t != [] {
      DepthIsSum(c.Bump(t[0]), t[1..]);
    }
  }

  /** Every piece but the last has net bracket count zero. */
  predicate FrontBalanced(ps: seq<Piece>) {
    |ps| <= 1 || (Depth(Unlines(ps[0].lines)) == 0 && FrontBalanced(ps[1..]))
  }

  predicate AllNested(ps: seq<Piece>) {
    ps == [] || (Nested(Unlines(ps[0].lines)) && AllNested(ps[1..]))
  }

  lemma {:induction false} CutBalances(sp: Splitter, rest: seq<string>, cur: seq<string>, start: nat, depth: int,
                                       ps: seq<Piece>)
    requires depth == Depth(Unlines(cur)) && ps == sp.Cut(rest, cur, start, depth)
    ensures FrontBalanced(ps)
    decreases |rest|, |cur|
  {
    if rest != [] {
      if depth == 0 && cur != [] && sp.StartsBlock(rest[0]) {
        var qs := sp.Cut(rest, [], start + |cur|, 0);
        CutBalances(sp, rest, [], start + |cur|, 0, qs);
        assert AllBlank(cur) ==> ps == qs;
        assert !AllBlank(cur) ==> ps[1..] == qs;
      } else {
        var tail, grown, d := rest[1..], cur + [rest[0]], depth + Depth(rest[0]);
        var end := start + |grown|;
        sp.CutStep(rest, cur, grown, start, end, depth, d, tail);
        DepthGrows(cur, rest[0]);
        if d == 0 && sp.Substantial(grown) && sp.CutsBefore(tail) {
          var qs := sp.Cut(tail, [], end, d);
          CutBalances(sp, tail, [], end, d, qs);
          assert ps[1..] == qs;
        } else {
          CutBalances(sp, tail, grown, start, d, ps);
        }
      }
    }
  }

  lemma {:induction false} FrontBalancedAt(ps: seq<Piece>, i: nat)
    requires FrontBalanced(ps) && i < |ps| - 1
    ensures Depth(Unlines(ps[i].lines)) == 0
  {
    if i > 0 {
      FrontBalancedAt(ps[1..], i - 1);
    }
  }

  /** Every chunk but the last opens as many brackets as it closes. */
  lemma ChunksBalance(sp: Splitter, source: string)
    ensures var cs := sp.Chunks(source);
            forall i :: 0 <= i < |cs| - 1 ==> Depth(cs[i].text) == 0
  {
    var ps := sp.Pieces(source);
    if !Blank(source) {
      CutBalances(sp, Lines(source), [], 0, 0, ps);
    }
    forall i | 0 <= i < |ps| - 1 ensures Depth(AsChunks(ps)[i].text) == 0 {
      FrontBalancedAt(ps, i);
    }
  }

  /** At depth zero a nested text falls into two nested parts. */
  lemma NestedSplit(a: seq<string>, b: seq<string>)
    requires Nested(Unlines(a + b)) && Depth(Unlines(a)) == 0
    ensures Nested(Unlines(a)) && Nested(Unlines(b))
  {
    UnlinesAppend(a, b);
    DepthIsSum(ZERO, Unlines(a));
    NestedCut(Unlines(a), Unlines(b));
  }

  lemma {:induction false} CutNested(sp: Splitter, rest: seq<string>, cur: seq<string>, start: nat, depth: int,
                                     all: seq<string>, ps: seq<Piece>)
    requires depth == Depth(Unlines(cur)) && ps == sp.Cut(rest, cur, start, depth)
    requires all == cur + rest && Nested(Unlines(all))
    ensures AllNested(ps)
    decreases |rest|, |cur|
  {
    if rest == [] {
      assert all == cur;
    } else if depth == 0 && cur != [] && sp.StartsBlock(rest[0]) {
      var qs := sp.Cut(rest, [], start + |cur|, 0);
      NestedSplit(cur, rest);
      CutNested(sp, rest, [], start + |cur|, 0, rest, qs);
      assert AllBlank(cur) ==> ps == qs;
      assert !AllBlank(cur) ==> ps[1..] == qs;
    } else {
      var tail, grown, d := rest[1..], cur + [rest[0]], depth + Depth(rest[0]);
      var end := start + |grown|;
      sp.CutStep(rest, cur, grown, start, end, depth, d, tail);
      DepthGrows(cur, rest[0]);
      assert all == grown + tail;
      if d == 0 && sp.Substantial(grown) && sp.CutsBefore(tail) {
        var qs := sp.Cut(tail, [], end, d);
        NestedSplit(grown, tail);
        CutNested(sp, tail, [], end, d, tail, qs);
        assert ps[1..] == qs;
      } else {
        CutNested(sp, tail, grown, start, d, all, ps);
      }
    }
  }

  lemma {:induction false} AllNestedAt(ps: seq<Piece>, i: nat)
    requires AllNested(ps) && i < |ps|
    ensures Nested(Unlines(ps[i].lines))
  {
    if i > 0 {
      AllNestedAt(ps[1..], i - 1);
    }
  }

  lemma {:induction false} AfterLines(c: Counts, t: string)
    requires c.NonNegative()
    ensures Safe(c, t) <==> Safe(c, Unlines(Lines(t)))
    ensures Safe(c, t) ==> After(c, t) == After(c, Unlines(Lines(t)))
    decreases |t|
  {
    if t != [] {
      var i := LineFeed(t);
      if i == |t| {
        assert Lines(t) == [t] && Unlines(Lines(t)) == t + "\n";
        AfterAppend(c, t, "\n");
        if Safe(c, t) {
          SafeEnds(c, t);
          LineEnd(After(c, t), "\n");
        }
      } else {
        var line := StripCr(t[..i]);
        var eol, rest := t[|line|..i + 1], t[i + 1..];
        assert t == line + eol + rest;
        assert eol == "\n" || eol == "\r\n";
        assert Unlines(Lines(t)) == line + "\n" + Unlines(Lines(rest));
        AfterAppend(c, line + eol, rest);
        AfterAppend(c, line, eol);
        AfterAppend(c, line + "\n", Unlines(Lines(rest)));
        AfterAppend(c, line, "\n");
        if Safe(c, line) {
          SafeEnds(c, line);
          LineEnd(After(c, line), eol);
          LineEnd(After(c, line), "\n");
          AfterLines(After(c, line), rest);
        }
      }
    }
  }

  /** A source whose brackets nest is cut into chunks whose brackets nest. */
  lemma ChunksNested(sp: Splitter, source: string)
    requires Nested(source)
    ensures forall c :: c in sp.Chunks(source) ==> Nested(c.text)
  {
    var ps := sp.Pieces(source);
    if !Blank(source) {
      AfterLines(ZERO, source);
      assert [] + Lines(source) == Lines(source);
      CutNested(sp, Lines(source), [], 0, 0, Lines(source), ps);
    }
    forall i | 0 <= i < |ps| ensures Nested(AsChunks(ps)[i].text) {
      AllNestedAt(ps, i);
    }
  }
}
