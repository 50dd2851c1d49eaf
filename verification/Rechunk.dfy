/** Cutting is idempotent: splitting the concatenation of a source's chunks gives the same chunk
    texts again, exactly when no chunk keeps a line that ends in a carriage return. */
module Rechunk {
  import opened Text
  import opened Chunker
  import opened ChunkTheory

  /** The chunks as groups of lines, without their positions. */
  function Groups(sp: Splitter, rest: seq<string>, cur: seq<string>, depth: int): seq<seq<string>>
    decreases |rest|, |cur|
  {
    if rest == [] then Kept(cur)
    else if depth == 0 && cur != [] && sp.StartsBlock(rest[0]) then Kept(cur) + Groups(sp, rest, [], 0)
    else
      var grown, d := cur + [rest[0]], depth + Depth(rest[0]);
      if d == 0 && sp.Substantial(grown) && sp.CutsBefore(rest[1..]) then [grown] + Groups(sp, rest[1..], [], d)
      else Groups(sp, rest[1..], grown, d)
  }

  function Kept(cur: seq<string>): seq<seq<string>> {
    if AllBlank(cur) then [] else [cur]
  }

  lemma BodiesPush(p: Piece, ps: seq<Piece>)
    ensures Bodies([p] + ps) == [p.lines] + Bodies(ps)
  {
  }

  lemma {:induction false} GroupsOfCut(sp: Splitter, rest: seq<string>, cur: seq<string>, start: nat, depth: int,
                                       ps: seq<Piece>)
    requires ps == sp.Cut(rest, cur, start, depth)
    ensures Bodies(ps) == Groups(sp, rest, cur, depth)
    decreases |rest|, |cur|
  {
    if rest != [] {
      if depth == 0 && cur != [] && sp.StartsBlock(rest[0]) {
        var qs := sp.Cut(rest, [], start + |cur|, 0);
        GroupsOfCut(sp, rest, [], start + |cur|, 0, qs);
        BodiesPush(Piece(start, cur), qs);
        assert [] + qs == qs;
      } else {
        var tail, grown, d := rest[1..], cur + [rest[0]], depth + Depth(rest[0]);
        var end := start + |grown|;
        sp.CutStep(rest, cur, grown, start, end, depth, d, tail);
        if d == 0 && sp.Substantial(grown) && sp.CutsBefore(tail) {
          var qs := sp.Cut(tail, [], end, d);
          GroupsOfCut(sp, tail, [], end, d, qs);
          BodiesPush(Piece(start, grown), qs);
        } else {
          GroupsOfCut(sp, tail, grown, start, d, ps);
        }
      }
    }
  }

  lemma {:induction false} BlankDepth(line: string)
    requires Blank(line)
    ensures Depth(line) == 0
  {
    if line != [] {
      BlankDepth(line[1..]);
    }
  }

  /** The collected lines open the first group, and what follows them is grouped the same way again. */
  ghost predicate Survives(sp: Splitter, cur: seq<string>, depth: int, gs: seq<seq<string>>) {
    && gs != [] && cur <= gs[0]
    && var flat := gs[0][|cur|..] + Concat(gs[1..]);
       Groups(sp, flat, cur, depth) == gs
  }

  /** The collected lines were blank and are gone; a new block or nothing follows. */
  ghost predicate Dropped(sp: Splitter, cur: seq<string>, gs: seq<seq<string>>) {
    && AllBlank(cur) && Groups(sp, Concat(gs), [], 0) == gs
    && (gs == [] || (gs[0] != [] && sp.StartsBlock(gs[0][0])))
  }

  lemma Again(sp: Splitter, gs: seq<seq<string>>)
    requires Survives(sp, [], 0, gs) || Dropped(sp, [], gs)
    ensures Groups(sp, Concat(gs), [], 0) == gs
  {
    if Survives(sp, [], 0, gs) {
      assert gs[0][0..] == gs[0];
    }
  }

  lemma {:induction false} CutCase(sp: Splitter, rest: seq<string>, cur: seq<string>, hs: seq<seq<string>>,
                                   gs: seq<seq<string>>)
    requires cur != [] && rest != [] && sp.StartsBlock(rest[0]) && gs == Kept(cur) + hs
    requires Groups(sp, Concat(hs), [], 0) == hs && hs != [] && [rest[0]] <= hs[0]
    ensures Survives(sp, cur, 0, gs) || Dropped(sp, cur, gs)
  {
    if AllBlank(cur) {
      assert gs == hs;
    } else {
      assert gs[1..] == hs && gs[0][|cur|..] + Concat(hs) == Concat(hs);
    }
  }

  lemma {:induction false} FlushCase(sp: Splitter, line: string, cur: seq<string>, grown: seq<string>, depth: int,
                                     hs: seq<seq<string>>, gs: seq<seq<string>>)
    requires !(depth == 0 && cur != [] && sp.StartsBlock(line)) && grown == cur + [line]
    requires depth + Depth(line) == 0 && sp.Substantial(grown)
    requires Groups(sp, Concat(hs), [], 0) == hs && sp.CutsBefore(Concat(hs)) && gs == [grown] + hs
    ensures Survives(sp, cur, depth, gs)
  {
    var flat := gs[0][|cur|..] + Concat(gs[1..]);
    assert gs[1..] == hs;
    assert flat[0] == line && flat[1..] == Concat(hs);
  }

  lemma {:induction false} GrowCase(sp: Splitter, tail: seq<string>, line: string, cur: seq<string>,
                                    grown: seq<string>, depth: int, d: int, gs: seq<seq<string>>)
    requires !(depth == 0 && cur != [] && sp.StartsBlock(line)) && grown == cur + [line] && d == depth + Depth(line)
    requires !(d == 0 && sp.Substantial(grown) && sp.CutsBefore(tail)) && Survives(sp, grown, d, gs)
    requires sp.Substantial(grown) && !sp.CutsBefore(tail) ==> grown + [tail[0]] <= gs[0]
    ensures Survives(sp, cur, depth, gs)
  {
    var after := gs[0][|grown|..] + Concat(gs[1..]);
    var flat := gs[0][|cur|..] + Concat(gs[1..]);
    assert flat[0] == line && flat[1..] == after;
    if sp.Substantial(grown) && !sp.CutsBefore(tail) {
      assert after[0] == tail[0];
    }
  }

  lemma {:induction false} Regroup(sp: Splitter, rest: seq<string>, cur: seq<string>, depth: int, gs: seq<seq<string>>)
    requires gs == Groups(sp, rest, cur, depth) && (AllBlank(cur) ==> depth == 0)
    ensures Survives(sp, cur, depth, gs) || Dropped(sp, cur, gs)
    ensures rest != [] && !(depth == 0 && cur != [] && sp.StartsBlock(rest[0])) && !AllBlank(cur + [rest[0]]) ==>
              gs != [] && cur + [rest[0]] <= gs[0]
    ensures cur == [] && sp.CutsBefore(rest) ==> sp.CutsBefore(Concat(gs))
    decreases |rest|, |cur|
  {
    if rest == [] {
      if !AllBlank(cur) {
        assert gs[0][|cur|..] + Concat(gs[1..]) == [];
      }
    } else if depth == 0 && cur != [] && sp.StartsBlock(rest[0]) {
      var hs := Groups(sp, rest, [], 0);
      assert [] + [rest[0]] == [rest[0]] && !AllBlank([rest[0]]);
      Regroup(sp, rest, [], 0, hs);
      Again(sp, hs);
      CutCase(sp, rest, cur, hs, gs);
    } else {
      var tail, line, grown, d := rest[1..], rest[0], cur + [rest[0]], depth + Depth(rest[0]);
      AllBlankAppend(cur, [line]);
      if Blank(line) { BlankDepth(line); }
      if d == 0 && sp.Substantial(grown) && sp.CutsBefore(tail) {
        var hs := Groups(sp, tail, [], d);
        Regroup(sp, tail, [], d, hs);
        Again(sp, hs);
        FlushCase(sp, line, cur, grown, depth, hs, gs);
        assert Concat(gs) == grown + Concat(hs);
      } else {
        Regroup(sp, tail, grown, d, gs);
        if sp.Substantial(grown) { SubstantialIsNotBlank(sp, grown); }
        if Survives(sp, grown, d, gs) {
          if tail != [] { AllBlankAppend(grown, [tail[0]]); }
          GrowCase(sp, tail, line, cur, grown, depth, d, gs);
          assert Concat(gs) == gs[0] + Concat(gs[1..]);
        }
      }
    }
  }

  // ---------------------------------------------------------------- from lines to texts

  predicate EndsInCr(line: string) {
    line != [] && line[|line| - 1] == '\r'
  }

  function StripAll(ls: seq<string>): (r: seq<string>)
    ensures |r| == |ls|
  {
    if ls == [] then [] else [StripCr(ls[0])] + StripAll(ls[1..])
  }

  predicate NoFeeds(ls: seq<string>) {
    forall i :: 0 <= i < |ls| ==> '\n' !in ls[i]
  }

  predicate NoCrEnds(ls: seq<string>) {
    forall i :: 0 <= i < |ls| ==> !EndsInCr(ls[i])
  }

  lemma {:induction false} LinesStrip(ls: seq<string>)
    requires NoFeeds(ls)
    ensures Lines(Unlines(ls)) == StripAll(ls)
  {
    if ls != [] {
      var s := Unlines(ls);
      LineFeedIs(s, |ls[0]|);
      assert s[..|ls[0]|] == ls[0];
      assert s[|ls[0]| + 1..] == Unlines(ls[1..]);
      LinesStrip(ls[1..]);
    }
  }

  lemma {:induction false} StripShrinks(ls: seq<string>)
    ensures |Unlines(StripAll(ls))| <= |Unlines(ls)|
    ensures |Unlines(StripAll(ls))| == |Unlines(ls)| <==> NoCrEnds(ls)
    ensures NoCrEnds(ls) ==> StripAll(ls) == ls
  {
    if ls != [] {
      StripShrinks(ls[1..]);
      assert StripAll(ls)[1..] == StripAll(ls[1..]);
      assert NoCrEnds(ls) <==> !EndsInCr(ls[0]) && NoCrEnds(ls[1..]) by {
        assert forall i :: 1 <= i < |ls| ==> ls[i] == ls[1..][i - 1];
      }
    }
  }

  /** All lines kept by the chunks, in order. */
  function KeptLines(ps: seq<Piece>): seq<string> {
    Concat(Bodies(ps))
  }

  lemma {:induction false} TextsAreKeptLines(ps: seq<Piece>)
    ensures Concat(Texts(AsChunks(ps))) == Unlines(KeptLines(ps))
  {
    if ps != [] {
      TextsAreKeptLines(ps[1..]);
      assert Texts(AsChunks(ps))[1..] == Texts(AsChunks(ps[1..]));
      assert Bodies(ps)[1..] == Bodies(ps[1..]);
      UnlinesAppend(ps[0].lines, KeptLines(ps[1..]));
    }
  }

  /** The pieces of a tiling hold no more text than the lines they tile. */
  lemma {:induction false} TilesShrink(lines: seq<string>, from: nat, ps: seq<Piece>)
    requires Tiles(lines, from, ps)
    ensures |Unlines(KeptLines(ps))| <= |Unlines(lines[from..])|
    decreases |ps|
  {
    if ps != [] {
      var start, end := ps[0].lineStart, ps[0].lineStart + |ps[0].lines|;
      TilesShrink(lines, end, ps[1..]);
      assert Bodies(ps)[1..] == Bodies(ps[1..]);
      UnlinesAppend(ps[0].lines, KeptLines(ps[1..]));
      SliceLength(lines, from, start, end);
    }
  }

  lemma SliceLength(lines: seq<string>, from: nat, start: nat, end: nat)
    requires from <= start <= end <= |lines|
    ensures |Unlines(lines[start..end])| + |Unlines(lines[end..])| <= |Unlines(lines[from..])|
  {
    assert lines[from..] == lines[from..start] + (lines[start..end] + lines[end..]);
    UnlinesAppend(lines[from..start], lines[start..end] + lines[end..]);
    UnlinesAppend(lines[start..end], lines[end..]);
  }

  lemma {:induction false} TilesNoFeeds(lines: seq<string>, from: nat, ps: seq<Piece>)
    requires Tiles(lines, from, ps) && NoFeeds(lines)
    ensures NoFeeds(KeptLines(ps))
    decreases |ps|
  {
    if ps != [] {
      TilesNoFeeds(lines, ps[0].lineStart + |ps[0].lines|, ps[1..]);
      assert Bodies(ps)[1..] == Bodies(ps[1..]);
    }
  }

  lemma {:induction false} TilesHaveText(lines: seq<string>, from: nat, ps: seq<Piece>)
    requires Tiles(lines, from, ps)
    ensures AllBlank(KeptLines(ps)) ==> ps == []
  {
    if ps != [] {
      AllBlankAppend(ps[0].lines, Concat(Bodies(ps)[1..]));
    }
  }

  /** The chunks' texts, concatenated, are cut into the same texts again if and only if no kept line ends
      in a carriage return. */
  lemma RechunkIdempotent(sp: Splitter, source: string)
    ensures var texts := Texts(sp.Chunks(source));
            Texts(sp.Chunks(Concat(texts))) == texts <==> NoCrEnds(KeptLines(sp.Pieces(source)))
  {
    var lines, ps := Lines(source), sp.Pieces(source);
    var kept := KeptLines(ps);
    var joined := Unlines(kept);
    ChunksTile(sp, source);
    LinesHaveNoFeed(source);
    TilesNoFeeds(lines, 0, ps);
    TextsAreKeptLines(ps);
    LinesStrip(kept);
    StripShrinks(kept);
    var again := sp.Pieces(joined);
    TextsAreKeptLines(again);
    if NoCrEnds(kept) {
      RegroupSource(sp, source);
      assert Texts(AsChunks(again)) == Texts(AsChunks(ps));
    } else {
      ChunksTile(sp, joined);
      TilesShrink(Lines(joined), 0, again);
      assert Lines(joined)[0..] == Lines(joined);
      assert Concat(Texts(AsChunks(again))) != joined;
    }
  }

  lemma RegroupSource(sp: Splitter, source: string)
    requires var kept := KeptLines(sp.Pieces(source)); Lines(Unlines(kept)) == kept
    ensures Bodies(sp.Pieces(Unlines(KeptLines(sp.Pieces(source))))) == Bodies(sp.Pieces(source))
  {
    var ps := sp.Pieces(source);
    var kept := KeptLines(ps);
    ChunksTile(sp, source);
    TilesHaveText(Lines(source), 0, ps);
    BlankUnlines(kept);
    if !Blank(source) {
      GroupsOfCut(sp, Lines(source), [], 0, 0, ps);
      Regroup(sp, Lines(source), [], 0, Bodies(ps));
      Again(sp, Bodies(ps));
    }
    if !Blank(Unlines(kept)) {
      GroupsOfCut(sp, kept, [], 0, 0, sp.Cut(kept, [], 0, 0));
    }
  }

  /** In particular a source without carriage returns is cut the same way again. */
  lemma RechunkWithoutCr(sp: Splitter, source: string)
    requires '\r' !in source
    ensures var texts := Texts(sp.Chunks(source)); Texts(sp.Chunks(Concat(texts))) == texts
  {
    var ps := sp.Pieces(source);
    LinesHaveNoCr(source);
    ChunksTile(sp, source);
    TilesKeepLines(Lines(source), 0, ps);
    RechunkIdempotent(sp, source);
  }

  lemma {:induction false} LinesHaveNoCr(s: string)
    requires '\r' !in s
    ensures NoCrEnds(Lines(s))
    decreases |s|
  {
    if s != [] {
      var i := LineFeed(s);
      if i < |s| {
        LinesHaveNoCr(s[i + 1..]);
        assert forall k :: 0 <= k < i ==> s[..i][k] == s[k];
      }
    }
  }

  lemma {:induction false} TilesKeepLines(lines: seq<string>, from: nat, ps: seq<Piece>)
    requires Tiles(lines, from, ps) && NoCrEnds(lines)
    ensures NoCrEnds(KeptLines(ps))
    decreases |ps|
  {
    if ps != [] {
      TilesKeepLines(lines, ps[0].lineStart + |ps[0].lines|, ps[1..]);
      assert Bodies(ps)[1..] == Bodies(ps[1..]);
    }
  }
}
