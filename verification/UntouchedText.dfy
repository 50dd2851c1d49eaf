/** The text of a merge with untouched branches, compared with the text of the base. Besides the crosswise pairing of
    repeated chunks, the base can be lost through what cutting drops: blank lines before a block, carriage returns and
    a missing final line feed. */
module UntouchedText {
  import opened Text
  import opened Chunker
  import opened ChunkTheory
  import opened Rechunk
  import opened Diff
  import opened DiffTheory
  import opened Merge
  import opened MergeTheory
  import opened SelfMerge
  import SyntaxGate

  // ---------------------------------------------------------------- chunks as unbroken runs of lines

  /** The loop ends a chunk between these lines and the next one. */
  predicate Breaks(sp: Splitter, lines: seq<string>, next: string) {
    && Depth(Unlines(lines)) == 0
    && (sp.StartsBlock(next) || (sp.Substantial(lines) && Blank(next)))
  }

  /** Read from the start of a chunk, the loop does not end one inside these lines. */
  predicate Unbroken(sp: Splitter, q: seq<string>) {
    |q| <= 1 || (var n := |q| - 1; Unbroken(sp, q[..n]) && !Breaks(sp, q[..n], q[n]))
  }

  /** Every group is an unbroken run with some text; all but the first begin with a blank line or a block. */
  predicate Regular(sp: Splitter, gs: seq<seq<string>>, first: bool) {
    gs == [] ||
    (Unbroken(sp, gs[0]) && !AllBlank(gs[0]) && (first || sp.CutsBefore(gs[0])) && Regular(sp, gs[1..], false))
  }

  lemma {:induction false} RegularAt(sp: Splitter, gs: seq<seq<string>>, first: bool, i: nat)
    requires Regular(sp, gs, first) && i < |gs|
    ensures Unbroken(sp, gs[i]) && !AllBlank(gs[i])
    ensures i > 0 ==> sp.CutsBefore(gs[i])
  {
    if i > 0 {
      RegularAt(sp, gs[1..], false, i - 1);
    }
  }

  lemma RegularPush(sp: Splitter, g: seq<string>, hs: seq<seq<string>>, first: bool)
    requires Unbroken(sp, g) && !AllBlank(g) && (first || sp.CutsBefore(g)) && Regular(sp, hs, false)
    ensures Regular(sp, [g] + hs, first)
  {
    assert ([g] + hs)[1..] == hs;
  }

  lemma UnbrokenPush(sp: Splitter, cur: seq<string>, line: string, grown: seq<string>)
    requires grown == cur + [line] && Unbroken(sp, cur) && (cur == [] || !Breaks(sp, cur, line))
    ensures Unbroken(sp, grown)
  {
    assert grown[..|cur|] == cur;
  }

  /** What the loop has collected: an unbroken run at which it did not stop. */
  predicate Collected(sp: Splitter, rest: seq<string>, cur: seq<string>, depth: int, first: bool) {
    && Unbroken(sp, cur) && depth == Depth(Unlines(cur))
    && (if cur == [] then first || sp.CutsBefore(rest) else first || sp.CutsBefore(cur))
    && (cur != [] && rest != [] && Blank(rest[0]) ==> !(depth == 0 && sp.Substantial(cur)))
  }

  lemma {:induction false} GroupsRegular(sp: Splitter, rest: seq<string>, cur: seq<string>, depth: int, first: bool)
    requires Collected(sp, rest, cur, depth, first)
    ensures Regular(sp, Groups(sp, rest, cur, depth), first)
    decreases |rest|, |cur|
  {
    if rest == [] {
      if !AllBlank(cur) {
        RegularPush(sp, cur, [], first);
      }
    } else if depth == 0 && cur != [] && sp.StartsBlock(rest[0]) {
      GroupsRegular(sp, rest, [], 0, false);
      FlushRegular(sp, cur, Groups(sp, rest, [], 0), first);
    } else {
      var line, tail, grown, d := rest[0], rest[1..], cur + [rest[0]], depth + Depth(rest[0]);
      DepthGrows(cur, line);
      UnbrokenPush(sp, cur, line, grown);
      if d == 0 && sp.Substantial(grown) && sp.CutsBefore(tail) {
        GroupsRegular(sp, tail, [], d, false);
        SubstantialIsNotBlank(sp, grown);
        RegularPush(sp, grown, Groups(sp, tail, [], d), first);
      } else {
        GroupsRegular(sp, tail, grown, d, first);
      }
    }
  }

  lemma FlushRegular(sp: Splitter, cur: seq<string>, hs: seq<seq<string>>, first: bool)
    requires Unbroken(sp, cur) && (first || sp.CutsBefore(cur)) && Regular(sp, hs, false)
    ensures Regular(sp, Kept(cur) + hs, first)
  {
    if AllBlank(cur) {
      assert Kept(cur) + hs == hs;
      if hs != [] { assert hs == [hs[0]] + hs[1..]; }
    } else {
      RegularPush(sp, cur, hs, first);
    }
  }

  /** One line of the loop, as far as groups are concerned. */
  lemma GroupsStep(sp: Splitter, rest: seq<string>, tail: seq<string>, cur: seq<string>, grown: seq<string>,
                   depth: int, d: int)
    requires rest != [] && tail == rest[1..] && grown == cur + [rest[0]] && d == depth + Depth(rest[0])
    requires cur == [] || depth != 0 || !sp.StartsBlock(rest[0])
    ensures Groups(sp, rest, cur, depth) ==
            if d == 0 && sp.Substantial(grown) && sp.CutsBefore(tail) then [grown] + Groups(sp, tail, [], d)
            else Groups(sp, tail, grown, d)
  {
  }

  /** Line `k` of an unbroken run is collected; only at its end may the loop cut. */
  lemma RunStep(sp: Splitter, q: seq<string>, k: nat, cur: seq<string>, grown: seq<string>, left: seq<string>,
                tail: seq<string>)
    requires k < |q| && Unbroken(sp, q) && cur == q[..k] && grown == q[..k + 1]
    requires left != [] && left[0] == q[k] && tail == left[1..] && (k + 1 < |q| ==> tail != [] && tail[0] == q[k + 1])
    ensures var depth, d := Depth(Unlines(cur)), Depth(Unlines(grown));
            Groups(sp, left, cur, depth) ==
              if d == 0 && sp.Substantial(grown) && sp.CutsBefore(tail) then [grown] + Groups(sp, tail, [], d)
              else Groups(sp, tail, grown, d)
    ensures k + 1 < |q| ==> Groups(sp, left, cur, Depth(Unlines(cur))) == Groups(sp, tail, grown, Depth(Unlines(grown)))
  {
    assert grown == cur + [q[k]];
    DepthGrows(cur, q[k]);
    NoBreakAt(sp, q, k);
    GroupsStep(sp, left, tail, cur, grown, Depth(Unlines(cur)), Depth(Unlines(grown)));
    if k + 1 < |q| {
      NoBreakAt(sp, q, k + 1);
    }
  }

  lemma {:induction false} NoBreakAt(sp: Splitter, q: seq<string>, k: nat)
    requires Unbroken(sp, q) && k < |q|
    ensures k > 0 ==> !Breaks(sp, q[..k], q[k])
    decreases |q|
  {
    var n := |q| - 1;
    if k < n {
      NoBreakAt(sp, q[..n], k);
      assert q[..n][..k] == q[..k];
    }
  }

  /** An unbroken run is read to its end. */
  lemma {:induction false} ReadRun(sp: Splitter, q: seq<string>, k: nat, rest: seq<string>, d: int)
    requires k < |q| && Unbroken(sp, q) && d == Depth(Unlines(q))
    ensures Groups(sp, q[k..] + rest, q[..k], Depth(Unlines(q[..k]))) ==
            if d == 0 && sp.Substantial(q) && sp.CutsBefore(rest) then [q] + Groups(sp, rest, [], d)
            else Groups(sp, rest, q, d)
    decreases |q| - k
  {
    var left, tail := q[k..] + rest, q[k + 1..] + rest;
    assert left[1..] == tail;
    RunStep(sp, q, k, q[..k], q[..k + 1], left, tail);
    if k + 1 < |q| {
      ReadRun(sp, q, k + 1, rest, d);
    } else {
      assert q[..k + 1] == q && tail == rest;
    }
  }

  // ---------------------------------------------------------------- reading a concatenation of chunks again

  /** No bracket left open, and more than one byte of text. */
  predicate Solid(sp: Splitter, q: seq<string>) {
    Depth(Unlines(q)) == 0 && sp.Substantial(q)
  }

  /** Before a blank line or a block, a solid run ends where it should; any run that ends there is cut there. */
  lemma ReadUnit(sp: Splitter, q: seq<string>, rest: seq<string>, gs: seq<seq<string>>)
    requires Unbroken(sp, q) && !AllBlank(q) && sp.CutsBefore(rest) && gs == Groups(sp, q + rest, [], 0)
    requires Solid(sp, q) || (gs != [] && gs[0] == q)
    ensures gs == [q] + Groups(sp, rest, [], 0)
  {
    var d := Depth(Unlines(q));
    assert q[0..] == q && q[..0] == [];
    ReadRun(sp, q, 0, rest, d);
    if !Solid(sp, q) && rest != [] && !(d == 0 && sp.StartsBlock(rest[0])) {
      AllBlankAppend(q, [rest[0]]);
      Regroup(sp, rest, q, d, gs);
      assert false;
    }
  }

  lemma {:induction false} Follow(sp: Splitter, hs: seq<seq<string>>, gs: seq<seq<string>>)
    requires gs == Groups(sp, Concat(hs), [], 0)
    requires forall i :: 0 <= i < |hs| ==> Unbroken(sp, hs[i]) && !AllBlank(hs[i])
    requires forall i :: 1 <= i < |hs| ==> sp.CutsBefore(hs[i])
    requires forall i :: 0 <= i < |hs| ==> Solid(sp, hs[i]) || (i < |gs| && hs[i] == gs[i])
    ensures hs == gs
    decreases |hs|
  {
    if hs != [] {
      var rest := Concat(hs[1..]);
      assert hs[1..] != [] ==> rest[0] == hs[1][0];
      ReadUnit(sp, hs[0], rest, gs);
      assert gs[1..] == Groups(sp, rest, [], 0);
      Follow(sp, hs[1..], gs[1..]);
      assert hs == [hs[0]] + hs[1..];
    }
  }

  // ---------------------------------------------------------------- carriage returns

  function Crs(line: string): nat {
    if EndsInCr(line) then 1 + Crs(line[..|line| - 1]) else 0
  }

  lemma {:induction false} StripAllAt(ls: seq<string>, i: nat)
    requires i < |ls|
    ensures StripAll(ls)[i] == StripCr(ls[i])
  {
    if i > 0 {
      StripAllAt(ls[1..], i - 1);
    }
  }

  /** If stripping lines taken from a text gives that text's lines, there was nothing to strip. */
  lemma {:induction false} NothingStripped(lines: seq<string>, taken: seq<string>, n: nat)
    requires lines == StripAll(taken) && forall i :: 0 <= i < |taken| ==> taken[i] in lines
    requires forall i :: 0 <= i < |lines| ==> Crs(lines[i]) <= n
    ensures NoCrEnds(taken)
    decreases n
  {
    forall i | 0 <= i < |taken| ensures Crs(taken[i]) <= n && Crs(lines[i]) <= if n == 0 then 0 else n - 1 {
      var j :| 0 <= j < |lines| && lines[j] == taken[i];
      StripAllAt(taken, i);
    }
    if n > 0 {
      NothingStripped(lines, taken, n - 1);
    }
  }

  lemma {:induction false} CrsBound(lines: seq<string>) returns (n: nat)
    ensures forall i :: 0 <= i < |lines| ==> Crs(lines[i]) <= n
  {
    if lines == [] {
      n := 0;
    } else {
      var m := CrsBound(lines[1..]);
      n := if Crs(lines[0]) > m then Crs(lines[0]) else m;
      assert forall i :: 1 <= i < |lines| ==> lines[i] == lines[1..][i - 1];
    }
  }

  // ---------------------------------------------------------------- where merged pieces come from

  /** Not the first chunk with its text. */
  predicate Later(cs: seq<AstChunk>, j: nat) {
    j < |cs| && Within(cs, 0, j, cs[j].text)
  }

  lemma ChangeSource(cs: seq<AstChunk>, change: AstChange) returns (j: nat)
    requires change in Changes(cs, cs) && (change.Modified? || change.Added?)
    ensures Later(cs, j) && cs[j] == if change.Modified? then change.branch else change.chunk
  {
    var es, free := Entries(cs, cs), Unseen(BranchSeen(cs, cs));
    LeftoverBound(cs, cs);
    var i :| 0 <= i < |es| && es[i].change == change;
    var k := PlaceOf(cs, cs, i);
    assert i < |cs| ==> es[i] == EntryOf(cs, cs, i);
    assert i >= |cs| ==> es[i] == AddedEntry(cs, free[k]);
    UnseenBound(BranchSeen(cs, cs), k);
    j := free[k];
  }

  lemma ResolvedSource(cs: seq<AstChunk>, vs: seq<Version>, i: nat) returns (j: nat)
    requires Contents(vs) == {cs} && i < |cs| && Outcomes(cs, vs)[i].Resolved?
    ensures j < |cs| && Outcomes(cs, vs)[i].text == cs[j].text && (j == i || Later(cs, j))
  {
    var text, t := cs[i].text, Outcomes(cs, vs)[i].text;
    ResolvedExactly(cs, vs, i, t);
    if t == text {
      j := i;
    } else {
      var b: AstChunk, c: AstChunk :| b.text == text && c.text == t && Made(cs, Contents(vs), Modified(b, c));
      j := ChangeSource(cs, Modified(b, c));
    }
  }

  lemma AddedSource(cs: seq<AstChunk>, vs: seq<Version>, t: string) returns (j: nat)
    requires Contents(vs) == {cs} && t in Dedupe(Additions(cs, vs))
    ensures Later(cs, j) && t == cs[j].text
  {
    DedupeIff(Additions(cs, vs), t);
    var c :| c in Additions(cs, vs) && c.text == t;
    AdditionsIff(cs, vs, c);
    UntouchedContent(cs, vs);
    j := ChangeSource(cs, Added(c));
  }

  /** Piece `i` is a copy of chunk `j`: of its own chunk, or of one that is not the first with its text. */
  predicate Copies(cs: seq<AstChunk>, pieces: seq<string>, i: nat, j: nat) {
    i < |pieces| && j < |cs| && pieces[i] == cs[j].text && (j == i || Later(cs, j))
  }

  lemma PieceSource(cs: seq<AstChunk>, vs: seq<Version>, pieces: seq<string>, i: nat) returns (j: nat)
    requires Contents(vs) == {cs} && ConflictsOf(Outcomes(cs, vs)) == []
    requires pieces == MergedPieces(cs, vs) && i < |pieces|
    ensures Copies(cs, pieces, i, j)
  {
    var os := Outcomes(cs, vs);
    if i < |cs| {
      if os[i].Conflicting? { ConflictsIff(os, os[i].block); }
      j := ResolvedSource(cs, vs, i);
    } else {
      j := AddedSource(cs, vs, pieces[i]);
    }
  }

  ghost predicate HasSource(cs: seq<AstChunk>, pieces: seq<string>, i: nat) {
    exists j: nat :: Copies(cs, pieces, i, j)
  }

  ghost function SourceOf(cs: seq<AstChunk>, pieces: seq<string>, i: nat): (j: nat)
    requires HasSource(cs, pieces, i)
    ensures Copies(cs, pieces, i, j)
  {
    var j: nat :| Copies(cs, pieces, i, j);
    j
  }

  /** The chunk each piece is a copy of. */
  ghost function Sources(cs: seq<AstChunk>, pieces: seq<string>): (src: seq<nat>)
    requires forall i :: 0 <= i < |pieces| ==> HasSource(cs, pieces, i)
    ensures |src| == |pieces| && forall i :: 0 <= i < |src| ==> Copies(cs, pieces, i, src[i])
  {
    seq(|pieces|, i requires 0 <= i < |pieces| => SourceOf(cs, pieces, i))
  }

  // ---------------------------------------------------------------- the merged text

  lemma {:induction false} ConcatUnlines(pieces: seq<string>, hs: seq<seq<string>>)
    requires |pieces| == |hs| && forall i :: 0 <= i < |hs| ==> pieces[i] == Unlines(hs[i])
    ensures Concat(pieces) == Unlines(Concat(hs))
  {
    if hs != [] {
      ConcatUnlines(pieces[1..], hs[1..]);
      UnlinesAppend(hs[0], Concat(hs[1..]));
    }
  }

  lemma {:induction false} TilesTake(lines: seq<string>, from: nat, ps: seq<Piece>, k: nat, line: string)
    requires Tiles(lines, from, ps) && k < |ps| && line in ps[k].lines
    ensures line in lines
    decreases |ps|
  {
    if k > 0 {
      TilesTake(lines, ps[0].lineStart + |ps[0].lines|, ps[1..], k - 1, line);
    }
  }

  lemma {:induction false} ConcatHas<T>(parts: seq<seq<T>>, x: T) returns (i: nat)
    requires x in Concat(parts)
    ensures i < |parts| && x in parts[i]
  {
    if x in parts[0] {
      i := 0;
    } else {
      var j := ConcatHas(parts[1..], x);
      i := j + 1;
    }
  }

  /** The groups of lines the pieces were copied from. */
  function Copied(ps: seq<Piece>, src: seq<nat>): (hs: seq<seq<string>>)
    requires forall i :: 0 <= i < |src| ==> src[i] < |ps|
    ensures |hs| == |src| && forall i :: 0 <= i < |src| ==> hs[i] == ps[src[i]].lines
  {
    seq(|src|, i requires 0 <= i < |src| => ps[src[i]].lines)
  }

  /** If copied lines spell the base, they are its lines. */
  lemma CopiedLines(sp: Splitter, base: string, src: seq<nat>, hs: seq<seq<string>>)
    requires forall i :: 0 <= i < |src| ==> src[i] < |sp.Pieces(base)|
    requires hs == Copied(sp.Pieces(base), src) && base == Unlines(Concat(hs))
    ensures Lines(base) == Concat(hs)
  {
    var lines, taken := Lines(base), Concat(hs);
    ChunksTile(sp, base);
    LinesHaveNoFeed(base);
    forall i | 0 <= i < |taken| ensures taken[i] in lines {
      var k := ConcatHas(hs, taken[i]);
      TilesTake(lines, 0, sp.Pieces(base), src[k], taken[i]);
    }
    LinesStrip(taken);
    var n := CrsBound(lines);
    NothingStripped(lines, taken, n);
    StripShrinks(taken);
  }

  /** Chunks whose text occurs more than once hold more than one byte besides surrounding whitespace. */
  ghost predicate RepeatsSubstantial(sp: Splitter, base: string) {
    forall j :: 0 <= j < |sp.Pieces(base)| && Later(sp.Chunks(base), j) ==> sp.Substantial(sp.Pieces(base)[j].lines)
  }

  lemma BaseGroups(sp: Splitter, base: string)
    ensures Regular(sp, Bodies(sp.Pieces(base)), true)
    ensures !Blank(base) ==> Bodies(sp.Pieces(base)) == Groups(sp, Lines(base), [], 0)
  {
    if !Blank(base) {
      GroupsOfCut(sp, Lines(base), [], 0, 0, sp.Pieces(base));
      GroupsRegular(sp, Lines(base), [], 0, true);
    }
  }

  /** A later copy is as balanced as the first chunk with its text. */
  lemma LaterSolid(sp: Splitter, base: string, j: nat)
    requires RepeatsSubstantial(sp, base) && Later(sp.Chunks(base), j)
    ensures Solid(sp, sp.Pieces(base)[j].lines)
  {
    var cs := sp.Chunks(base);
    ChunksBalance(sp, base);
    var i :| 0 <= i < j && cs[i].text == cs[j].text;
    assert Depth(cs[i].text) == 0;
  }

  lemma CopyRegular(sp: Splitter, base: string, pieces: seq<string>, i: nat, j: nat)
    requires RepeatsSubstantial(sp, base) && Copies(sp.Chunks(base), pieces, i, j)
    ensures var h, gs := sp.Pieces(base)[j].lines, Bodies(sp.Pieces(base));
            && Unbroken(sp, h) && !AllBlank(h) && (i >= 1 ==> sp.CutsBefore(h)) && pieces[i] == Unlines(h)
            && (Solid(sp, h) || (i < |gs| && h == gs[i]))
  {
    BaseGroups(sp, base);
    RegularAt(sp, Bodies(sp.Pieces(base)), true, j);
    if Later(sp.Chunks(base), j) { LaterSolid(sp, base, j); }
  }

  /** Copies that spell the base are its own chunks, in order. */
  lemma {:induction false} CopiesAlign(sp: Splitter, base: string, pieces: seq<string>, src: seq<nat>)
    requires RepeatsSubstantial(sp, base) && |src| == |pieces|
    requires forall i :: 0 <= i < |src| ==> Copies(sp.Chunks(base), pieces, i, src[i])
    requires Concat(pieces) == base
    ensures pieces == Texts(sp.Chunks(base)) && base == Unlines(KeptLines(sp.Pieces(base)))
  {
    var ps := sp.Pieces(base);
    var hs, gs := Copied(ps, src), Bodies(ps);
    forall i | 0 <= i < |hs|
      ensures Unbroken(sp, hs[i]) && !AllBlank(hs[i]) && (i >= 1 ==> sp.CutsBefore(hs[i]))
          && pieces[i] == Unlines(hs[i])
      ensures Solid(sp, hs[i]) || (i < |gs| && hs[i] == gs[i])
    {
      CopyRegular(sp, base, pieces, i, src[i]);
    }
    ConcatUnlines(pieces, hs);
    CopiedLines(sp, base, src, hs);
    BaseGroups(sp, base);
    if !Blank(base) {
      Follow(sp, hs, gs);
    }
  }

  predicate Untouched(base: string, branches: seq<Branch>) {
    branches != [] && forall i :: 0 <= i < |branches| ==> branches[i].content == base
  }

  predicate Aligned(base: seq<AstChunk>) {
    EarlierCopies(base) == LaterCopies(base)
  }

  lemma UntouchedVersions(sp: Splitter, base: string, branches: seq<Branch>)
    requires Untouched(base, branches)
    ensures Contents(Split(sp, branches)) == {sp.Chunks(base)}
  {
    var vs := Split(sp, branches);
    assert vs[0] in vs;
  }

  /** What cutting keeps of a text, written out again. */
  function KeptText(sp: Splitter, base: string): string {
    Unlines(KeptLines(sp.Pieces(base)))
  }

  /** If the copies of repeated chunks line up, a merge with untouched branches gives, without conflict, what cutting
      keeps of the base. It gives the base back, without conflict, only if the copies line up and cutting loses nothing,
      provided repeated chunks hold more than one byte of text. */
  lemma UntouchedExactly(sp: Splitter, base: string, branches: seq<Branch>, language: SyntaxGate.Language)
    requires Untouched(base, branches)
    ensures var r := MergeTexts(sp, base, branches, language);
            && (Aligned(sp.Chunks(base)) ==> r.conflicts == [] && r.merged == KeptText(sp, base))
            && (RepeatsSubstantial(sp, base) ==>
                  (r.conflicts == [] && r.merged == base <==> Aligned(sp.Chunks(base)) && KeptText(sp, base) == base))
  {
    var cs, vs := sp.Chunks(base), Split(sp, branches);
    var r, pieces := MergeTexts(sp, base, branches, language), MergedPieces(cs, vs);
    UntouchedVersions(sp, base, branches);
    UntouchedMerge(cs, vs);
    TextsAreKeptLines(sp.Pieces(base));
    if RepeatsSubstantial(sp, base) && r.conflicts == [] && r.merged == base {
      forall i | 0 <= i < |pieces| ensures HasSource(cs, pieces, i) {
        var j := PieceSource(cs, vs, pieces, i);
      }
      CopiesAlign(sp, base, pieces, Sources(cs, pieces));
    }
  }
}
