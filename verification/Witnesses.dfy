/** Inputs on which the code does not do what it says: small sources, and what becomes of them. */
module Witnesses {
  import opened Text
  import opened SyntaxGate
  import opened GateTheory
  import opened Chunker
  import opened Rechunk
  import opened Diff
  import opened DiffTheory
  import opened Merge
  import opened MergeTheory
  import opened Overlay
  import opened SelfMerge
  import opened UntouchedText
  import opened ResolutionTheory
  import opened ResolveAll

  // ---------------------------------------------------------------- one chunk per line

  /** A line that is a block of its own. */
  predicate Item(sp: Splitter, line: string) {
    sp.StartsBlock(line) && Depth(line) == 0 && Clean(line)
  }

  predicate Items(sp: Splitter, ls: seq<string>) {
    ls == [] || (Item(sp, ls[0]) && Items(sp, ls[1..]))
  }

  function OnePerLine(ls: seq<string>, start: nat): seq<Piece> {
    if ls == [] then [] else [Piece(start, [ls[0]])] + OnePerLine(ls[1..], start + 1)
  }

  lemma ItemChunk(sp: Splitter, line: string, tail: seq<string>, start: nat)
    requires Item(sp, line) && (tail == [] || sp.StartsBlock(tail[0]))
    ensures sp.Cut([line] + tail, [], start, 0) == [Piece(start, [line])] + sp.Cut(tail, [], start + 1, 0)
  {
    var rest := [line] + tail;
    sp.CutStep(rest, [], [line], start, start + 1, 0, 0, tail);
    assert !AllBlank([line]);
  }

  lemma {:induction false} ItemsCut(sp: Splitter, ls: seq<string>, start: nat)
    requires Items(sp, ls)
    ensures sp.Cut(ls, [], start, 0) == OnePerLine(ls, start)
    decreases |ls|
  {
    if ls != [] {
      ItemsCut(sp, ls[1..], start + 1);
      ItemChunk(sp, ls[0], ls[1..], start);
      assert [ls[0]] + ls[1..] == ls;
    }
  }

  lemma {:induction false} ItemsClean(sp: Splitter, ls: seq<string>)
    requires Items(sp, ls)
    ensures forall i :: 0 <= i < |ls| ==> Clean(ls[i])
    ensures AllBlank(ls) ==> ls == []
  {
    if ls != [] {
      ItemsClean(sp, ls[1..]);
    }
  }

  lemma ItemsPieces(sp: Splitter, ls: seq<string>)
    requires Items(sp, ls)
    ensures Lines(Unlines(ls)) == ls && sp.Pieces(Unlines(ls)) == OnePerLine(ls, 0)
  {
    ItemsClean(sp, ls);
    LinesOfUnlines(ls);
    BlankUnlines(ls);
    ItemsCut(sp, ls, 0);
  }

  // ---------------------------------------------------------------- the lines used below

  /** An import of a one-letter name. */
  function UseLine(x: char): string {
    ['u', 's', 'e', ' ', x, ';']
  }

  lemma TrimInk(s: string)
    requires s != [] && !IsSpace(s[0]) && !IsSpace(s[|s| - 1])
    ensures Trim(s) == s && !Blank(s)
  {
  }

  lemma {:induction false} PlainDepth(t: string)
    requires PlainText(t)
    ensures Depth(t) == 0
  {
    if t != [] {
      PlainDepth(t[1..]);
    }
  }

  lemma UseLineItem(sp: Splitter, x: char)
    requires "use " in sp.keywords && 'a' <= x <= 'z'
    ensures Item(sp, UseLine(x)) && sp.Substantial([UseLine(x)])
  {
    var line := UseLine(x);
    TrimInk(line);
    PlainDepth(line);
    assert "use " <= line;
    assert JoinLines([line]) == line;
    assert line[1..][1..] != [];
  }

  lemma OneLine(line: string)
    ensures Unlines([line]) == line + "\n" && Concat([[line]]) == [line]
  {
    assert [[line]][1..] == [];
  }

  lemma UseLineAccepted(x: char)
    requires 'a' <= x <= 'z'
    ensures Sound(Unlines([UseLine(x)]))
  {
    var t := Unlines([UseLine(x)]);
    OneLine(UseLine(x));
    PlainFine(t);
    NeutralGate(t);
  }

  // ---------------------------------------------------------------- carriage returns

  /** A line ending in two carriage returns loses one of them each time it is cut: this source is not cut the same way
      again, whatever the keywords. */
  lemma RechunkDrifts(sp: Splitter)
    ensures var texts := Texts(sp.Chunks("fn a\r\r\n"));
            Texts(sp.Chunks(Concat(texts))) != texts
  {
    var source, line := "fn a\r\r\n", "fn a\r";
    DriftLines();
    LineAlone(sp, line);
    var ps := sp.Pieces(source);
    assert Bodies(ps) == [[line]];
    OneLine(line);
    assert EndsInCr(KeptLines(ps)[0]);
    RechunkIdempotent(sp, source);
  }

  lemma DriftLines()
    ensures Lines("fn a\r\r\n") == ["fn a\r"] && !Blank("fn a\r") && !Blank("fn a\r\r\n")
  {
    var source := "fn a\r\r\n";
    LineFeedIs(source, 6);
    assert source[..6] == "fn a\r" + "\r" && source[7..] == [];
  }

  lemma LineAlone(sp: Splitter, line: string)
    requires !Blank(line)
    ensures sp.Cut([line], [], 0, 0) == [Piece(0, [line])]
  {
    sp.CutStep([line], [], [line], 0, 1, 0, Depth(line), []);
    assert !AllBlank([line]);
  }

  // ---------------------------------------------------------------- untouched branches

  /** Imports of x, y, y and x, in this order, come back as imports of y, x, x and y, without a conflict. */
  lemma ImportsScrambled(sp: Splitter, branches: seq<Branch>, language: Language, x: char, y: char)
    requires "use " in sp.keywords && 'a' <= x <= 'z' && 'a' <= y <= 'z' && x != y
    requires Untouched(Unlines([UseLine(x), UseLine(y), UseLine(y), UseLine(x)]), branches)
    ensures var base := Unlines([UseLine(x), UseLine(y), UseLine(y), UseLine(x)]);
            var r := MergeTexts(sp, base, branches, language);
            r.conflicts == [] && r.merged == Unlines([UseLine(y), UseLine(x), UseLine(x), UseLine(y)])
  {
    UseLineItem(sp, x);
    UseLineItem(sp, y);
    assert UseLine(x)[4] != UseLine(y)[4];
    ScrambledLines(sp, UseLine(x), UseLine(y), branches, language);
  }

  /** The same for any two lines that are blocks of their own. */
  lemma ScrambledLines(sp: Splitter, a: string, b: string, branches: seq<Branch>, language: Language)
    requires Item(sp, a) && Item(sp, b) && a != b && Untouched(Unlines([a, b, b, a]), branches)
    ensures var r := MergeTexts(sp, Unlines([a, b, b, a]), branches, language);
            r.conflicts == [] && r.merged == Unlines([b, a, a, b])
  {
    var ls := [a, b, b, a];
    var base := Unlines(ls);
    var cs, vs := sp.Chunks(base), Split(sp, branches);
    FourItems(sp, a, b);
    ItemsPieces(sp, ls);
    FourPieces(a, b, b, a);
    LineTexts(a, b);
    UntouchedVersions(sp, base, branches);
    UntouchedMergeScrambles(cs, vs);
    FourTexts(b, a, a, b);
  }

  lemma FourItems(sp: Splitter, a: string, b: string)
    requires Item(sp, a) && Item(sp, b)
    ensures Items(sp, [a, b, b, a])
  {
    ItemsPush(sp, a, []);
    ItemsPush(sp, b, [a]);
    ItemsPush(sp, b, [b, a]);
    ItemsPush(sp, a, [b, b, a]);
    assert [a] + [] == [a] && [b] + [a] == [b, a] && [b] + [b, a] == [b, b, a] && [a] + [b, b, a] == [a, b, b, a];
  }

  lemma ItemsPush(sp: Splitter, line: string, ls: seq<string>)
    requires Item(sp, line) && Items(sp, ls)
    ensures Items(sp, [line] + ls)
  {
    assert ([line] + ls)[1..] == ls;
  }

  lemma FourPieces(a: string, b: string, c: string, d: string)
    ensures OnePerLine([a, b, c, d], 0) == [Piece(0, [a]), Piece(1, [b]), Piece(2, [c]), Piece(3, [d])]
  {
    PerLine(a, [b, c, d], 0);
    PerLine(b, [c, d], 1);
    PerLine(c, [d], 2);
    PerLine(d, [], 3);
    assert [a] + [b, c, d] == [a, b, c, d] && [b] + [c, d] == [b, c, d] && [c] + [d] == [c, d] && [d] + [] == [d];
  }

  lemma PerLine(line: string, ls: seq<string>, start: nat)
    ensures OnePerLine([line] + ls, start) == [Piece(start, [line])] + OnePerLine(ls, start + 1)
  {
    assert ([line] + ls)[1..] == ls;
  }

  lemma LineTexts(a: string, b: string)
    ensures Unlines([a]) == Unlines([b]) <==> a == b
  {
    OneLine(a);
    OneLine(b);
    assert (a + "\n")[..|a|] == a && (b + "\n")[..|b|] == b;
  }

  lemma FourTexts(a: string, b: string, c: string, d: string)
    ensures Concat([Unlines([a]), Unlines([b]), Unlines([c]), Unlines([d])]) == Unlines([a, b, c, d])
  {
    ConcatUnlines([Unlines([a]), Unlines([b]), Unlines([c]), Unlines([d])], [[a], [b], [c], [d]]);
    assert [[a], [b], [c], [d]][1..] == [[b], [c], [d]] && [[b], [c], [d]][1..] == [[c], [d]];
    assert [[c], [d]][1..] == [[d]] && Concat([[d]]) == [d];
    assert Concat([[c], [d]]) == [c, d] && Concat([[b], [c], [d]]) == [b, c, d];
  }

  /** A blank line between two imports is dropped: the copies line up, and yet the base does not come back. */
  lemma BlankLineLost(sp: Splitter, branches: seq<Branch>, language: Language, x: char, y: char)
    requires "use " in sp.keywords && 'a' <= x <= 'z' && 'a' <= y <= 'z' && x != y
    requires Untouched(Unlines([UseLine(x), "", UseLine(y)]), branches)
    ensures var base := Unlines([UseLine(x), "", UseLine(y)]);
            var r := MergeTexts(sp, base, branches, language);
            && Aligned(sp.Chunks(base)) && r.conflicts == []
            && r.merged == Unlines([UseLine(x), UseLine(y)]) && r.merged != base
  {
    UseLineItem(sp, x);
    UseLineItem(sp, y);
    assert UseLine(x)[4] != UseLine(y)[4];
    GapLost(sp, UseLine(x), UseLine(y), branches, language);
  }

  lemma GapLost(sp: Splitter, a: string, b: string, branches: seq<Branch>, language: Language)
    requires Item(sp, a) && Item(sp, b) && a != b && sp.Substantial([a]) && Untouched(Unlines([a, "", b]), branches)
    ensures var base := Unlines([a, "", b]);
            var r := MergeTexts(sp, base, branches, language);
            && Aligned(sp.Chunks(base)) && r.conflicts == [] && r.merged == Unlines([a, b]) && r.merged != base
  {
    GapKept(sp, a, b);
    UntouchedExactly(sp, Unlines([a, "", b]), branches, language);
    GapLength(a, b);
  }

  lemma GapKept(sp: Splitter, a: string, b: string)
    requires Item(sp, a) && Item(sp, b) && a != b && sp.Substantial([a])
    ensures var base := Unlines([a, "", b]); Aligned(sp.Chunks(base)) && KeptText(sp, base) == Unlines([a, b])
  {
    var base := Unlines([a, "", b]);
    GapPieces(sp, a, b);
    LineTexts(a, b);
    DistinctAligned(sp.Chunks(base));
    assert Bodies(sp.Pieces(base)) == [[a], [b]];
    TwoKept(a, b);
  }

  lemma TwoKept(a: string, b: string)
    ensures Concat([[a], [b]]) == [a, b]
  {
    assert [[a], [b]][1..] == [[b]] && [[b]][1..] == [] && Concat([[b]]) == [b];
  }

  lemma GapLength(a: string, b: string)
    ensures |Unlines([a, "", b])| == |Unlines([a, b])| + 1
  {
    assert [a, "", b][1..] == ["", b] && ["", b][1..] == [b] && [a, b][1..] == [b];
  }

  lemma GapPieces(sp: Splitter, a: string, b: string)
    requires Item(sp, a) && Item(sp, b) && sp.Substantial([a])
    ensures sp.Pieces(Unlines([a, "", b])) == [Piece(0, [a]), Piece(2, [b])]
  {
    var ls := [a, "", b];
    LinesOfUnlines(ls);
    BlankUnlines(ls);
    assert !AllBlank(ls);
    NoText(sp, "");
    GapCut(sp, a, "", b);
  }

  lemma GapCut(sp: Splitter, a: string, gap: string, b: string)
    requires Item(sp, a) && Item(sp, b) && sp.Substantial([a])
    requires Blank(gap) && Depth(gap) == 0 && !sp.Substantial([gap])
    ensures sp.Cut([a, gap, b], [], 0, 0) == [Piece(0, [a]), Piece(2, [b])]
  {
    assert [a, gap, b][1..] == [gap, b] && [gap, b][1..] == [b];
    sp.CutStep([a, gap, b], [], [a], 0, 1, 0, 0, [gap, b]);
    sp.CutStep([gap, b], [], [gap], 1, 2, 0, 0, [b]);
    DroppedGap(sp, gap, b);
  }

  lemma DroppedGap(sp: Splitter, gap: string, b: string)
    requires Blank(gap) && Item(sp, b)
    ensures sp.Cut([b], [gap], 1, 0) == [Piece(2, [b])]
  {
    ItemChunk(sp, b, [], 2);
    assert [b] + [] == [b] && AllBlank([gap]);
    assert sp.Cut([b], [gap], 1, 0) == sp.Flush([gap], 1) + sp.Cut([b], [], 2, 0);
  }

  lemma NoText(sp: Splitter, gap: string)
    requires gap == ""
    ensures !sp.Substantial([gap]) && Depth(gap) == 0 && Blank(gap)
  {
    assert JoinLines([gap]) == gap && Trim(gap) == "";
  }

  lemma DistinctAligned(cs: seq<AstChunk>)
    requires Distinct(cs)
    ensures Aligned(cs)
  {
    AllSeen(BaseSeen(cs, cs));
    AllSeen(BranchSeen(cs, cs));
  }

  // ---------------------------------------------------------------- conflict markers

  /** Two branches that turn the only chunk of the base into different texts are in conflict. */
  lemma TwoTurns(cs: seq<AstChunk>, vs: seq<Version>)
    requires |cs| == 1 && |vs| == 2 && |vs[0].chunks| == 1 && |vs[1].chunks| == 1
    requires vs[0].chunks[0].text != cs[0].text && vs[1].chunks[0].text != cs[0].text
    requires vs[0].chunks[0].text != vs[1].chunks[0].text
    ensures ConflictsOf(Outcomes(cs, vs)) != []
  {
    OneTurned(cs, vs, 0);
    OneTurned(cs, vs, 1);
    ConflictExactly(cs, vs, 0);
    var os := Outcomes(cs, vs);
    ConflictsIff(os, os[0].block);
  }

  predicate Letters(x: char, y: char, z: char) {
    'a' <= x <= 'z' && 'a' <= y <= 'z' && 'a' <= z <= 'z' && x != y && x != z && y != z
  }

  /** Three sources of one import each. */
  predicate Imports(base: string, branches: seq<Branch>, x: char, y: char, z: char) {
    && |branches| == 2 && base == Unlines([UseLine(x)])
    && branches[0].content == Unlines([UseLine(y)]) && branches[1].content == Unlines([UseLine(z)])
  }

  /** Three accepted sources whose merge has a conflict, and whose merged text passes the gate all the same. */
  lemma MarkersPass(sp: Splitter, base: string, branches: seq<Branch>, language: Language, x: char, y: char, z: char)
    requires "use " in sp.keywords && Letters(x, y, z) && Imports(base, branches, x, y, z)
    ensures var r := MergeTexts(sp, base, branches, language);
            Accepted(base, branches) && r.conflicts != [] && !r.syntaxValid && Passes(r.merged, language)
  {
    ImportsAccepted(base, branches, x, y, z);
    MarkedMergePasses(sp, base, branches, language);
    ThreeConflict(sp, base, branches, x, y, z);
  }

  predicate Sound(t: string) {
    Neutral(t) && Accepts(t)
  }

  lemma AllSound(base: string, branches: seq<Branch>)
    requires Sound(base) && forall i :: 0 <= i < |branches| ==> Sound(branches[i].content)
    ensures Accepted(base, branches)
  {
  }

  lemma ImportsAccepted(base: string, branches: seq<Branch>, x: char, y: char, z: char)
    requires Letters(x, y, z) && Imports(base, branches, x, y, z)
    ensures Accepted(base, branches)
  {
    forall i | 0 <= i < 2 ensures Sound(branches[i].content) {
      UseLineAccepted(if i == 0 then y else z);
    }
    UseLineAccepted(x);
    AllSound(base, branches);
  }

  lemma ThreeConflict(sp: Splitter, base: string, branches: seq<Branch>, x: char, y: char, z: char)
    requires "use " in sp.keywords && Letters(x, y, z) && Imports(base, branches, x, y, z)
    ensures ConflictsOf(Outcomes(sp.Chunks(base), Split(sp, branches))) != []
  {
    UseChunk(sp, x);
    UseChunk(sp, y);
    UseChunk(sp, z);
    UseLinesDiffer(y, x);
    UseLinesDiffer(z, x);
    UseLinesDiffer(y, z);
    TwoTurns(sp.Chunks(base), Split(sp, branches));
  }

  lemma UseChunk(sp: Splitter, x: char)
    requires "use " in sp.keywords && 'a' <= x <= 'z'
    ensures sp.Chunks(Unlines([UseLine(x)])) == [AstChunk(Unlines([UseLine(x)]), 0)]
  {
    UseLineItem(sp, x);
    assert [UseLine(x)][1..] == [];
    ItemsPieces(sp, [UseLine(x)]);
    assert OnePerLine([UseLine(x)], 0) == [Piece(0, [UseLine(x)])];
  }

  lemma UseLinesDiffer(x: char, y: char)
    requires x != y
    ensures Unlines([UseLine(x)]) != Unlines([UseLine(y)])
  {
    assert UseLine(x)[4] != UseLine(y)[4];
    LineTexts(UseLine(x), UseLine(y));
  }

  /** A branch with one chunk of another text turns the only chunk of the base into it. */
  lemma OneTurned(cs: seq<AstChunk>, vs: seq<Version>, k: nat)
    requires |cs| == 1 && k < |vs| && |vs[k].chunks| == 1 && vs[k].chunks[0].text != cs[0].text
    ensures Turned(cs, Contents(vs), cs[0].text, vs[k].chunks[0].text)
  {
    var branch := vs[k].chunks;
    InPlaceChanges(cs, branch);
    assert Changes(cs, branch)[0] == Modified(cs[0], branch[0]);
    assert vs[k] in vs && branch in Contents(vs);
    assert Made(cs, Contents(vs), Modified(cs[0], branch[0]));
  }
}
