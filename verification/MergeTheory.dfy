/** What a merge guarantees, for any number of branches and with repeated chunks. */
module MergeTheory {
  import opened Text
  import opened SyntaxGate
  import opened GateTheory
  import opened Chunker
  import opened ChunkTheory
  import opened Diff
  import opened DiffTheory
  import opened Merge

  // ---------------------------------------------------------------- where decisions come from

  lemma InSnoc<T>(s: seq<T>, front: seq<T>, last: T)
    requires s != [] && front == s[..|s| - 1] && last == s[|s| - 1]
    ensures forall x :: x in s <==> x in front || x == last
  {
    assert s == front + [last];
  }

  lemma {:induction false} FiledIff(id: string, changes: seq<AstChange>, text: string, d: Decision)
    ensures d in Filed(id, changes, text) <==> d.id == id && d.change in changes && FiledUnder(d.change, text)
    decreases |changes|
  {
    if changes != [] {
      var n := |changes| - 1;
      FiledIff(id, changes[..n], text, d);
      InSnoc(changes, changes[..n], changes[n]);
    }
  }

  /** The branches' contents, whatever their names, order and number. */
  ghost function Contents(versions: seq<Version>): set<seq<AstChunk>> {
    set v | v in versions :: v.chunks
  }

  /** The diff of some content makes this change. */
  ghost predicate Made(base: seq<AstChunk>, contents: set<seq<AstChunk>>, change: AstChange) {
    exists chunks :: chunks in contents && change in Changes(base, chunks)
  }

  lemma MadeIff(base: seq<AstChunk>, versions: seq<Version>, change: AstChange)
    ensures Made(base, Contents(versions), change) <==> exists v :: v in versions && change in Changes(base, v.chunks)
  {
  }

  lemma {:induction false} DecisionsIff(base: seq<AstChunk>, versions: seq<Version>, text: string, d: Decision)
    ensures d in DecisionsOn(base, versions, text) <==>
            && FiledUnder(d.change, text)
            && exists v :: v in versions && v.id == d.id && d.change in Changes(base, v.chunks)
    decreases |versions|
  {
    if versions != [] {
      var n := |versions| - 1;
      var front, v := versions[..n], versions[n];
      DecisionsIff(base, front, text, d);
      FiledIff(v.id, Changes(base, v.chunks), text, d);
      InSnoc(versions, front, v);
    }
  }

  lemma {:induction false} ModificationsIff(ds: seq<Decision>, v: Variant)
    ensures v in Modifications(ds) <==> exists d :: d in ds && d.change.Modified? && v == Variant(d.id, d.change.branch)
    decreases |ds|
  {
    if ds != [] {
      var n := |ds| - 1;
      ModificationsIff(ds[..n], v);
      InSnoc(ds, ds[..n], ds[n]);
    }
  }

  lemma {:induction false} DeletionsIff(ds: seq<Decision>)
    ensures Deletions(ds) != [] <==> exists d :: d in ds && d.change.Deleted?
    decreases |ds|
  {
    if ds != [] {
      var n := |ds| - 1;
      DeletionsIff(ds[..n]);
      InSnoc(ds, ds[..n], ds[n]);
    }
  }

  lemma {:induction false} AddedIff(changes: seq<AstChange>, c: AstChunk)
    ensures c in AddedIn(changes) <==> Added(c) in changes
    decreases |changes|
  {
    if changes != [] {
      var n := |changes| - 1;
      AddedIff(changes[..n], c);
      InSnoc(changes, changes[..n], changes[n]);
    }
  }

  lemma {:induction false} AdditionsIff(base: seq<AstChunk>, versions: seq<Version>, c: AstChunk)
    ensures c in Additions(base, versions) <==> exists v :: v in versions && Added(c) in Changes(base, v.chunks)
    decreases |versions|
  {
    if versions != [] {
      var n := |versions| - 1;
      var front, v := versions[..n], versions[n];
      AdditionsIff(base, front, c);
      AddedIff(Changes(base, v.chunks), c);
      InSnoc(versions, front, v);
    }
  }

  lemma {:induction false} DedupeIff(cs: seq<AstChunk>, t: string)
    ensures t in Dedupe(cs) <==> exists c :: c in cs && c.text == t
    decreases |cs|
  {
    if cs != [] {
      var n := |cs| - 1;
      DedupeIff(cs[..n], t);
      InSnoc(cs, cs[..n], cs[n]);
    }
  }

  lemma {:induction false} ConflictsIff(os: seq<Outcome>, b: ConflictBlock)
    ensures b in ConflictsOf(os) <==> Conflicting(b) in os
    decreases |os|
  {
    if os != [] {
      var n := |os| - 1;
      ConflictsIff(os[..n], b);
      InSnoc(os, os[..n], os[n]);
    }
  }

  lemma NoConflicts(os: seq<Outcome>)
    requires forall i :: 0 <= i < |os| ==> os[i].Resolved?
    ensures ConflictsOf(os) == []
  {
    if ConflictsOf(os) != [] {
      ConflictsIff(os, ConflictsOf(os)[0]);
    }
  }

  lemma NoAdditions(base: seq<AstChunk>, versions: seq<Version>)
    requires forall v :: v in versions ==> forall c :: c in Changes(base, v.chunks) ==> !c.Added?
    ensures Additions(base, versions) == []
  {
    if Additions(base, versions) != [] {
      AdditionsIff(base, versions, Additions(base, versions)[0]);
    }
  }

  // ---------------------------------------------------------------- when a chunk conflicts

  /** Some branch deletes this text. */
  ghost predicate Removed(base: seq<AstChunk>, contents: set<seq<AstChunk>>, text: string) {
    exists c: AstChunk :: c.text == text && Made(base, contents, Deleted(c))
  }

  /** Some branch turns this text into that one. */
  ghost predicate Turned(base: seq<AstChunk>, contents: set<seq<AstChunk>>, text: string, into: string) {
    exists b: AstChunk, c: AstChunk :: b.text == text && c.text == into && Made(base, contents, Modified(b, c))
  }

  /** Two modifications of this text differ. */
  ghost predicate Contested(base: seq<AstChunk>, contents: set<seq<AstChunk>>, text: string) {
    exists x, y :: x != y && Turned(base, contents, text, x) && Turned(base, contents, text, y)
  }

  lemma {:induction false} RemovedIff(base: seq<AstChunk>, versions: seq<Version>, text: string)
    ensures Deletions(DecisionsOn(base, versions, text)) != [] <==> Removed(base, Contents(versions), text)
  {
    var ds := DecisionsOn(base, versions, text);
    DeletionsIff(ds);
    if Deletions(ds) != [] {
      var d :| d in ds && d.change.Deleted?;
      DecisionsIff(base, versions, text, d);
      MadeIff(base, versions, d.change);
      assert Made(base, Contents(versions), Deleted(d.change.chunk));
    }
    if Removed(base, Contents(versions), text) {
      var c: AstChunk :| c.text == text && Made(base, Contents(versions), Deleted(c));
      MadeIff(base, versions, Deleted(c));
      var v :| v in versions && Deleted(c) in Changes(base, v.chunks);
      DecisionsIff(base, versions, text, Decision(v.id, Deleted(c)));
    }
  }

  lemma {:induction false} TurnedIff(base: seq<AstChunk>, versions: seq<Version>, text: string, into: string)
    ensures (exists m :: m in Modifications(DecisionsOn(base, versions, text)) && m.chunk.text == into)
       <==> Turned(base, Contents(versions), text, into)
  {
    var ds := DecisionsOn(base, versions, text);
    if exists m :: m in Modifications(ds) && m.chunk.text == into {
      var m :| m in Modifications(ds) && m.chunk.text == into;
      ModificationsIff(ds, m);
      var d :| d in ds && d.change.Modified? && m == Variant(d.id, d.change.branch);
      DecisionsIff(base, versions, text, d);
      MadeIff(base, versions, d.change);
      assert Made(base, Contents(versions), Modified(d.change.base, d.change.branch));
    }
    if Turned(base, Contents(versions), text, into) {
      var b: AstChunk, c: AstChunk :| b.text == text && c.text == into
          && Made(base, Contents(versions), Modified(b, c));
      MadeIff(base, versions, Modified(b, c));
      var v :| v in versions && Modified(b, c) in Changes(base, v.chunks);
      var d := Decision(v.id, Modified(b, c));
      DecisionsIff(base, versions, text, d);
      ModificationsIff(ds, Variant(v.id, c));
    }
  }

  /** A base chunk conflicts exactly when some branch deletes its text or two modifications of it differ. */
  lemma ConflictExactly(base: seq<AstChunk>, versions: seq<Version>, i: nat)
    requires i < |base|
    ensures var text := base[i].text;
            Outcomes(base, versions)[i].Conflicting? <==>
            Removed(base, Contents(versions), text) || Contested(base, Contents(versions), text)
  {
    var text := base[i].text;
    var mods := Modifications(DecisionsOn(base, versions, text));
    RemovedIff(base, versions, text);
    if !Agree(mods) {
      var k :| 0 <= k < |mods| && mods[k].chunk.text != mods[0].chunk.text;
      assert mods[k] in mods && mods[0] in mods;
      TurnedIff(base, versions, text, mods[k].chunk.text);
      TurnedIff(base, versions, text, mods[0].chunk.text);
    }
    if Contested(base, Contents(versions), text) {
      var x, y :| x != y && Turned(base, Contents(versions), text, x) && Turned(base, Contents(versions), text, y);
      TurnedIff(base, versions, text, x);
      TurnedIff(base, versions, text, y);
      assert !Agree(mods);
    }
  }

  /** A resolved chunk keeps its text unless some branch turned it into another. */
  lemma ResolvedExactly(base: seq<AstChunk>, versions: seq<Version>, i: nat, t: string)
    requires i < |base| && Outcomes(base, versions)[i].Resolved?
    ensures var text := base[i].text;
            Outcomes(base, versions)[i].text == t <==>
            || Turned(base, Contents(versions), text, t)
            || (t == text && forall x :: !Turned(base, Contents(versions), text, x))
  {
    var text := base[i].text;
    var mods := Modifications(DecisionsOn(base, versions, text));
    TurnedIff(base, versions, text, t);
    if mods != [] {
      assert mods[0] in mods;
      TurnedIff(base, versions, text, mods[0].chunk.text);
    } else {
      forall x ensures !Turned(base, Contents(versions), text, x) {
        TurnedIff(base, versions, text, x);
      }
    }
  }

  lemma {:induction false} CountsAdd(os: seq<Outcome>)
    ensures ResolvedCount(os) + |ConflictsOf(os)| == |os|
    decreases |os|
  {
    if os != [] {
      CountsAdd(os[..|os| - 1]);
    }
  }

  /** Every base chunk is either resolved or reported. */
  lemma MergeConserves(base: seq<AstChunk>, versions: seq<Version>, language: Language)
    ensures var r := MergeChunks(base, versions, language); r.autoResolved + |r.conflicts| == |base|
  {
    CountsAdd(Outcomes(base, versions));
  }

  // ---------------------------------------------------------------- branch order

  /** Two merges whose branches have the same contents, in any order, under any names, any number of times:
      the same chunks conflict, the same number is resolved, resolved chunks get the same text, and the same
      texts are added. */
  lemma OrderIndependent(base: seq<AstChunk>, vs: seq<Version>, ws: seq<Version>)
    requires Contents(vs) == Contents(ws)
    ensures var os, ps := Outcomes(base, vs), Outcomes(base, ws);
            && (forall i :: 0 <= i < |base| ==> (os[i].Conflicting? <==> ps[i].Conflicting?))
            && (forall i :: 0 <= i < |base| && os[i].Resolved? ==> os[i] == ps[i])
            && ResolvedCount(os) == ResolvedCount(ps)
            && |ConflictsOf(os)| == |ConflictsOf(ps)|
            && (ConflictsOf(os) == [] ==> PiecesOf(os) == PiecesOf(ps))
    ensures forall t :: t in Dedupe(Additions(base, vs)) <==> t in Dedupe(Additions(base, ws))
  {
    var os, ps := Outcomes(base, vs), Outcomes(base, ws);
    forall i | 0 <= i < |base|
      ensures os[i].Conflicting? <==> ps[i].Conflicting?
      ensures os[i].Resolved? ==> os[i] == ps[i]
    {
      SettledSame(base, vs, ws, i);
    }
    CountsSame(os, ps);
    if ConflictsOf(os) == [] {
      forall i | 0 <= i < |base| ensures os[i] == ps[i] {
        if os[i].Conflicting? { ConflictsIff(os, os[i].block); }
      }
    }
    forall t ensures t in Dedupe(Additions(base, vs)) <==> t in Dedupe(Additions(base, ws)) {
      AdditionsSame(base, vs, ws, t);
    }
  }

  lemma AdditionsSame(base: seq<AstChunk>, vs: seq<Version>, ws: seq<Version>, t: string)
    requires Contents(vs) == Contents(ws)
    ensures t in Dedupe(Additions(base, vs)) <==> t in Dedupe(Additions(base, ws))
  {
    DedupeIff(Additions(base, vs), t);
    DedupeIff(Additions(base, ws), t);
    forall c ensures c in Additions(base, vs) <==> c in Additions(base, ws) {
      AdditionsIff(base, vs, c);
      AdditionsIff(base, ws, c);
      MadeIff(base, vs, Added(c));
      MadeIff(base, ws, Added(c));
    }
  }

  lemma SettledSame(base: seq<AstChunk>, vs: seq<Version>, ws: seq<Version>, i: nat)
    requires Contents(vs) == Contents(ws) && i < |base|
    ensures var o, p := Outcomes(base, vs)[i], Outcomes(base, ws)[i];
            (o.Conflicting? <==> p.Conflicting?) && (o.Resolved? ==> o == p)
  {
    var o := Outcomes(base, vs)[i];
    ConflictExactly(base, vs, i);
    ConflictExactly(base, ws, i);
    if o.Resolved? {
      ResolvedExactly(base, vs, i, o.text);
      ResolvedExactly(base, ws, i, o.text);
    }
  }

  lemma {:induction false} CountsSame(os: seq<Outcome>, ps: seq<Outcome>)
    requires |os| == |ps| && forall i :: 0 <= i < |os| ==> (os[i].Conflicting? <==> ps[i].Conflicting?)
    ensures ResolvedCount(os) == ResolvedCount(ps) && |ConflictsOf(os)| == |ConflictsOf(ps)|
    decreases |os|
  {
    if os != [] {
      CountsSame(os[..|os| - 1], ps[..|ps| - 1]);
    }
  }

  // ---------------------------------------------------------------- a conflict-free merge passes the gate

  /** Every chunk text of the base and of the branches. */
  ghost function Pool(base: seq<AstChunk>, versions: seq<Version>): set<string> {
    (set c | c in base :: c.text) + (set v, c | v in versions && c in v.chunks :: c.text)
  }

  lemma ChangeOrigin(base: seq<AstChunk>, branch: seq<AstChunk>, change: AstChange)
    requires change in Changes(base, branch)
    ensures change.Modified? ==> change.branch in branch
    ensures change.Added? ==> change.chunk in branch
  {
    var es := Entries(base, branch);
    LeftoverBound(base, branch);
    var p :| 0 <= p < |es| && es[p].change == change;
    if p < |base| {
      assert es[p] == EntryOf(base, branch, p);
      var k := PlaceOf(base, branch, p);
      if k < |Unseen(BranchSeen(base, branch))| {
        UnseenBound(BranchSeen(base, branch), k);
      }
    }
  }

  lemma VariantOrigin(base: seq<AstChunk>, versions: seq<Version>, text: string, m: Variant)
    requires m in Modifications(DecisionsOn(base, versions, text))
    ensures m.chunk.text in Pool(base, versions)
  {
    var ds := DecisionsOn(base, versions, text);
    ModificationsIff(ds, m);
    var d :| d in ds && d.change.Modified? && m == Variant(d.id, d.change.branch);
    DecisionsIff(base, versions, text, d);
    var v :| v in versions && v.id == d.id && d.change in Changes(base, v.chunks);
    ChangeOrigin(base, v.chunks, d.change);
  }

  /** Resolved pieces and additions are chunk texts of the sources. */
  lemma PieceOrigin(base: seq<AstChunk>, versions: seq<Version>)
    ensures forall i :: 0 <= i < |base| && Outcomes(base, versions)[i].Resolved? ==>
              Outcomes(base, versions)[i].text in Pool(base, versions)
    ensures forall t :: t in Dedupe(Additions(base, versions)) ==> t in Pool(base, versions)
  {
    var os := Outcomes(base, versions);
    forall i | 0 <= i < |base| && os[i].Resolved? ensures os[i].text in Pool(base, versions) {
      var mods := Modifications(DecisionsOn(base, versions, base[i].text));
      if mods != [] {
        assert mods[0] in mods;
        VariantOrigin(base, versions, base[i].text, mods[0]);
      } else {
        assert base[i] in base;
      }
    }
    forall t | t in Dedupe(Additions(base, versions)) ensures t in Pool(base, versions) {
      DedupeIff(Additions(base, versions), t);
      var c :| c in Additions(base, versions) && c.text == t;
      AdditionsIff(base, versions, c);
      var v :| v in versions && Added(c) in Changes(base, v.chunks);
      ChangeOrigin(base, v.chunks, Added(c));
    }
  }

  /** Sources whose chunks close what they open merge into a valid text, unless they conflict. Any text is
      allowed here, with strings and comments. */
  lemma ComposableMergeIsValid(base: seq<AstChunk>, versions: seq<Version>, language: Language)
    requires Composable(Pool(base, versions))
    ensures var r := MergeChunks(base, versions, language); r.syntaxValid <==> r.conflicts == []
  {
    var os, pieces := Outcomes(base, versions), MergedPieces(base, versions);
    if ConflictsOf(os) == [] {
      PieceOrigin(base, versions);
      forall k | 0 <= k < |pieces| ensures pieces[k] in Pool(base, versions) {
        if k < |base| {
          if os[k].Conflicting? { ConflictsIff(os, os[k].block); }
        } else {
          assert pieces[k] in Dedupe(Additions(base, versions));
        }
      }
      ComposedPasses(Pool(base, versions), pieces);
    }
  }

  lemma {:induction false} NeutralUnlines(ls: seq<string>)
    requires forall i :: 0 <= i < |ls| ==> Neutral(ls[i])
    ensures Neutral(Unlines(ls))
  {
    if ls != [] {
      NeutralUnlines(ls[1..]);
    }
  }

  lemma {:induction false} TilesNeutral(lines: seq<string>, from: nat, ps: seq<Piece>)
    requires Tiles(lines, from, ps) && forall i :: 0 <= i < |lines| ==> Neutral(lines[i])
    ensures forall k :: 0 <= k < |ps| ==> Neutral(Unlines(ps[k].lines))
    decreases |ps|
  {
    if ps != [] {
      TilesNeutral(lines, ps[0].lineStart + |ps[0].lines|, ps[1..]);
      NeutralUnlines(ps[0].lines);
      forall k | 0 <= k < |ps| ensures Neutral(Unlines(ps[k].lines)) {
        if k > 0 { assert ps[k] == ps[1..][k - 1]; }
      }
    }
  }

  /** Whole lines that the gate accepts on their own. */
  predicate Sturdy(t: string) {
    Neutral(t) && Nested(t) && Terminated(t)
  }

  ghost predicate AllSturdy(cs: seq<AstChunk>) {
    forall c :: c in cs ==> Sturdy(c.text)
  }

  /** An accepted neutral source is cut into accepted neutral chunks made of whole lines. */
  lemma ChunksAccepted(sp: Splitter, source: string)
    requires Neutral(source) && Accepts(source)
    ensures AllSturdy(sp.Chunks(source))
  {
    NeutralGate(source);
    ChunksNested(sp, source);
    NeutralInLines(source);
    ChunksTile(sp, source);
    TilesNeutral(Lines(source), 0, sp.Pieces(source));
    forall c | c in sp.Chunks(source) ensures Neutral(c.text) && Terminated(c.text) {
      var k :| 0 <= k < |sp.Pieces(source)| && c == sp.Pieces(source)[k].Chunk();
      UnlinesTerminated(sp.Pieces(source)[k].lines);
    }
  }

  ghost predicate Accepted(base: string, branches: seq<Branch>) {
    && Neutral(base) && Accepts(base)
    && forall b :: b in branches ==> Neutral(b.content) && Accepts(b.content)
  }

  lemma SturdyPool(base: seq<AstChunk>, versions: seq<Version>)
    requires AllSturdy(base) && forall v :: v in versions ==> AllSturdy(v.chunks)
    ensures forall t :: t in Pool(base, versions) ==> Sturdy(t)
  {
  }

  lemma PoolNested(sp: Splitter, base: string, branches: seq<Branch>)
    requires Accepted(base, branches)
    ensures forall t :: t in Pool(sp.Chunks(base), Split(sp, branches)) ==> Sturdy(t)
  {
    ChunksAccepted(sp, base);
    forall v | v in Split(sp, branches) ensures AllSturdy(v.chunks) {
      var k :| 0 <= k < |branches| && v == Version(branches[k].id, sp.Chunks(branches[k].content));
      assert branches[k] in branches;
      ChunksAccepted(sp, branches[k].content);
    }
    SturdyPool(sp.Chunks(base), Split(sp, branches));
  }

  /** If the base and every branch pass the gate, the merge is valid exactly when it reports no conflict, for
      any number of branches, any keyword table and repeated chunks. */
  lemma MergeIsValid(sp: Splitter, base: string, branches: seq<Branch>, language: Language)
    requires Accepted(base, branches)
    ensures var r := MergeTexts(sp, base, branches, language); r.syntaxValid <==> r.conflicts == []
  {
    PoolNested(sp, base, branches);
    NeutralComposable(Pool(sp.Chunks(base), Split(sp, branches)));
    ComposableMergeIsValid(sp.Chunks(base), Split(sp, branches), language);
  }
}
