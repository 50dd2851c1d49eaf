/** What a merge reports and how its text is laid out: the content of a conflict, its marker, the additions, and
    when the
    result is called valid. Stated over the branches' changes, not over the way they are collected. */
module MergeLaws {
  import opened Text
  import opened SyntaxGate
  import opened GateTheory
  import opened Chunker
  import opened ChunkTheory
  import opened Diff
  import opened DiffTheory
  import opened Merge
  import opened MergeTheory
  import opened ResolutionTheory

  // ---------------------------------------------------------------- the content of a conflict

  /** What one list of changes turns this text into, in order. */
  function TurnsIn(id: string, changes: seq<AstChange>, text: string): seq<Variant> {
    if changes == [] then []
    else
      (if changes[0].Modified? && changes[0].base.text == text then [Variant(id, changes[0].branch)] else []) +
      TurnsIn(id, changes[1..], text)
  }

  /** The same for each branch. */
  function TurnsBy(base: seq<AstChunk>, versions: seq<Version>, text: string): (ts: seq<seq<Variant>>)
    ensures |ts| == |versions|
    ensures forall i :: 0 <= i < |ts| ==> ts[i] == TurnsIn(versions[i].id, Changes(base, versions[i].chunks), text)
  {
    seq(|versions|, i requires 0 <= i < |versions| =>
      TurnsIn(versions[i].id, Changes(base, versions[i].chunks), text))
  }

  /** The same for all branches, first branch first. */
  function Turns(base: seq<AstChunk>, versions: seq<Version>, text: string): seq<Variant> {
    Concat(TurnsBy(base, versions, text))
  }

  lemma {:induction false} TurnsInAppend(id: string, a: seq<AstChange>, b: seq<AstChange>, text: string)
    ensures TurnsIn(id, a + b, text) == TurnsIn(id, a, text) + TurnsIn(id, b, text)
    decreases |a|
  {
    if a == [] {
      assert a + b == b;
    } else {
      assert (a + b)[1..] == a[1..] + b;
      TurnsInAppend(id, a[1..], b, text);
    }
  }

  lemma {:induction false} TurnsPush(base: seq<AstChunk>, front: seq<Version>, v: Version, text: string)
    ensures Turns(base, front + [v], text) ==
            Turns(base, front, text) + TurnsIn(v.id, Changes(base, v.chunks), text)
  {
    var ts, last := TurnsBy(base, front, text), TurnsIn(v.id, Changes(base, v.chunks), text);
    assert TurnsBy(base, front + [v], text) == ts + [last];
    ConcatPush(ts, last);
  }

  lemma ConcatPush<T>(parts: seq<seq<T>>, last: seq<T>)
    ensures Concat(parts + [last]) == Concat(parts) + last
  {
    ConcatAppend(parts, [last]);
    assert [last][1..] == [] && Concat([last]) == last;
  }

  lemma {:induction false} ModificationsAppend(a: seq<Decision>, b: seq<Decision>)
    ensures Modifications(a + b) == Modifications(a) + Modifications(b)
    decreases |b|
  {
    if b == [] {
      assert a + b == a;
    } else {
      var n := |b| - 1;
      assert (a + b)[..|a + b| - 1] == a + b[..n];
      ModificationsAppend(a, b[..n]);
    }
  }

  lemma {:induction false} FiledTurns(id: string, changes: seq<AstChange>, text: string)
    ensures Modifications(Filed(id, changes, text)) == TurnsIn(id, changes, text)
    decreases |changes|
  {
    if changes != [] {
      var n := |changes| - 1;
      var front, last := changes[..n], changes[n];
      FiledTurns(id, front, text);
      assert changes == front + [last];
      TurnsInAppend(id, front, [last], text);
      OneTurn(id, last, text);
      ModificationsAppend(Filed(id, front, text), if FiledUnder(last, text) then [Decision(id, last)] else []);
    }
  }

  lemma OneTurn(id: string, change: AstChange, text: string)
    ensures Modifications(if FiledUnder(change, text) then [Decision(id, change)] else [])
        == TurnsIn(id, [change], text)
  {
    assert [change][1..] == [] && [Decision(id, change)][..0] == [];
  }

  lemma Snoc<T>(s: seq<T>, front: seq<T>, last: T)
    requires s != [] && front == s[..|s| - 1] && last == s[|s| - 1]
    ensures s == front + [last]
  {
  }

  lemma DecisionsPush(base: seq<AstChunk>, front: seq<Version>, v: Version, text: string)
    ensures DecisionsOn(base, front + [v], text) ==
            DecisionsOn(base, front, text) + Filed(v.id, Changes(base, v.chunks), text)
    ensures Additions(base, front + [v]) == Additions(base, front) + AddedIn(Changes(base, v.chunks))
  {
    assert (front + [v])[..|front|] == front;
  }

  lemma DecisionTurnsPush(base: seq<AstChunk>, front: seq<Version>, v: Version, text: string)
    requires Modifications(DecisionsOn(base, front, text)) == Turns(base, front, text)
    ensures Modifications(DecisionsOn(base, front + [v], text)) == Turns(base, front + [v], text)
  {
    DecisionsPush(base, front, v, text);
    TurnsPush(base, front, v, text);
    FiledTurns(v.id, Changes(base, v.chunks), text);
    ModificationsAppend(DecisionsOn(base, front, text), Filed(v.id, Changes(base, v.chunks), text));
  }

  lemma {:induction false} DecisionTurns(base: seq<AstChunk>, versions: seq<Version>, text: string)
    ensures Modifications(DecisionsOn(base, versions, text)) == Turns(base, versions, text)
    decreases |versions|
  {
    if versions != [] {
      var front, v := versions[..|versions| - 1], versions[|versions| - 1];
      Snoc(versions, front, v);
      DecisionTurns(base, front, text);
      DecisionTurnsPush(base, front, v, text);
    }
  }

  lemma {:induction false} TurnsInIff(id: string, changes: seq<AstChange>, text: string, m: Variant)
    ensures m in TurnsIn(id, changes, text) <==>
            m.id == id && exists x: AstChunk :: x.text == text && Modified(x, m.chunk) in changes
    decreases |changes|
  {
    if changes != [] {
      TurnsInIff(id, changes[1..], text, m);
      assert changes == [changes[0]] + changes[1..];
      if changes[0].Modified? && changes[0].base.text == text && m == Variant(id, changes[0].branch) {
        assert Modified(changes[0].base, m.chunk) in changes;
      }
    }
  }

  lemma {:induction false} ConcatIff<T>(parts: seq<seq<T>>, x: T)
    ensures x in Concat(parts) <==> exists i :: 0 <= i < |parts| && x in parts[i]
  {
    if parts != [] {
      ConcatIff(parts[1..], x);
      if i :| 0 <= i < |parts| && x in parts[i] {
        assert i > 0 ==> parts[i] == parts[1..][i - 1];
      }
    }
  }

  lemma TurnsIff(base: seq<AstChunk>, versions: seq<Version>, text: string, m: Variant)
    ensures m in Turns(base, versions, text) <==>
            exists v :: v in versions && v.id == m.id && Turner(base, v, text, m.chunk)
  {
    var ts := TurnsBy(base, versions, text);
    ConcatIff(ts, m);
    if m in Turns(base, versions, text) {
      var i :| 0 <= i < |ts| && m in ts[i];
      TurnsInIff(versions[i].id, Changes(base, versions[i].chunks), text, m);
      assert versions[i] in versions;
    }
    if v :| v in versions && v.id == m.id && Turner(base, v, text, m.chunk) {
      var i :| 0 <= i < |versions| && versions[i] == v;
      TurnsInIff(v.id, Changes(base, v.chunks), text, m);
      assert m in ts[i];
    }
  }

  /** The version's diff turns a chunk with this text into that chunk. */
  ghost predicate Turner(base: seq<AstChunk>, v: Version, text: string, into: AstChunk) {
    exists x: AstChunk :: x.text == text && Modified(x, into) in Changes(base, v.chunks)
  }

  /** A reported conflict holds the base chunk and everything the branches turned its text into, in branch order. */
  lemma ConflictHolds(base: seq<AstChunk>, versions: seq<Version>, i: nat)
    requires i < |base| && Outcomes(base, versions)[i].Conflicting?
    ensures var b := Outcomes(base, versions)[i].block;
            && b.base == base[i]
            && b.variants == Turns(base, versions, base[i].text)
            && forall m: Variant :: m in b.variants <==>
                 exists v :: v in versions && v.id == m.id && Turner(base, v, base[i].text, m.chunk)
  {
    DecisionTurns(base, versions, base[i].text);
    forall m: Variant
      ensures m in Turns(base, versions, base[i].text) <==>
              exists v :: v in versions && v.id == m.id && Turner(base, v, base[i].text, m.chunk)
    {
      TurnsIff(base, versions, base[i].text, m);
    }
  }

  /** In the merged text a conflict shows the base chunk and the first variant, or a note if nothing was modified. */
  lemma ConflictShown(base: seq<AstChunk>, versions: seq<Version>, i: nat)
    requires i < |base| && Outcomes(base, versions)[i].Conflicting?
    ensures var turns := Turns(base, versions, base[i].text);
            var shown := if turns == [] then "(deleted)" else turns[0].chunk.text;
            MergedPieces(base, versions)[i] ==
            "<<<<<<< base\n" + base[i].text + "\n=======\n" + shown + "\n>>>>>>> conflict\n"
  {
    ConflictHolds(base, versions, i);
  }

  // ---------------------------------------------------------------- the additions

  function AddsIn(changes: seq<AstChange>): seq<string> {
    if changes == [] then [] else (if changes[0].Added? then [changes[0].chunk.text] else []) + AddsIn(changes[1..])
  }

  function AddsBy(base: seq<AstChunk>, versions: seq<Version>): (ts: seq<seq<string>>)
    ensures |ts| == |versions| && forall i :: 0 <= i < |ts| ==> ts[i] == AddsIn(Changes(base, versions[i].chunks))
  {
    seq(|versions|, i requires 0 <= i < |versions| => AddsIn(Changes(base, versions[i].chunks)))
  }

  /** The texts all branches add, first branch first. */
  function Adds(base: seq<AstChunk>, versions: seq<Version>): seq<string> {
    Concat(AddsBy(base, versions))
  }

  /** Every text once, where it first occurs. */
  function Once(ts: seq<string>, seen: set<string>): seq<string> {
    if ts == [] then [] else if ts[0] in seen then Once(ts[1..], seen) else [ts[0]] + Once(ts[1..], seen + {ts[0]})
  }

  lemma {:induction false} AddsInAppend(a: seq<AstChange>, b: seq<AstChange>)
    ensures AddsIn(a + b) == AddsIn(a) + AddsIn(b)
    decreases |a|
  {
    if a == [] {
      assert a + b == b;
    } else {
      assert (a + b)[1..] == a[1..] + b;
      AddsInAppend(a[1..], b);
    }
  }

  lemma {:induction false} AddsPush(base: seq<AstChunk>, front: seq<Version>, v: Version)
    ensures Adds(base, front + [v]) == Adds(base, front) + AddsIn(Changes(base, v.chunks))
  {
    var last := AddsIn(Changes(base, v.chunks));
    assert AddsBy(base, front + [v]) == AddsBy(base, front) + [last];
    ConcatPush(AddsBy(base, front), last);
  }

  lemma TextsAppend(a: seq<AstChunk>, b: seq<AstChunk>)
    ensures Texts(a + b) == Texts(a) + Texts(b)
  {
  }

  lemma {:induction false} AddedTexts(changes: seq<AstChange>)
    ensures Texts(AddedIn(changes)) == AddsIn(changes)
    decreases |changes|
  {
    if changes != [] {
      var n := |changes| - 1;
      var front, last := changes[..n], changes[n];
      AddedTexts(front);
      assert changes == front + [last];
      AddsInAppend(front, [last]);
      OneAdded(last);
      TextsAppend(AddedIn(front), if last.Added? then [last.chunk] else []);
    }
  }

  lemma OneAdded(change: AstChange)
    ensures AddsIn([change]) == Texts(if change.Added? then [change.chunk] else [])
  {
    assert [change][1..] == [];
  }

  lemma AdditionPush(base: seq<AstChunk>, front: seq<Version>, v: Version)
    requires Texts(Additions(base, front)) == Adds(base, front)
    ensures Texts(Additions(base, front + [v])) == Adds(base, front + [v])
  {
    DecisionsPush(base, front, v, "");
    AddsPush(base, front, v);
    AddedTexts(Changes(base, v.chunks));
    TextsAppend(Additions(base, front), AddedIn(Changes(base, v.chunks)));
  }

  lemma {:induction false} AdditionTexts(base: seq<AstChunk>, versions: seq<Version>)
    ensures Texts(Additions(base, versions)) == Adds(base, versions)
    decreases |versions|
  {
    if versions != [] {
      var front, v := versions[..|versions| - 1], versions[|versions| - 1];
      Snoc(versions, front, v);
      AdditionTexts(base, front);
      AdditionPush(base, front, v);
    }
  }

  lemma {:induction false} OnceAppend(a: seq<string>, t: string, seen: set<string>)
    ensures Once(a + [t], seen) == Once(a, seen) + if t in seen || t in a then [] else [t]
    decreases |a|
  {
    if a == [] {
      assert a + [t] == [t] && [t][1..] == [];
    } else {
      assert (a + [t])[1..] == a[1..] + [t];
      OnceAppend(a[1..], t, if a[0] in seen then seen else seen + {a[0]});
    }
  }

  lemma {:induction false} DedupeIsOnce(cs: seq<AstChunk>)
    ensures Dedupe(cs) == Once(Texts(cs), {})
    decreases |cs|
  {
    if cs != [] {
      var n := |cs| - 1;
      var front, t := cs[..n], cs[n].text;
      DedupeIsOnce(front);
      assert Texts(cs) == Texts(front) + [t];
      OnceAppend(Texts(front), t, {});
      DedupeIff(front, t);
      TextsIff(front, t);
    }
  }

  lemma TextsIff(cs: seq<AstChunk>, t: string)
    ensures t in Texts(cs) <==> exists c :: c in cs && c.text == t
  {
    if t in Texts(cs) {
      var k :| 0 <= k < |cs| && Texts(cs)[k] == t;
      assert cs[k] in cs;
    }
    if c :| c in cs && c.text == t {
      var k :| 0 <= k < |cs| && cs[k] == c;
      assert Texts(cs)[k] == t;
    }
  }

  // ---------------------------------------------------------------- the merged text

  /** The pieces of the base come first, one per base chunk, in order; then what the branches add, first branch first,
      every text once. */
  lemma MergedLayout(base: seq<AstChunk>, versions: seq<Version>, language: Language)
    ensures var pieces := MergedPieces(base, versions);
            && MergeChunks(base, versions, language).merged == Concat(pieces)
            && |base| <= |pieces|
            && pieces[|base|..] == Once(Adds(base, versions), {})
            && forall i :: 0 <= i < |base| && Outcomes(base, versions)[i].Resolved? ==>
                 pieces[i] == Outcomes(base, versions)[i].text
  {
    AdditionTexts(base, versions);
    DedupeIsOnce(Additions(base, versions));
    assert MergedPieces(base, versions)[|base|..] == Dedupe(Additions(base, versions));
  }

  // ---------------------------------------------------------------- when the result is called valid

  ghost predicate NeutralSources(base: string, branches: seq<Branch>) {
    Neutral(base) && forall b :: b in branches ==> Neutral(b.content)
  }

  lemma ChunksNeutral(sp: Splitter, source: string)
    requires Neutral(source)
    ensures forall c :: c in sp.Chunks(source) ==> Neutral(c.text)
  {
    NeutralInLines(source);
    ChunksTile(sp, source);
    TilesNeutral(Lines(source), 0, sp.Pieces(source));
    forall c | c in sp.Chunks(source) ensures Neutral(c.text) {
      var k :| 0 <= k < |sp.Pieces(source)| && c == sp.Pieces(source)[k].Chunk();
    }
  }

  lemma NeutralPool(sp: Splitter, base: string, branches: seq<Branch>)
    requires NeutralSources(base, branches)
    ensures forall t :: t in Pool(sp.Chunks(base), Split(sp, branches)) ==> Neutral(t)
  {
    ChunksNeutral(sp, base);
    forall v | v in Split(sp, branches) ensures forall c :: c in v.chunks ==> Neutral(c.text) {
      var k :| 0 <= k < |branches| && v == Version(branches[k].id, sp.Chunks(branches[k].content));
      assert branches[k] in branches;
      ChunksNeutral(sp, branches[k].content);
    }
  }

  /** For quote- and slash-free sources, accepted or not: the merge is valid exactly when it has no conflict and its
      text
      is balanced, or the language is unknown. */
  lemma ValidExactly(sp: Splitter, base: string, branches: seq<Branch>, language: Language)
    requires NeutralSources(base, branches)
    ensures var r := MergeTexts(sp, base, branches, language);
            r.syntaxValid <==> r.conflicts == [] && (language.Unknown? || Balanced(r.merged))
  {
    var cs, vs := sp.Chunks(base), Split(sp, branches);
    var os, ps := Outcomes(cs, vs), MergedPieces(cs, vs);
    if ConflictsOf(os) == [] {
      NeutralPool(sp, base, branches);
      PieceOrigin(cs, vs);
      forall i | 0 <= i < |ps| ensures Neutral(ps[i]) {
        if i < |cs| {
          if os[i].Conflicting? { ConflictsIff(os, os[i].block); }
        } else {
          assert ps[i] in Dedupe(Additions(cs, vs));
        }
      }
      NeutralConcat(ps);
      NeutralGate(Concat(ps));
    }
  }
}
