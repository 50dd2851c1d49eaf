/** Merging a base with branches that did not change it. The index of base chunks keeps the last of
    several equal chunks while matching takes the first equal branch chunk, so repeated chunks can be
    paired crosswise and an untouched branch can rewrite the base. */
module SelfMerge {
  import opened Chunker
  import opened Diff
  import opened DiffTheory
  import opened Merge
  import opened MergeTheory

  /** The texts of all but the last occurrence of each text, in order. */
  function EarlierCopies(base: seq<AstChunk>): seq<string> {
    TextsAt(base, Unseen(BaseSeen(base, base)))
  }

  /** The texts of all but the first occurrence of each text, in order. */
  function LaterCopies(base: seq<AstChunk>): seq<string> {
    TextsAt(base, Unseen(BranchSeen(base, base)))
  }

  function TextsAt(base: seq<AstChunk>, at: seq<nat>): (ts: seq<string>)
    ensures |ts| == |at|
    ensures forall k :: 0 <= k < |at| && at[k] < |base| ==> ts[k] == base[at[k]].text
  {
    seq(|at|, k requires 0 <= k < |at| => if at[k] < |base| then base[at[k]].text else "")
  }

  /** What the merge of an untouched base should be. */
  ghost predicate Reproduces(base: seq<AstChunk>, versions: seq<Version>) {
    ConflictsOf(Outcomes(base, versions)) == [] && MergedPieces(base, versions) == Texts(base)
  }

  /** The change that base chunk `i` gets when compared with itself. */
  lemma SelfChange(base: seq<AstChunk>, i: nat)
    requires i < |base| && !BaseMatched(base, base, i)
    ensures var k, free := Rank(BaseSeen(base, base)[..i]), Unseen(BranchSeen(base, base));
            && k < |EarlierCopies(base)| && EarlierCopies(base)[k] == base[i].text
            && Changes(base, base)[i] ==
               if k < |free| && free[k] < |base| then Modified(base[i], base[free[k]]) else Deleted(base[i])
  {
    var k := UnseenHas(BaseSeen(base, base), i);
    assert Entries(base, base)[i] == EntryOf(base, base, i);
    if k < |Unseen(BranchSeen(base, base))| {
      UnseenBound(BranchSeen(base, base), k);
    }
  }

  /** If the copies line up, every modification rewrites a text to itself. */
  lemma AlignedChanges(base: seq<AstChunk>, change: AstChange)
    requires EarlierCopies(base) == LaterCopies(base) && change in Changes(base, base)
    ensures change.Unchanged? || (change.Modified? && change.base.text == change.branch.text)
  {
    var es := Entries(base, base);
    LeftoverBound(base, base);
    var i :| 0 <= i < |es| && es[i].change == change;
    assert |EarlierCopies(base)| == |LaterCopies(base)|;
    assert i < |base| && es[i] == EntryOf(base, base, i);
    if !BaseMatched(base, base, i) {
      SelfChange(base, i);
      UnseenBound(BranchSeen(base, base), Rank(BaseSeen(base, base)[..i]));
    }
  }

  lemma {:induction false} AlignedSettled(base: seq<AstChunk>, versions: seq<Version>, i: nat)
    requires Contents(versions) == {base} && EarlierCopies(base) == LaterCopies(base) && i < |base|
    ensures Outcomes(base, versions)[i] == Resolved(base[i].text)
  {
    var contents, text := Contents(versions), base[i].text;
    forall x | Turned(base, contents, text, x) ensures x == text {
      var b: AstChunk, c: AstChunk :| b.text == text && c.text == x && Made(base, contents, Modified(b, c));
      AlignedChanges(base, Modified(b, c));
    }
    if Removed(base, contents, text) {
      var c: AstChunk :| c.text == text && Made(base, contents, Deleted(c));
      AlignedChanges(base, Deleted(c));
    }
    SettledAs(base, versions, i, text);
  }

  /** A text that is not deleted, and turned into nothing but `t`, settles as `t`. */
  lemma SettledAs(base: seq<AstChunk>, versions: seq<Version>, i: nat, t: string)
    requires i < |base| && !Removed(base, Contents(versions), base[i].text)
    requires forall x :: Turned(base, Contents(versions), base[i].text, x) ==> x == t
    requires Turned(base, Contents(versions), base[i].text, t) || t == base[i].text
    ensures Outcomes(base, versions)[i] == Resolved(t)
  {
    ConflictExactly(base, versions, i);
    ResolvedExactly(base, versions, i, t);
  }

  lemma UntouchedContent(base: seq<AstChunk>, versions: seq<Version>)
    requires Contents(versions) == {base}
    ensures forall v :: v in versions ==> v.chunks == base
  {
    forall v | v in versions ensures v.chunks == base {
      assert v.chunks in Contents(versions);
    }
  }

  lemma AlignedReproduces(base: seq<AstChunk>, versions: seq<Version>)
    requires Contents(versions) == {base} && EarlierCopies(base) == LaterCopies(base)
    ensures Reproduces(base, versions)
  {
    var os := Outcomes(base, versions);
    forall i | 0 <= i < |base| ensures os[i] == Resolved(base[i].text) {
      AlignedSettled(base, versions, i);
    }
    NoConflicts(os);
    UntouchedContent(base, versions);
    forall c | c in Changes(base, base) ensures !c.Added? {
      AlignedChanges(base, c);
    }
    NoAdditions(base, versions);
  }

  /** A chunk that the comparison deletes or rewrites does not come out as it was. */
  lemma Disturbed(base: seq<AstChunk>, versions: seq<Version>, i: nat)
    requires Contents(versions) == {base} && i < |base|
    requires var c := Changes(base, base)[i]; c.Deleted? || (c.Modified? && c.branch.text != base[i].text)
    ensures Outcomes(base, versions)[i] != Resolved(base[i].text)
  {
    var contents, c := Contents(versions), Changes(base, base)[i];
    DiffAligns(base, base);
    assert Made(base, contents, c);
    ConflictExactly(base, versions, i);
    if c.Modified? {
      assert Turned(base, contents, base[i].text, c.branch.text);
      if Outcomes(base, versions)[i].Resolved? {
        ResolvedExactly(base, versions, i, base[i].text);
      }
    } else {
      assert Removed(base, contents, base[i].text);
    }
  }

  lemma MisalignedDisturbs(base: seq<AstChunk>, versions: seq<Version>)
    requires Contents(versions) == {base} && EarlierCopies(base) != LaterCopies(base)
    ensures !Reproduces(base, versions)
  {
    var earlier, later := Unseen(BaseSeen(base, base)), Unseen(BranchSeen(base, base));
    if |earlier| < |later| {
      LeftoverBound(base, base);
      var c := base[Leftover(base, base)[0]];
      assert Changes(base, base)[|base|] == Added(c);
      MadeIff(base, versions, Added(c));
      assert Made(base, Contents(versions), Added(c));
      AdditionsIff(base, versions, c);
      DedupeIff(Additions(base, versions), c.text);
      assert |MergedPieces(base, versions)| > |base|;
    } else {
      var k := |later|;
      if |later| == |earlier| {
        k :| 0 <= k < |later| && EarlierCopies(base)[k] != LaterCopies(base)[k];
      }
      UnseenBound(BaseSeen(base, base), k);
      var i := earlier[k];
      var r := UnseenHas(BaseSeen(base, base), i);
      UnseenIncreases(BaseSeen(base, base));
      assert r == k;
      if k < |later| { UnseenBound(BranchSeen(base, base), k); }
      SelfChange(base, i);
      Disturbed(base, versions, i);
      var os := Outcomes(base, versions);
      if os[i].Conflicting? {
        ConflictsIff(os, os[i].block);
      } else {
        assert MergedPieces(base, versions)[i] == os[i].text;
      }
    }
  }

  /** Merging a base with untouched branches gives the base back if and only if the earlier copies of its
      repeated chunks, read in order, are the same texts as the later copies. */
  lemma UntouchedMerge(base: seq<AstChunk>, versions: seq<Version>)
    requires Contents(versions) == {base}
    ensures Reproduces(base, versions) <==> EarlierCopies(base) == LaterCopies(base)
  {
    if EarlierCopies(base) == LaterCopies(base) {
      AlignedReproduces(base, versions);
    } else {
      MisalignedDisturbs(base, versions);
    }
  }

  // ---------------------------------------------------------------- a concrete scramble

  predicate Abba(base: seq<AstChunk>) {
    |base| == 4 && base[0].text == base[3].text != base[1].text == base[2].text
  }

  lemma AbbaUnseen()
    ensures Unseen([false, false, true, true]) == [0, 1]
    ensures Unseen([true, true, false, false]) == [2, 3]
    ensures Rank([]) == 0 && Rank([false]) == 1
  {
    assert [false, false, true, true][..3] == [false, false, true];
    assert [false, false, true][..2] == [false, false];
    assert [false, false][..1] == [false];
    assert [true, true, false, false][..3] == [true, true, false];
    assert [true, true, false][..2] == [true, true];
    assert [true, true][..1] == [true];
    assert Unseen([false]) == [0] && Unseen([true]) == [];
  }

  lemma AbbaChanges(base: seq<AstChunk>)
    requires Abba(base)
    ensures Changes(base, base) ==
            [Modified(base[0], base[2]), Modified(base[1], base[3]), Unchanged(base[1]), Unchanged(base[0])]
  {
    AbbaUnseen();
    var bs, es := BaseSeen(base, base), Entries(base, base);
    assert bs == [false, false, true, true] && bs[..0] == [] && bs[..1] == [false];
    assert BranchSeen(base, base) == [true, true, false, false];
    assert First(base, base[2].text) == 1 && First(base, base[3].text) == 0;
    assert es[0] == EntryOf(base, base, 0) && es[1] == EntryOf(base, base, 1);
    assert es[2] == EntryOf(base, base, 2) && es[3] == EntryOf(base, base, 3);
  }

  lemma AbbaMade(base: seq<AstChunk>, contents: set<seq<AstChunk>>, change: AstChange)
    requires Abba(base) && contents == {base}
    ensures Made(base, contents, change) <==>
            change in [Modified(base[0], base[2]), Modified(base[1], base[3]), Unchanged(base[1]), Unchanged(base[0])]
  {
    AbbaChanges(base);
    assert base in contents;
  }

  lemma AbbaModified(base: seq<AstChunk>, contents: set<seq<AstChunk>>, b: AstChunk, c: AstChunk)
    requires Abba(base) && contents == {base}
    ensures Made(base, contents, Modified(b, c)) <==> (b == base[0] && c == base[2]) || (b == base[1] && c == base[3])
  {
    AbbaMade(base, contents, Modified(b, c));
  }

  /** When every modification is of one chunk into another or starts from a third text. */
  lemma TurnsOver(base: seq<AstChunk>, contents: set<seq<AstChunk>>, from: AstChunk, to: AstChunk, other: AstChunk,
                  t: string)
    requires Made(base, contents, Modified(from, to)) && other.text != from.text
    requires forall b, c :: Made(base, contents, Modified(b, c)) ==> (b == from && c == to) || b == other
    ensures Turned(base, contents, from.text, t) <==> t == to.text
  {
  }

  /** A text becomes the other one of the two. */
  lemma AbbaTurned(base: seq<AstChunk>, contents: set<seq<AstChunk>>, j: nat, t: string)
    requires Abba(base) && contents == {base} && j < 2
    ensures Turned(base, contents, base[1 - j].text, t) <==> t == base[3 - j].text
  {
    forall b, c ensures Made(base, contents, Modified(b, c)) <==>
                        (b == base[0] && c == base[2]) || (b == base[1] && c == base[3])
    {
      AbbaModified(base, contents, b, c);
    }
    TurnsOver(base, contents, base[1 - j], base[3 - j], base[j], t);
  }

  lemma AbbaKept(base: seq<AstChunk>, contents: set<seq<AstChunk>>, text: string)
    requires Abba(base) && contents == {base}
    ensures !Removed(base, contents, text)
  {
    forall b: AstChunk ensures !Made(base, contents, Deleted(b)) {
      AbbaMade(base, contents, Deleted(b));
    }
  }

  lemma AbbaTexts(base: seq<AstChunk>, i: nat, j: nat)
    requires Abba(base) && i < 4 && j < 2 && base[j].text != base[i].text
    ensures base[i].text == base[1 - j].text && base[3 - j].text == base[j].text
  {
  }

  lemma AbbaOutcome(base: seq<AstChunk>, versions: seq<Version>, i: nat, j: nat)
    requires Abba(base) && Contents(versions) == {base} && i < 4 && j < 2 && base[j].text != base[i].text
    ensures Outcomes(base, versions)[i] == Resolved(base[j].text)
  {
    var contents, text, other := Contents(versions), base[1 - j].text, base[3 - j].text;
    AbbaTexts(base, i, j);
    forall t ensures Turned(base, contents, text, t) <==> t == other {
      AbbaTurned(base, contents, j, t);
    }
    AbbaKept(base, contents, text);
    TextSettledAs(base, versions, i, text, other);
  }

  lemma TextSettledAs(base: seq<AstChunk>, versions: seq<Version>, i: nat, text: string, t: string)
    requires i < |base| && base[i].text == text && !Removed(base, Contents(versions), text)
    requires forall x :: Turned(base, Contents(versions), text, x) <==> x == t
    ensures Outcomes(base, versions)[i] == Resolved(t)
  {
    SettledAs(base, versions, i, t);
  }

  /** Chunks A, B, B, A merged with an untouched branch come out, without any conflict, as B, A, A, B. */
  lemma UntouchedMergeScrambles(base: seq<AstChunk>, versions: seq<Version>)
    requires Abba(base) && Contents(versions) == {base}
    ensures ConflictsOf(Outcomes(base, versions)) == []
    ensures MergedPieces(base, versions) == [base[1].text, base[0].text, base[0].text, base[1].text]
  {
    var os := Outcomes(base, versions);
    forall i | 0 <= i < 4 ensures os[i] == Resolved(if i == 0 || i == 3 then base[1].text else base[0].text) {
      AbbaOutcome(base, versions, i, if i == 0 || i == 3 then 1 else 0);
    }
    NoConflicts(os);
    AbbaAddsNothing(base, versions);
    assert MergedPieces(base, versions) == PiecesOf(os);
  }

  lemma AbbaAddsNothing(base: seq<AstChunk>, versions: seq<Version>)
    requires Abba(base) && Contents(versions) == {base}
    ensures Dedupe(Additions(base, versions)) == []
  {
    AbbaChanges(base);
    UntouchedContent(base, versions);
    NoAdditions(base, versions);
  }
}
