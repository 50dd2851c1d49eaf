/** The exact result of merging branches that edit different chunks in place. */
module Overlay {
  import opened Chunker
  import opened Diff
  import opened DiffTheory
  import opened Merge
  import opened MergeTheory

  // ---------------------------------------------------------------- disjoint edits

  predicate Edits(base: seq<AstChunk>, branch: seq<AstChunk>, p: nat)
    requires p < |base| == |branch|
  {
    branch[p].text != base[p].text
  }

  /** The branch replaces some chunks in place by texts the base does not hold. */
  ghost predicate InPlace(base: seq<AstChunk>, branch: seq<AstChunk>) {
    && |branch| == |base|
    && forall p :: 0 <= p < |base| && Edits(base, branch, p) ==> !Occurs(base, branch[p].text)
  }

  lemma InPlaceSeen(base: seq<AstChunk>, branch: seq<AstChunk>, p: nat)
    requires Distinct(base) && InPlace(base, branch) && p < |base|
    ensures BaseMatched(base, branch, p) <==> !Edits(base, branch, p)
    ensures BranchMatched(base, branch, p) <==> !Edits(base, branch, p)
    ensures !Edits(base, branch, p) ==> First(branch, base[p].text) == p
  {
    forall q | 0 <= q < |base| && branch[q].text == base[p].text ensures q == p {
      assert Occurs(base, branch[q].text);
    }
  }

  /** Its diff changes exactly the edited chunks, each into the chunk at the same place. */
  lemma InPlaceChanges(base: seq<AstChunk>, branch: seq<AstChunk>)
    requires Distinct(base) && InPlace(base, branch)
    ensures var cs := Changes(base, branch);
            && |cs| == |base|
            && forall p :: 0 <= p < |base| ==>
                 cs[p] == if Edits(base, branch, p) then Modified(base[p], branch[p]) else Unchanged(branch[p])
  {
    var seen, es := BaseSeen(base, branch), Entries(base, branch);
    forall p | 0 <= p < |base| ensures seen[p] == BranchSeen(base, branch)[p] {
      InPlaceSeen(base, branch, p);
    }
    assert seen == BranchSeen(base, branch);
    forall p | 0 <= p < |base|
      ensures Changes(base, branch)[p] == if Edits(base, branch, p) then Modified(base[p], branch[p])
          else Unchanged(branch[p])
    {
      InPlaceSeen(base, branch, p);
      assert es[p] == EntryOf(base, branch, p);
      if Edits(base, branch, p) {
        var k := UnseenHas(seen, p);
      }
    }
  }

  /** Branches that edit in place, no two of them the same chunk. */
  ghost predicate Disjoint(base: seq<AstChunk>, versions: seq<Version>) {
    && (forall a :: 0 <= a < |versions| ==> InPlace(base, versions[a].chunks))
    && (forall a, b, p :: 0 <= a < b < |versions| && 0 <= p < |base| ==>
          !(Edits(base, versions[a].chunks, p) && Edits(base, versions[b].chunks, p)))
  }

  /** Chunk `p` with the edit of whichever branch made one. */
  function Edited(base: seq<AstChunk>, versions: seq<Version>, p: nat): string
    requires p < |base| && forall a :: 0 <= a < |versions| ==> |versions[a].chunks| == |base|
  {
    if versions == [] then base[p].text
    else
      var n := |versions| - 1;
      if Edits(base, versions[n].chunks, p) then versions[n].chunks[p].text else Edited(base, versions[..n], p)
  }

  lemma {:induction false} EditedBy(base: seq<AstChunk>, versions: seq<Version>, p: nat)
    requires Disjoint(base, versions) && p < |base|
    ensures forall a :: 0 <= a < |versions| && Edits(base, versions[a].chunks, p) ==>
              Edited(base, versions, p) == versions[a].chunks[p].text
    ensures (forall a :: 0 <= a < |versions| ==> !Edits(base, versions[a].chunks, p)) ==>
        Edited(base, versions, p) == base[p].text
    decreases |versions|
  {
    if versions != [] {
      EditedBy(base, versions[..|versions| - 1], p);
    }
  }

  lemma MadeInPlace(base: seq<AstChunk>, versions: seq<Version>, change: AstChange) returns (a: nat, p: nat)
    requires Distinct(base) && Disjoint(base, versions) && Made(base, Contents(versions), change)
    ensures a < |versions| && p < |base|
    ensures change == if Edits(base, versions[a].chunks, p) then Modified(base[p], versions[a].chunks[p])
                      else Unchanged(versions[a].chunks[p])
  {
    MadeIff(base, versions, change);
    var v :| v in versions && change in Changes(base, v.chunks);
    a :| 0 <= a < |versions| && versions[a] == v;
    InPlaceChanges(base, v.chunks);
    p :| 0 <= p < |Changes(base, v.chunks)| && Changes(base, v.chunks)[p] == change;
  }

  /** Every modification of chunk `i` is the one edit of it. */
  lemma {:induction false} TurnedInPlace(base: seq<AstChunk>, versions: seq<Version>, i: nat, t: string)
    requires Distinct(base) && Disjoint(base, versions) && i < |base|
    ensures Turned(base, Contents(versions), base[i].text, t) <==>
            t == Edited(base, versions, i) && exists a :: 0 <= a < |versions| && Edits(base, versions[a].chunks, i)
  {
    EditedBy(base, versions, i);
    if Turned(base, Contents(versions), base[i].text, t) {
      var b: AstChunk, c: AstChunk :| b.text == base[i].text && c.text == t
          && Made(base, Contents(versions), Modified(b, c));
      var a, p := MadeInPlace(base, versions, Modified(b, c));
      assert p == i;
    }
    if exists a :: 0 <= a < |versions| && Edits(base, versions[a].chunks, i) {
      var a :| 0 <= a < |versions| && Edits(base, versions[a].chunks, i);
      InPlaceChanges(base, versions[a].chunks);
      var change := Modified(base[i], versions[a].chunks[i]);
      assert Changes(base, versions[a].chunks)[i] == change && versions[a] in versions;
      MadeIff(base, versions, change);
      assert Turned(base, Contents(versions), base[i].text, versions[a].chunks[i].text);
    }
  }

  lemma SettledInPlace(base: seq<AstChunk>, versions: seq<Version>, i: nat)
    requires Distinct(base) && Disjoint(base, versions) && i < |base|
    ensures Outcomes(base, versions)[i] == Resolved(Edited(base, versions, i))
  {
    var contents, text := Contents(versions), base[i].text;
    assert !Removed(base, contents, text) by {
      forall c | Made(base, contents, Deleted(c)) ensures false {
        var a, p := MadeInPlace(base, versions, Deleted(c));
      }
    }
    forall t ensures Turned(base, contents, text, t) <==>
                     && t == Edited(base, versions, i)
                     && exists a :: 0 <= a < |versions| && Edits(base, versions[a].chunks, i)
    {
      TurnedInPlace(base, versions, i, t);
    }
    ConflictExactly(base, versions, i);
    EditedBy(base, versions, i);
    ResolvedExactly(base, versions, i, Edited(base, versions, i));
  }

  /** Edits of different chunks overlay exactly: no conflict, nothing added, every edit in its place. */
  lemma DisjointEditsOverlay(base: seq<AstChunk>, versions: seq<Version>)
    requires Distinct(base) && Disjoint(base, versions)
    ensures ConflictsOf(Outcomes(base, versions)) == []
    ensures MergedPieces(base, versions) == seq(|base|, p requires 0 <= p < |base| => Edited(base, versions, p))
  {
    var os := Outcomes(base, versions);
    forall i | 0 <= i < |base| ensures os[i] == Resolved(Edited(base, versions, i)) {
      SettledInPlace(base, versions, i);
    }
    NoConflicts(os);
    InPlaceAddsNothing(base, versions);
  }

  lemma InPlaceAddsNothing(base: seq<AstChunk>, versions: seq<Version>)
    requires Distinct(base) && Disjoint(base, versions)
    ensures Additions(base, versions) == []
  {
    forall v | v in versions ensures forall c :: c in Changes(base, v.chunks) ==> !c.Added? {
      InPlaceChanges(base, v.chunks);
    }
    NoAdditions(base, versions);
  }
}
