/** The diff is an exact alignment of the base with the branch. */
module DiffTheory {
  import opened Chunker
  import opened Diff

  /** The change is about this base chunk. */
  predicate Concerns(change: AstChange, c: AstChunk) {
    match change
    case Unchanged(x) => x.text == c.text
    case Modified(b, _) => b == c
    case Deleted(x) => x == c
    case Added(_) => false
  }

  lemma AddedInOrder(base: seq<AstChunk>, branch: seq<AstChunk>)
    ensures var left := Leftover(base, branch);
            && (forall k :: 0 <= k < |left| ==> left[k] < |branch|)
            && (forall k, l :: 0 <= k < l < |left| ==> left[k] < left[l])
  {
    LeftoverBound(base, branch);
    UnseenIncreases(BranchSeen(base, branch));
  }

  lemma DeletedThenNothingAdded(base: seq<AstChunk>, branch: seq<AstChunk>, i: nat)
    requires i < |base| && EntryOf(base, branch, i).change.Deleted?
    ensures Leftover(base, branch) == []
  {
    RankGrows(BaseSeen(base, branch), i);
  }

  /** Change `i` concerns base chunk `i`; the rest are additions, in branch order; deletions and additions exclude each
      other. */
  lemma DiffAligns(base: seq<AstChunk>, branch: seq<AstChunk>)
    ensures var cs := Changes(base, branch);
            && |base| <= |cs|
            && (forall i :: 0 <= i < |base| ==> Concerns(cs[i], base[i]))
            && (forall i :: |base| <= i < |cs| ==> cs[i].Added?)
            && (forall i, k :: 0 <= i < |cs| && 0 <= k < |cs| && cs[i].Deleted? ==> !cs[k].Added?)
    ensures var cs, left := Changes(base, branch), Leftover(base, branch);
            && (forall k :: 0 <= k < |left| ==> left[k] < |branch| && cs[|base| + k] == Added(branch[left[k]]))
            && (forall k, l :: 0 <= k < l < |left| ==> left[k] < left[l])
  {
    var cs, es := Changes(base, branch), Entries(base, branch);
    AddedInOrder(base, branch);
    forall i | 0 <= i < |base| ensures cs[i] == EntryOf(base, branch, i).change {
      assert es[i] == EntryOf(base, branch, i);
    }
    forall i | 0 <= i < |base| && cs[i].Deleted? ensures Leftover(base, branch) == [] {
      DeletedThenNothingAdded(base, branch, i);
    }
  }

  lemma {:induction false} RankGrows(seen: seq<bool>, i: nat)
    requires i <= |seen|
    ensures Unseen(seen[..i]) <= Unseen(seen)
    decreases |seen|
  {
    if i == |seen| {
      assert seen[..i] == seen;
    } else {
      var front := seen[..|seen| - 1];
      RankGrows(front, i);
      assert front[..i] == seen[..i];
    }
  }

  lemma {:induction false} UnseenHas(seen: seq<bool>, j: nat) returns (k: nat)
    requires j < |seen| && !seen[j]
    ensures k < |Unseen(seen)| && Unseen(seen)[k] == j && Rank(seen[..j]) == k
    decreases |seen|
  {
    var front := seen[..|seen| - 1];
    if j < |front| {
      k := UnseenHas(front, j);
      assert front[..j] == seen[..j];
    } else {
      k := |Unseen(front)|;
      assert seen[..j] == front;
    }
  }

  /** The entry uses branch chunk `j`. */
  predicate Uses(e: Entry, branch: seq<AstChunk>, j: nat)
    requires j < |branch|
  {
    && e.branch == At(j)
    && match e.change
       case Unchanged(c) => c == branch[j]
       case Modified(_, b) => b == branch[j]
       case Added(c) => c == branch[j]
       case Deleted(_) => false
  }

  /** The k-th unseen position has rank k. */
  lemma UnseenRank(seen: seq<bool>, k: nat) returns (p: nat)
    requires k < |Unseen(seen)|
    ensures p < |seen| && !seen[p] && Unseen(seen)[k] == p && Rank(seen[..p]) == k
  {
    UnseenBound(seen, k);
    p := Unseen(seen)[k];
    var l := UnseenHas(seen, p);
    UnseenIncreases(seen);
  }

  /** An unmatched branch chunk is taken by the base chunk of its rank, or added. */
  lemma FreeUsed(base: seq<AstChunk>, branch: seq<AstChunk>, j: nat) returns (p: nat)
    requires j < |branch| && !BranchMatched(base, branch, j)
    ensures p < |Entries(base, branch)| && Uses(Entries(base, branch)[p], branch, j)
  {
    var taken := Unseen(BaseSeen(base, branch));
    var k := UnseenHas(BranchSeen(base, branch), j);
    if k < |taken| {
      p := UnseenRank(BaseSeen(base, branch), k);
      assert Entries(base, branch)[p] == EntryOf(base, branch, p);
    } else {
      p := AddedAt(base, branch, k - |taken|);
    }
  }

  lemma AddedAt(base: seq<AstChunk>, branch: seq<AstChunk>, k: nat) returns (p: nat)
    requires k < |Leftover(base, branch)|
    ensures p == |base| + k && p < |Entries(base, branch)|
    ensures Leftover(base, branch)[k] < |branch|
    ensures Entries(base, branch)[p] == AddedEntry(branch, Leftover(base, branch)[k])
    ensures Leftover(base, branch)[k] == Unseen(BranchSeen(base, branch))[Rank(BaseSeen(base, branch)) + k]
  {
    LeftoverBound(base, branch);
    p := |base| + k;
  }

  /** Every branch chunk is used by some entry ... */
  lemma BranchUsed(base: seq<AstChunk>, branch: seq<AstChunk>, j: nat) returns (p: nat)
    requires j < |branch|
    ensures p < |Entries(base, branch)| && Uses(Entries(base, branch)[p], branch, j)
  {
    if BranchMatched(base, branch, j) {
      p := LastWithText(base, branch[j].text);
      assert Entries(base, branch)[p] == EntryOf(base, branch, p);
      assert First(branch, branch[j].text) == j;
    } else {
      p := FreeUsed(base, branch, j);
    }
  }

  lemma {:induction false} LastWithText(cs: seq<AstChunk>, text: string) returns (i: nat)
    requires Occurs(cs, text)
    ensures i < |cs| && cs[i].text == text && !Within(cs, i + 1, |cs|, text)
  {
    i := |cs| - 1;
    while cs[i].text != text
      invariant i < |cs| && !Within(cs, i + 1, |cs|, text)
      decreases i
    {
      i := i - 1;
    }
  }

  /** Where entry `p` stands among those that take an unmatched branch chunk. */
  function PlaceOf(base: seq<AstChunk>, branch: seq<AstChunk>, p: nat): nat {
    if p < |base| then Rank(BaseSeen(base, branch)[..p]) else Rank(BaseSeen(base, branch)) + p - |base|
  }

  lemma PlacesIncrease(base: seq<AstChunk>, branch: seq<AstChunk>, p: nat, q: nat)
    requires p < q && (p < |base| ==> !BaseMatched(base, branch, p))
    ensures PlaceOf(base, branch, p) < PlaceOf(base, branch, q)
  {
    var seen := BaseSeen(base, branch);
    if p < |base| {
      var m := if q < |base| then q else |base|;
      RankGrows(seen[..m], p + 1);
      assert seen[..m][..p + 1] == seen[..p + 1];
      RankStep(seen, p);
      assert seen[..|base|] == seen;
    }
  }

  /** The branch position of an entry: the first chunk with a matched text, or the free chunk of its rank. */
  lemma EntryPlace(base: seq<AstChunk>, branch: seq<AstChunk>, p: nat)
    requires p < |Entries(base, branch)|
    ensures var e, free, k := Entries(base, branch)[p], Unseen(BranchSeen(base, branch)), PlaceOf(base, branch, p);
            if p < |base| && BaseMatched(base, branch, p)
            then && e.branch.At? && e.branch.i < |branch| && BranchMatched(base, branch, e.branch.i)
                 && branch[e.branch.i].text == base[p].text
            else e.branch == if k < |free| then At(free[k]) else Max
  {
    LeftoverBound(base, branch);
    assert p < |base| ==> Entries(base, branch)[p] == EntryOf(base, branch, p);
    assert p >= |base| ==> Entries(base, branch)[p] == AddedEntry(branch, Leftover(base, branch)[p - |base|]);
  }

  /** ... and by no other: two entries never share a branch position. */
  lemma {:induction false} BranchUsedOnce(base: seq<AstChunk>, branch: seq<AstChunk>, p: nat, q: nat)
    requires p < q < |Entries(base, branch)|
    ensures var es := Entries(base, branch); es[p].branch.Max? || es[p].branch != es[q].branch
  {
    var seen, k, l := BranchSeen(base, branch), PlaceOf(base, branch, p), PlaceOf(base, branch, q);
    EntryPlace(base, branch, p);
    EntryPlace(base, branch, q);
    if k < |Unseen(seen)| { UnseenBound(seen, k); }
    if l < |Unseen(seen)| { UnseenBound(seen, l); }
    if p >= |base| || !BaseMatched(base, branch, p) {
      PlacesIncrease(base, branch, p, q);
      UnseenIncreases(seen);
    }
  }

  /** Unmatched base chunks take branch chunks in the branch's own order. */
  lemma ModifiedInOrder(base: seq<AstChunk>, branch: seq<AstChunk>, p: nat, q: nat)
    requires p < q < |base| && Changes(base, branch)[p].Modified? && Changes(base, branch)[q].Modified?
    ensures var es := Entries(base, branch);
            es[p].branch.At? && es[q].branch.At? && es[p].branch.i < es[q].branch.i
  {
    var es := Entries(base, branch);
    assert es[p] == EntryOf(base, branch, p) && es[q] == EntryOf(base, branch, q);
    UnseenIncreases(BranchSeen(base, branch));
    PlacesIncrease(base, branch, p, q);
  }

  ghost predicate Distinct(cs: seq<AstChunk>) {
    forall i, k :: 0 <= i < k < |cs| ==> cs[i].text != cs[k].text
  }

  /** Comparing a source with itself reports no change if and only if no chunk is repeated. */
  lemma {:induction false} SelfDiff(base: seq<AstChunk>)
    ensures (forall i :: 0 <= i < |Changes(base, base)| ==> Changes(base, base)[i].Unchanged?) <==> Distinct(base)
  {
    var es, cs := Entries(base, base), Changes(base, base);
    if Distinct(base) {
      AllSeen(BranchSeen(base, base));
      forall i | 0 <= i < |base| ensures cs[i].Unchanged? {
        assert es[i] == EntryOf(base, base, i);
      }
    } else {
      var i, k :| 0 <= i < k < |base| && base[i].text == base[k].text;
      assert es[i] == EntryOf(base, base, i) && !BaseMatched(base, base, i);
      assert !cs[i].Unchanged?;
    }
  }
}
