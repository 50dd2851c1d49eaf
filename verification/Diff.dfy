/** The three-pass alignment of a base with one branch, on chunk lists. */
module Diff {
  import opened Text
  import opened Chunker

  datatype AstChange =
    | Unchanged(chunk: AstChunk)
    | Modified(base: AstChunk, branch: AstChunk)
    | Added(chunk: AstChunk)
    | Deleted(chunk: AstChunk)

  /** A position, or the largest index standing for a missing one. */
  datatype Slot = At(i: nat) | Max {
    predicate Below(o: Slot) {
      At? && (o.Max? || i < o.i)
    }
  }

  datatype Entry = Entry(base: Slot, branch: Slot, change: AstChange) {
    /** The sort key: base position, then branch position. */
    predicate Before(o: Entry) {
      base.Below(o.base) || (base == o.base && branch.Below(o.branch))
    }
  }

  // ---------------------------------------------------------------- which chunks match

  /** The text occurs at a position from `lo` up to `hi`. */
  predicate Within(cs: seq<AstChunk>, lo: nat, hi: nat, text: string)
    requires hi <= |cs|
  {
    exists i :: lo <= i < hi && cs[i].text == text
  }

  predicate Occurs(cs: seq<AstChunk>, text: string) {
    Within(cs, 0, |cs|, text)
  }

  /** A base chunk can match only if it is the last with its text. */
  predicate BaseMatched(base: seq<AstChunk>, branch: seq<AstChunk>, i: nat)
    requires i < |base|
  {
    Occurs(branch, base[i].text) && !Within(base, i + 1, |base|, base[i].text)
  }

  /** A branch chunk matches only if it is the first with its text. */
  predicate BranchMatched(base: seq<AstChunk>, branch: seq<AstChunk>, j: nat)
    requires j < |branch|
  {
    Occurs(base, branch[j].text) && !Within(branch, 0, j, branch[j].text)
  }

  function FirstFrom(cs: seq<AstChunk>, from: nat, text: string): (j: nat)
    requires from <= |cs|
    ensures from <= j <= |cs| && !Within(cs, from, j, text)
    ensures j < |cs| ==> cs[j].text == text
    decreases |cs| - from
  {
    if from == |cs| || cs[from].text == text then from else FirstFrom(cs, from + 1, text)
  }

  function First(cs: seq<AstChunk>, text: string): (j: nat)
    requires Occurs(cs, text)
    ensures j < |cs| && cs[j].text == text && !Within(cs, 0, j, text)
  {
    FirstFrom(cs, 0, text)
  }

  function BaseSeen(base: seq<AstChunk>, branch: seq<AstChunk>): (s: seq<bool>)
    ensures |s| == |base| && forall i :: 0 <= i < |s| ==> s[i] == BaseMatched(base, branch, i)
  {
    seq(|base|, i requires 0 <= i < |base| => BaseMatched(base, branch, i))
  }

  function BranchSeen(base: seq<AstChunk>, branch: seq<AstChunk>): (s: seq<bool>)
    ensures |s| == |branch| && forall j :: 0 <= j < |s| ==> s[j] == BranchMatched(base, branch, j)
  {
    seq(|branch|, j requires 0 <= j < |branch| => BranchMatched(base, branch, j))
  }

  /** The positions not seen, in order. */
  function Unseen(seen: seq<bool>): seq<nat> {
    if seen == [] then []
    else Unseen(seen[..|seen| - 1]) + (if seen[|seen| - 1] then [] else [|seen| - 1])
  }

  /** How many positions are not seen. */
  function Rank(seen: seq<bool>): nat {
    |Unseen(seen)|
  }

  // ---------------------------------------------------------------- the alignment

  /** What becomes of base chunk `i`: the k-th unmatched base chunk meets the k-th unmatched branch chunk. */
  function EntryOf(base: seq<AstChunk>, branch: seq<AstChunk>, i: nat): Entry
    requires i < |base|
  {
    if BaseMatched(base, branch, i) then
      var j := First(branch, base[i].text);
      Entry(At(i), At(j), Unchanged(branch[j]))
    else
      var free, k := Unseen(BranchSeen(base, branch)), Rank(BaseSeen(base, branch)[..i]);
      if k < |free| then
        UnseenBound(BranchSeen(base, branch), k);
        Entry(At(i), At(free[k]), Modified(base[i], branch[free[k]]))
      else
        Entry(At(i), Max, Deleted(base[i]))
  }

  /** Branch chunks that no base chunk took. */
  function Leftover(base: seq<AstChunk>, branch: seq<AstChunk>): seq<nat> {
    var free, k := Unseen(BranchSeen(base, branch)), Rank(BaseSeen(base, branch));
    if k < |free| then free[k..] else []
  }

  lemma {:induction false} UnseenBound(seen: seq<bool>, k: nat)
    requires k < |Unseen(seen)|
    ensures Unseen(seen)[k] < |seen| && !seen[Unseen(seen)[k]]
    decreases |seen|
  {
    var front := seen[..|seen| - 1];
    if k < |Unseen(front)| {
      UnseenBound(front, k);
    }
  }

  function AddedEntry(branch: seq<AstChunk>, j: nat): Entry
    requires j < |branch|
  {
    Entry(Max, At(j), Added(branch[j]))
  }

  lemma LeftoverBound(base: seq<AstChunk>, branch: seq<AstChunk>)
    ensures forall k :: 0 <= k < |Leftover(base, branch)| ==> Leftover(base, branch)[k] < |branch|
  {
    var free, n := Unseen(BranchSeen(base, branch)), Rank(BaseSeen(base, branch));
    forall k | 0 <= k < |Leftover(base, branch)| ensures Leftover(base, branch)[k] < |branch| {
      UnseenBound(BranchSeen(base, branch), n + k);
    }
  }

  /** All entries in sorted order: one for each base chunk, then the additions in branch order. */
  function Entries(base: seq<AstChunk>, branch: seq<AstChunk>): (es: seq<Entry>)
    ensures |es| == |base| + |Leftover(base, branch)|
  {
    LeftoverBound(base, branch);
    seq(|base|, i requires 0 <= i < |base| => EntryOf(base, branch, i)) +
    seq(|Leftover(base, branch)|, k requires 0 <= k < |Leftover(base, branch)| =>
        AddedEntry(branch, Leftover(base, branch)[k]))
  }

  /** `AstDiff::diff` on chunk lists. */
  function Changes(base: seq<AstChunk>, branch: seq<AstChunk>): (cs: seq<AstChange>)
    ensures |cs| == |base| + |Leftover(base, branch)|
  {
    var es := Entries(base, branch);
    seq(|es|, i requires 0 <= i < |es| => es[i].change)
  }

  // ---------------------------------------------------------------- the passes as written

  /** `base_index`: a repeated text keeps its last position. */
  method IndexBase(base: seq<AstChunk>) returns (index: map<string, nat>)
    ensures forall t :: t in index <==> Occurs(base, t)
    ensures forall t :: t in index ==>
              index[t] < |base| && base[index[t]].text == t && !Within(base, index[t] + 1, |base|, t)
  {
    index := map[];
    for i := 0 to |base|
      invariant forall t :: t in index <==> Within(base, 0, i, t)
      invariant forall t :: t in index ==> index[t] < i && base[index[t]].text == t && !Within(base, index[t] + 1, i, t)
    {
      index := index[base[i].text := i];
    }
  }

  /** `es` holds exactly the entries of the base chunks marked in `have`, each once. */
  ghost predicate Covers(base: seq<AstChunk>, branch: seq<AstChunk>, es: seq<Entry>, have: seq<bool>) {
    && |have| == |base|
    && (forall a :: 0 <= a < |es| ==>
          && es[a].base.At? && es[a].base.i < |base| && have[es[a].base.i]
          && es[a] == EntryOf(base, branch, es[a].base.i))
    && (forall a, b :: 0 <= a < b < |es| ==> es[a].base != es[b].base)
    && (forall i :: 0 <= i < |base| && have[i] ==> EntryOf(base, branch, i) in es)
  }

  lemma {:induction false} CoversPush(base: seq<AstChunk>, branch: seq<AstChunk>, es: seq<Entry>, have: seq<bool>,
                                      i: nat)
    requires Covers(base, branch, es, have) && i < |base| && !have[i]
    ensures Covers(base, branch, es + [EntryOf(base, branch, i)], have[i := true])
  {
    var e := EntryOf(base, branch, i);
    var fs := es + [e];
    assert e.base == At(i) && e == fs[|es|];
    assert forall a :: 0 <= a < |es| ==> fs[a] == es[a];
  }

  /** Pass 1: the first branch chunk with a base chunk's text takes the last such base chunk. */
  method MatchIdentical(base: seq<AstChunk>, branch: seq<AstChunk>)
    returns (es: seq<Entry>, baseSeen: seq<bool>, branchSeen: seq<bool>)
    ensures baseSeen == BaseSeen(base, branch) && branchSeen == BranchSeen(base, branch)
    ensures Covers(base, branch, es, baseSeen)
  {
    var index := IndexBase(base);
    es, baseSeen, branchSeen := [], seq(|base|, _ => false), seq(|branch|, _ => false);
    for j := 0 to |branch|
      invariant |baseSeen| == |base| && |branchSeen| == |branch|
      invariant Covers(base, branch, es, baseSeen)
      invariant forall i :: 0 <= i < |base| ==>
                  (baseSeen[i] <==> Within(branch, 0, j, base[i].text) && !Within(base, i + 1, |base|, base[i].text))
      invariant forall k :: 0 <= k < |branch| ==> (branchSeen[k] <==> k < j && BranchMatched(base, branch, k))
    {
      var text := branch[j].text;
      if text in index {
        var i := index[text];
        assert Occurs(base, text);
        if !baseSeen[i] {
          assert First(branch, text) == j;
          CoversPush(base, branch, es, baseSeen, i);
          baseSeen := baseSeen[i := true];
          branchSeen := branchSeen[j := true];
          es := es + [Entry(At(i), At(j), Unchanged(branch[j]))];
        }
      }
    }
  }

  function Drop<T>(s: seq<T>, k: nat): seq<T> {
    if k < |s| then s[k..] else []
  }

  lemma {:induction false} TakeFirstUnseen(seen: seq<bool>, j: nat)
    requires j < |seen| && !seen[j] && forall k :: 0 <= k < j ==> seen[k]
    ensures Unseen(seen) != [] && Unseen(seen)[0] == j && Unseen(seen[j := true]) == Unseen(seen)[1..]
    decreases |seen|
  {
    var front := seen[..|seen| - 1];
    if j < |front| {
      TakeFirstUnseen(front, j);
      assert seen[j := true][..|seen| - 1] == front[j := true];
    } else {
      AllSeen(front);
      assert seen[j := true][..|seen| - 1] == front;
    }
  }

  lemma {:induction false} AllSeen(seen: seq<bool>)
    ensures Unseen(seen) == [] <==> forall k :: 0 <= k < |seen| ==> seen[k]
    decreases |seen|
  {
    if seen != [] {
      AllSeen(seen[..|seen| - 1]);
    }
  }

  /** The first position not seen, or the length. */
  method FindUnseen(seen: seq<bool>) returns (j: nat)
    ensures j <= |seen|
    ensures j == |seen| ==> Unseen(seen) == []
    ensures j < |seen| ==> Unseen(seen) != [] && Unseen(seen)[0] == j && Unseen(seen[j := true]) == Unseen(seen)[1..]
  {
    j := 0;
    while j < |seen| && seen[j]
      invariant 0 <= j <= |seen| && forall k :: 0 <= k < j ==> seen[k]
    {
      j := j + 1;
    }
    if j < |seen| {
      TakeFirstUnseen(seen, j);
    } else {
      AllSeen(seen);
    }
  }

  function SeenOrBefore(seen: seq<bool>, i: nat): (s: seq<bool>)
    ensures |s| == |seen| && forall k :: 0 <= k < |s| ==> s[k] == (seen[k] || k < i)
  {
    seq(|seen|, k requires 0 <= k < |seen| => seen[k] || k < i)
  }

  lemma RankStep(seen: seq<bool>, i: nat)
    requires i < |seen|
    ensures Rank(seen[..i + 1]) == Rank(seen[..i]) + if seen[i] then 0 else 1
    ensures !seen[i] ==> SeenOrBefore(seen, i + 1) == SeenOrBefore(seen, i)[i := true]
    ensures seen[i] ==> SeenOrBefore(seen, i + 1) == SeenOrBefore(seen, i)
  {
    assert seen[..i + 1][..i] == seen[..i];
  }

  /** Pass 2: every base chunk still free takes the first branch chunk still free, or is deleted. */
  method PairUnmatched(base: seq<AstChunk>, branch: seq<AstChunk>, matched: seq<Entry>, baseSeen: seq<bool>,
                       branchSeen0: seq<bool>)
    returns (es: seq<Entry>, branchSeen: seq<bool>)
    requires baseSeen == BaseSeen(base, branch) && branchSeen0 == BranchSeen(base, branch)
    requires Covers(base, branch, matched, baseSeen)
    ensures Covers(base, branch, es, SeenOrBefore(baseSeen, |base|))
    ensures |branchSeen| == |branch| && Unseen(branchSeen) == Leftover(base, branch)
  {
    ghost var free := Unseen(branchSeen0);
    es, branchSeen := matched, branchSeen0;
    assert SeenOrBefore(baseSeen, 0) == baseSeen && baseSeen[..0] == [];
    for i := 0 to |base|
      invariant |branchSeen| == |branch|
      invariant Covers(base, branch, es, SeenOrBefore(baseSeen, i))
      invariant Unseen(branchSeen) == Drop(free, Rank(baseSeen[..i]))
    {
      RankStep(baseSeen, i);
      if !baseSeen[i] {
        var j := FindUnseen(branchSeen);
        CoversPush(base, branch, es, SeenOrBefore(baseSeen, i), i);
        if j < |branch| {
          es := es + [Entry(At(i), At(j), Modified(base[i], branch[j]))];
          branchSeen := branchSeen[j := true];
        } else {
          es := es + [Entry(At(i), Max, Deleted(base[i]))];
        }
      }
    }
    assert baseSeen[..|base|] == baseSeen;
  }

  function AddedEntries(branch: seq<AstChunk>, at: seq<nat>): (es: seq<Entry>)
    requires forall k :: 0 <= k < |at| ==> at[k] < |branch|
    ensures |es| == |at| && forall k :: 0 <= k < |at| ==> es[k] == AddedEntry(branch, at[k])
  {
    seq(|at|, k requires 0 <= k < |at| => AddedEntry(branch, at[k]))
  }

  /** Pass 3: what is left of the branch was added. */
  method CollectAdded(branch: seq<AstChunk>, branchSeen: seq<bool>) returns (es: seq<Entry>)
    requires |branchSeen| == |branch|
    requires forall k :: 0 <= k < |Unseen(branchSeen)| ==> Unseen(branchSeen)[k] < |branch|
    ensures es == AddedEntries(branch, Unseen(branchSeen))
  {
    es := [];
    for j := 0 to |branch|
      invariant |es| == |Unseen(branchSeen[..j])|
      invariant forall k :: 0 <= k < |es| ==>
          Unseen(branchSeen[..j])[k] < |branch| && es[k] == AddedEntry(branch, Unseen(branchSeen[..j])[k])
    {
      assert branchSeen[..j + 1][..j] == branchSeen[..j];
      if !branchSeen[j] {
        es := es + [Entry(Max, At(j), Added(branch[j]))];
      }
    }
    assert branchSeen[..|branch|] == branchSeen;
  }

  // ---------------------------------------------------------------- sorting

  ghost predicate Sorted(es: seq<Entry>) {
    forall a, b :: 0 <= a < b < |es| ==> !es[b].Before(es[a])
  }

  /** Sorting by key, modelled as insertion sort. */
  method SortByKey(es: seq<Entry>) returns (r: seq<Entry>)
    ensures Sorted(r) && multiset(r) == multiset(es)
  {
    r := [];
    for i := 0 to |es|
      invariant Sorted(r) && multiset(r) == multiset(es[..i])
    {
      var e, k := es[i], |r|;
      while k > 0 && e.Before(r[k - 1])
        invariant 0 <= k <= |r| && forall a :: k <= a < |r| ==> e.Before(r[a])
      {
        k := k - 1;
      }
      InsertSorted(r, k, e);
      InsertCounts(r, k, e);
      r := r[..k] + [e] + r[k..];
      assert es[..i + 1] == es[..i] + [e];
    }
    assert es[..|es|] == es;
  }

  lemma InsertSorted(r: seq<Entry>, k: nat, e: Entry)
    requires Sorted(r) && k <= |r|
    requires forall a :: k <= a < |r| ==> e.Before(r[a])
    requires k > 0 ==> !e.Before(r[k - 1])
    ensures Sorted(r[..k] + [e] + r[k..])
  {
    var s := r[..k] + [e] + r[k..];
    forall a, b | 0 <= a < b < |s| ensures !s[b].Before(s[a]) {
      if b == k && a < k - 1 {
        assert !r[k - 1].Before(r[a]) && !e.Before(r[k - 1]);
      }
    }
  }

  ghost predicate Increasing(es: seq<Entry>) {
    forall a, b :: 0 <= a < b < |es| ==> es[a].Before(es[b])
  }

  lemma SameHead(r: seq<Entry>, es: seq<Entry>)
    requires Sorted(r) && Increasing(es) && multiset(r) == multiset(es) && es != []
    ensures r != [] && r[0] == es[0]
  {
    assert es[0] in multiset(r);
    var p :| 0 <= p < |r| && r[p] == es[0];
    assert r[0] in multiset(es);
    var q :| 0 <= q < |es| && es[q] == r[0];
  }

  lemma TailSorted(r: seq<Entry>)
    requires Sorted(r) && r != []
    ensures Sorted(r[1..])
  {
  }

  lemma TailIncreasing(es: seq<Entry>)
    requires Increasing(es) && es != []
    ensures Increasing(es[1..])
  {
  }

  /** A strictly increasing list is the only sorted arrangement of its elements. */
  lemma {:induction false} SortedUnique(r: seq<Entry>, es: seq<Entry>)
    requires Sorted(r) && Increasing(es) && multiset(r) == multiset(es)
    ensures r == es
    decreases |es|
  {
    if es == [] {
      assert |multiset(r)| == |r|;
    } else {
      SameHead(r, es);
      TailSorted(r);
      TailIncreasing(es);
      TailCounts(r);
      TailCounts(es);
      SortedUnique(r[1..], es[1..]);
      assert es == [es[0]] + es[1..] && r == [r[0]] + r[1..];
    }
  }

  /** The entries collected for the base chunks, in whatever order, are the aligned ones. */
  lemma CoversAll(base: seq<AstChunk>, branch: seq<AstChunk>, es: seq<Entry>, have: seq<bool>, front: seq<Entry>)
    requires Covers(base, branch, es, have) && forall i :: 0 <= i < |base| ==> have[i]
    requires |front| == |base| && forall i :: 0 <= i < |base| ==> front[i] == EntryOf(base, branch, i)
    ensures multiset(es) == multiset(front)
  {
    forall e | e in es ensures e in front {
      assert front[e.base.i] == e;
    }
    forall e | e in front ensures e in es {
      var i :| 0 <= i < |front| && front[i] == e;
    }
    SameMembers(es, front);
  }

  lemma {:induction false} UnseenIncreases(seen: seq<bool>)
    ensures forall a, b :: 0 <= a < b < |Unseen(seen)| ==> Unseen(seen)[a] < Unseen(seen)[b]
    ensures forall a :: 0 <= a < |Unseen(seen)| ==> Unseen(seen)[a] < |seen|
    decreases |seen|
  {
    if seen != [] {
      UnseenIncreases(seen[..|seen| - 1]);
    }
  }

  lemma EntriesIncrease(base: seq<AstChunk>, branch: seq<AstChunk>)
    ensures Increasing(Entries(base, branch))
  {
    var es, free, n := Entries(base, branch), Unseen(BranchSeen(base, branch)), Rank(BaseSeen(base, branch));
    UnseenIncreases(BranchSeen(base, branch));
    LeftoverBound(base, branch);
    forall a, b | 0 <= a < b < |es| ensures es[a].Before(es[b]) {
      if a >= |base| {
        assert es[a] == AddedEntry(branch, free[n + a - |base|]) && es[b] == AddedEntry(branch, free[n + b - |base|]);
      } else {
        assert es[a] == EntryOf(base, branch, a) && es[a].base == At(a);
        assert es[b].base == if b < |base| then At(b) else Max;
      }
    }
  }

  /** The whole alignment. */
  method DiffChunks(base: seq<AstChunk>, branch: seq<AstChunk>) returns (changes: seq<AstChange>)
    ensures changes == Changes(base, branch)
  {
    var es, baseSeen, branchSeen := MatchIdentical(base, branch);
    es, branchSeen := PairUnmatched(base, branch, es, baseSeen, branchSeen);
    LeftoverBound(base, branch);
    var added := CollectAdded(branch, branchSeen);
    ghost var front := seq(|base|, i requires 0 <= i < |base| => EntryOf(base, branch, i));
    CoversAll(base, branch, es, SeenOrBefore(baseSeen, |base|), front);
    assert Entries(base, branch) == front + added;
    var sorted := SortByKey(es + added);
    EntriesIncrease(base, branch);
    SortedUnique(sorted, Entries(base, branch));
    changes := seq(|sorted|, i requires 0 <= i < |sorted| => sorted[i].change);
  }
}
