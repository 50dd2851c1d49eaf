/** What the list of changes itself says: which base chunks are unchanged, which meet which branch chunks, and that it
    holds every branch chunk once. */
module DiffLaws {
  import opened Text
  import opened Chunker
  import opened Diff
  import opened DiffTheory

  // ---------------------------------------------------------------- matching, by texts alone

  /** The text occurs in the other list, and nowhere later in this one. */
  ghost predicate LastShared(base: seq<AstChunk>, branch: seq<AstChunk>, i: nat)
    requires i < |base|
  {
    && (exists j :: 0 <= j < |branch| && branch[j].text == base[i].text)
    && (forall k :: i < k < |base| ==> base[k].text != base[i].text)
  }

  /** The text occurs in the base, and nowhere earlier in the branch. */
  ghost predicate FirstShared(base: seq<AstChunk>, branch: seq<AstChunk>, j: nat)
    requires j < |branch|
  {
    && (exists i :: 0 <= i < |base| && base[i].text == branch[j].text)
    && (forall k :: 0 <= k < j ==> branch[k].text != branch[j].text)
  }

  /** The base positions from `i` on that no equal branch chunk takes. */
  ghost function LoneBase(base: seq<AstChunk>, branch: seq<AstChunk>, i: nat): seq<nat>
    requires i <= |base|
    decreases |base| - i
  {
    if i == |base| then []
    else (if LastShared(base, branch, i) then [] else [i]) + LoneBase(base, branch, i + 1)
  }

  ghost function LoneBranch(base: seq<AstChunk>, branch: seq<AstChunk>, j: nat): seq<nat>
    requires j <= |branch|
    decreases |branch| - j
  {
    if j == |branch| then []
    else (if FirstShared(base, branch, j) then [] else [j]) + LoneBranch(base, branch, j + 1)
  }

  lemma SharedIs(base: seq<AstChunk>, branch: seq<AstChunk>)
    ensures forall i :: 0 <= i < |base| ==> (BaseMatched(base, branch, i) <==> LastShared(base, branch, i))
    ensures forall j :: 0 <= j < |branch| ==> (BranchMatched(base, branch, j) <==> FirstShared(base, branch, j))
  {
  }

  /** `Unseen` collects from the back, these lists from the front. */
  lemma {:induction false} UnseenFront(seen: seq<bool>, i: nat)
    requires i < |seen|
    ensures Unseen(seen[i..]) == (if seen[i] then [] else [0]) + Later(Unseen(seen[i + 1..]), 1)
    decreases |seen|
  {
    var n := |seen| - 1;
    if i == n {
      assert seen[i..] == [seen[i]] && seen[i + 1..] == [] && [seen[i]][..0] == [];
      assert Unseen([seen[i]]) == if seen[i] then [] else [0];
    } else {
      var front := seen[..n];
      UnseenFront(front, i);
      assert seen[i..][..n - i] == front[i..] && seen[i + 1..][..n - i - 1] == front[i + 1..];
      LaterPush(Unseen(front[i + 1..]), n - i - 1, 1);
    }
  }

  /** All positions moved up. */
  function Later(at: seq<nat>, d: nat): (r: seq<nat>)
    ensures |r| == |at| && forall k :: 0 <= k < |at| ==> r[k] == at[k] + d
  {
    seq(|at|, k requires 0 <= k < |at| => at[k] + d)
  }

  lemma LaterPush(at: seq<nat>, x: nat, d: nat)
    ensures Later(at + [x], d) == Later(at, d) + [x + d] && Later(at + [], d) == Later(at, d)
  {
  }

  lemma LaterTwice(unseen: bool, at: seq<nat>, i: nat)
    ensures Later((if unseen then [0] else []) + Later(at, 1), i) == (if unseen then [i] else []) + Later(at, i + 1)
  {
  }

  /** The unseen positions from `i` on, from the front. */
  function Lone(seen: seq<bool>, i: nat): seq<nat>
    requires i <= |seen|
    decreases |seen| - i
  {
    if i == |seen| then [] else (if seen[i] then [] else [i]) + Lone(seen, i + 1)
  }

  lemma {:induction false} LoneIsUnseen(seen: seq<bool>, i: nat)
    requires i <= |seen|
    ensures Lone(seen, i) == Later(Unseen(seen[i..]), i)
    decreases |seen| - i
  {
    if i == |seen| {
      assert seen[i..] == [];
    } else {
      LoneIsUnseen(seen, i + 1);
      UnseenFront(seen, i);
      LaterTwice(!seen[i], Unseen(seen[i + 1..]), i);
    }
  }

  lemma {:induction false} LoneBaseIs(base: seq<AstChunk>, branch: seq<AstChunk>, i: nat)
    requires i <= |base|
    ensures LoneBase(base, branch, i) == Lone(BaseSeen(base, branch), i)
    decreases |base| - i
  {
    if i < |base| {
      SharedIs(base, branch);
      LoneBaseIs(base, branch, i + 1);
    }
  }

  lemma {:induction false} LoneBranchIs(base: seq<AstChunk>, branch: seq<AstChunk>, j: nat)
    requires j <= |branch|
    ensures LoneBranch(base, branch, j) == Lone(BranchSeen(base, branch), j)
    decreases |branch| - j
  {
    if j < |branch| {
      SharedIs(base, branch);
      LoneBranchIs(base, branch, j + 1);
    }
  }

  lemma LoneAll(seen: seq<bool>)
    ensures Lone(seen, 0) == Unseen(seen)
  {
    LoneIsUnseen(seen, 0);
    assert seen[0..] == seen && Later(Unseen(seen), 0) == Unseen(seen);
  }

  lemma LoneIs(base: seq<AstChunk>, branch: seq<AstChunk>)
    ensures LoneBase(base, branch, 0) == Unseen(BaseSeen(base, branch))
    ensures LoneBranch(base, branch, 0) == Unseen(BranchSeen(base, branch))
  {
    LoneBaseIs(base, branch, 0);
    LoneBranchIs(base, branch, 0);
    LoneAll(BaseSeen(base, branch));
    LoneAll(BranchSeen(base, branch));
  }

  // ---------------------------------------------------------------- the laws

  /** Change `i` is unchanged exactly when base chunk `i` is the last with its text and the branch has that text; it
      then
      holds the first such branch chunk. */
  lemma UnchangedExactly(base: seq<AstChunk>, branch: seq<AstChunk>, i: nat)
    requires i < |base|
    ensures Changes(base, branch)[i].Unchanged? <==> LastShared(base, branch, i)
    ensures LastShared(base, branch, i) ==>
              exists j :: 0 <= j < |branch| && FirstShared(base, branch, j) && branch[j].text == base[i].text
                && Changes(base, branch)[i] == Unchanged(branch[j])
  {
    SharedIs(base, branch);
    assert Entries(base, branch)[i] == EntryOf(base, branch, i);
    if LastShared(base, branch, i) {
      var j := First(branch, base[i].text);
      assert Changes(base, branch)[i] == Unchanged(branch[j]);
    }
  }

  /** The k-th base chunk left over is modified into the k-th branch chunk left over; base chunks beyond these are
      deleted,
      branch chunks beyond these are added, in order. */
  lemma LoneExactly(base: seq<AstChunk>, branch: seq<AstChunk>, k: nat)
    ensures var cs, lone, free := Changes(base, branch), LoneBase(base, branch, 0), LoneBranch(base, branch, 0);
            && |cs| == |base| + (if |lone| < |free| then |free| - |lone| else 0)
            && (k < |lone| && k < |free| ==>
                  && lone[k] < |base| && free[k] < |branch|
                  && cs[lone[k]] == Modified(base[lone[k]], branch[free[k]]))
            && (k < |lone| && k >= |free| ==> lone[k] < |base| && cs[lone[k]] == Deleted(base[lone[k]]))
            && (|lone| <= k < |free| ==> free[k] < |branch| && cs[|base| + k - |lone|] == Added(branch[free[k]]))
  {
    var lone, free := LoneBase(base, branch, 0), LoneBranch(base, branch, 0);
    LoneIs(base, branch);
    if k < |free| { UnseenBound(BranchSeen(base, branch), k); }
    if k < |lone| {
      var p := UnseenRank(BaseSeen(base, branch), k);
      assert Entries(base, branch)[p] == EntryOf(base, branch, p);
    } else if k < |free| {
      var p := AddedAt(base, branch, k - |lone|);
    }
  }

  // ---------------------------------------------------------------- every branch chunk once

  /** The branch chunks that the changes hold, in order. */
  function Held(cs: seq<AstChange>): seq<AstChunk> {
    if cs == [] then []
    else
      (match cs[0]
       case Unchanged(c) => [c]
       case Modified(_, b) => [b]
       case Added(c) => [c]
       case Deleted(_) => []) + Held(cs[1..])
  }

  /** The branch positions that the entries use, in order. */
  function Used(es: seq<Entry>): seq<nat> {
    if es == [] then [] else (if es[0].branch.At? then [es[0].branch.i] else []) + Used(es[1..])
  }

  function Pick(cs: seq<AstChunk>, at: seq<nat>): (r: seq<AstChunk>)
    requires forall k :: 0 <= k < |at| ==> at[k] < |cs|
    ensures |r| == |at| && forall k :: 0 <= k < |at| ==> r[k] == cs[at[k]]
  {
    seq(|at|, k requires 0 <= k < |at| => cs[at[k]])
  }

  /** The entry's change holds the branch chunk at the entry's position, or none. */
  ghost predicate Faithful(e: Entry, branch: seq<AstChunk>) {
    match e.change
    case Unchanged(c) => e.branch.At? && e.branch.i < |branch| && c == branch[e.branch.i]
    case Modified(_, b) => e.branch.At? && e.branch.i < |branch| && b == branch[e.branch.i]
    case Added(c) => e.branch.At? && e.branch.i < |branch| && c == branch[e.branch.i]
    case Deleted(_) => e.branch.Max?
  }

  lemma EntryFaithful(base: seq<AstChunk>, branch: seq<AstChunk>, p: nat)
    requires p < |Entries(base, branch)|
    ensures Faithful(Entries(base, branch)[p], branch)
  {
    if p < |base| {
      assert Entries(base, branch)[p] == EntryOf(base, branch, p);
      if !BaseMatched(base, branch, p) {
        var k := Rank(BaseSeen(base, branch)[..p]);
        if k < |Unseen(BranchSeen(base, branch))| { UnseenBound(BranchSeen(base, branch), k); }
      }
    } else {
      var q := AddedAt(base, branch, p - |base|);
    }
  }

  function ChangesOf(es: seq<Entry>): (cs: seq<AstChange>)
    ensures |cs| == |es| && forall i :: 0 <= i < |es| ==> cs[i] == es[i].change
  {
    seq(|es|, i requires 0 <= i < |es| => es[i].change)
  }

  lemma {:induction false} HeldIsPicked(es: seq<Entry>, branch: seq<AstChunk>)
    requires forall i :: 0 <= i < |es| ==> Faithful(es[i], branch)
    ensures forall k :: 0 <= k < |Used(es)| ==> Used(es)[k] < |branch|
    ensures Held(ChangesOf(es)) == Pick(branch, Used(es))
    decreases |es|
  {
    if es != [] {
      assert Faithful(es[0], branch);
      HeldIsPicked(es[1..], branch);
      assert ChangesOf(es)[1..] == ChangesOf(es[1..]);
    }
  }

  lemma {:induction false} UsedHas(es: seq<Entry>, p: nat) returns (k: nat)
    requires p < |es| && es[p].branch.At?
    ensures k < |Used(es)| && Used(es)[k] == es[p].branch.i
    decreases |es|
  {
    if p == 0 {
      k := 0;
    } else {
      var l := UsedHas(es[1..], p - 1);
      k := l + |Used(es)| - |Used(es[1..])|;
    }
  }

  lemma {:induction false} UsedFrom(es: seq<Entry>, k: nat) returns (p: nat)
    requires k < |Used(es)|
    ensures p < |es| && es[p].branch == At(Used(es)[k])
    ensures k + (|es| - p) <= |es| + |Used(es)|
    decreases |es|
  {
    var d := |Used(es)| - |Used(es[1..])|;
    if k < d {
      p := 0;
    } else {
      var q := UsedFrom(es[1..], k - d);
      p := q + 1;
    }
  }

  lemma {:induction false} UsedDistinct(es: seq<Entry>)
    requires forall p, q :: 0 <= p < q < |es| ==> es[p].branch.Max? || es[p].branch != es[q].branch
    ensures forall k, l :: 0 <= k < l < |Used(es)| ==> Used(es)[k] != Used(es)[l]
    decreases |es|
  {
    if es != [] {
      UsedDistinct(es[1..]);
      if es[0].branch.At? {
        forall l | 0 <= l < |Used(es[1..])| ensures Used(es[1..])[l] != es[0].branch.i {
          var q := UsedFrom(es[1..], l);
          assert es[q + 1] == es[1..][q];
        }
      }
    }
  }

  function Range(n: nat): (r: seq<nat>)
    ensures |r| == n && forall k :: 0 <= k < n ==> r[k] == k
  {
    seq(n, k => k)
  }

  lemma PickInsert(cs: seq<AstChunk>, at: seq<nat>, q: nat)
    requires q < |at| && forall k :: 0 <= k < |at| ==> at[k] < |cs|
    ensures var less := at[..q] + at[q + 1..];
            && (forall k :: 0 <= k < |less| ==> less[k] < |cs|)
            && multiset(Pick(cs, at)) == multiset(Pick(cs, less)) + multiset{cs[at[q]]}
            && multiset(at) == multiset(less) + multiset{at[q]}
  {
    var less := at[..q] + at[q + 1..];
    var picked := Pick(cs, less);
    InsertCounts(picked, q, cs[at[q]]);
    assert Pick(cs, at) == picked[..q] + [cs[at[q]]] + picked[q..];
    InsertCounts(less, q, at[q]);
    assert at == less[..q] + [at[q]] + less[q..];
  }

  lemma {:induction false} PickPermuted(cs: seq<AstChunk>, a: seq<nat>, b: seq<nat>)
    requires multiset(a) == multiset(b)
    requires (forall k :: 0 <= k < |a| ==> a[k] < |cs|) && (forall k :: 0 <= k < |b| ==> b[k] < |cs|)
    ensures multiset(Pick(cs, a)) == multiset(Pick(cs, b))
    decreases |a|
  {
    if a == [] {
      assert |multiset(b)| == |b|;
    } else {
      assert a[0] in multiset(b);
      var q :| 0 <= q < |b| && b[q] == a[0];
      var rest, less := a[..0] + a[1..], b[..q] + b[q + 1..];
      PickInsert(cs, a, 0);
      PickInsert(cs, b, q);
      Cancel(multiset(rest), multiset(less), a[0]);
      PickPermuted(cs, rest, less);
    }
  }

  lemma Cancel<T>(x: multiset<T>, y: multiset<T>, e: T)
    requires x + multiset{e} == y + multiset{e}
    ensures x == y
  {
    assert x == x + multiset{e} - multiset{e} && y == y + multiset{e} - multiset{e};
  }

  lemma PickAll(cs: seq<AstChunk>, at: seq<nat>)
    requires forall k :: 0 <= k < |at| ==> at[k] < |cs|
    requires forall k, l :: 0 <= k < l < |at| ==> at[k] != at[l]
    requires forall j :: 0 <= j < |cs| ==> j in at
    ensures multiset(Pick(cs, at)) == multiset(cs)
  {
    var all := Range(|cs|);
    forall e: nat ensures e in at <==> e in all {
      if e in at {
        var k :| 0 <= k < |at| && at[k] == e;
        assert all[e] == e;
      }
    }
    SameMembers(at, all);
    PickPermuted(cs, at, all);
    assert Pick(cs, all) == cs;
  }

  /** The branch chunks that the changes hold are exactly the branch's chunks, each as often as it occurs there. */
  lemma BranchHeld(base: seq<AstChunk>, branch: seq<AstChunk>)
    ensures multiset(Held(Changes(base, branch))) == multiset(branch)
  {
    var es := Entries(base, branch);
    var used := Used(es);
    forall p | 0 <= p < |es| ensures Faithful(es[p], branch) {
      EntryFaithful(base, branch, p);
    }
    forall p, q | 0 <= p < q < |es| ensures es[p].branch.Max? || es[p].branch != es[q].branch {
      BranchUsedOnce(base, branch, p, q);
    }
    HeldIsPicked(es, branch);
    UsedDistinct(es);
    forall j | 0 <= j < |branch| ensures j in used {
      var p := BranchUsed(base, branch, j);
      var k := UsedHas(es, p);
    }
    PickAll(branch, used);
    assert ChangesOf(es) == Changes(base, branch);
  }
}
