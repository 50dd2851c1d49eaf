/** Resolving every conflict of a merge, one after another. */
module ResolveAll {
  import opened Text
  import opened SyntaxGate
  import opened GateTheory
  import opened Chunker
  import opened Merge
  import opened MergeTheory
  import opened Resolution
  import opened ResolutionTheory

  /** Whole lines, none of which ends like the first line of a marker. */
  ghost predicate MarkerFree(s: string) {
    Terminated(s) && forall i: nat :: !OccursAt(s, HEAD, i)
  }

  lemma HeadHasOneFeed(i: nat)
    requires i < |HEAD| - 1
    ensures HEAD[i] != '\n'
  {
  }

  lemma Inside(a: string, b: string, i: nat)
    requires i + |HEAD| <= |a|
    ensures OccursAt(a + b, HEAD, i) <==> OccursAt(a, HEAD, i)
  {
    assert (a + b)[i..i + |HEAD|] == a[i..i + |HEAD|];
  }

  lemma Across(a: string, b: string, i: nat)
    requires Terminated(a) && i < |a| < i + |HEAD| <= |a + b|
    ensures !OccursAt(a + b, HEAD, i)
  {
    var k := |a| - 1 - i;
    assert (a + b)[i..i + |HEAD|][k] == a[|a| - 1];
    HeadHasOneFeed(k);
  }

  /** Up to the end of marker-free text no marker can begin. */
  lemma NoMarkerBefore(a: string, b: string, i: nat)
    requires MarkerFree(a) && OccursAt(a + b, HEAD, i)
    ensures |a| <= i
  {
    if i + |HEAD| <= |a| {
      Inside(a, b, i);
    } else if i < |a| {
      Across(a, b, i);
    }
  }

  lemma {:induction false} MarkerFreeConcat(parts: seq<string>)
    requires forall i :: 0 <= i < |parts| ==> MarkerFree(parts[i])
    ensures MarkerFree(Concat(parts))
  {
    if parts != [] {
      var a, b := parts[0], Concat(parts[1..]);
      MarkerFreeConcat(parts[1..]);
      forall i: nat ensures !OccursAt(a + b, HEAD, i) {
        if OccursAt(a + b, HEAD, i) {
          NoMarkerBefore(a, b, i);
          assert (a + b)[i..i + |HEAD|] == b[i - |a|..i - |a| + |HEAD|];
          assert OccursAt(b, HEAD, i - |a|);
        }
      }
    }
  }

  /** How many conflicts come before outcome `i`. */
  function Earlier(os: seq<Outcome>, i: nat): nat
    requires i <= |os|
  {
    |ConflictsOf(os[..i])|
  }

  lemma EarlierStep(os: seq<Outcome>, m: nat, j: nat)
    requires m < |os| && j == m + 1
    ensures Earlier(os, j) == Earlier(os, m) + if os[m].Conflicting? then 1 else 0
  {
    OutcomePush(os, m);
  }

  lemma {:induction false} EarlierGrows(os: seq<Outcome>, i: nat, j: nat)
    requires i < j <= |os|
    ensures Earlier(os, i) <= Earlier(os, j)
    ensures os[i].Conflicting? ==> Earlier(os, i) < Earlier(os, j)
    decreases j
  {
    var m := j - 1;
    EarlierStep(os, m, j);
    if i < m {
      EarlierGrows(os, i, m);
    }
  }

  /** Which of the first `n` outcomes is conflict `k`. */
  function Spot(os: seq<Outcome>, n: nat, k: nat): (i: nat)
    requires n <= |os| && k < Earlier(os, n)
    ensures i < n && os[i].Conflicting? && Earlier(os, i) == k
    ensures os[i].Conflicting? ==> os[i].block == ConflictsOf(os[..n])[k]
  {
    EarlierStep(os, n - 1, n);
    OutcomePush(os, n - 1);
    if k < Earlier(os, n - 1) then Spot(os, n - 1, k) else n - 1
  }

  /** The pieces after the first `k` conflicts have been resolved. */
  function Patched(os: seq<Outcome>, rs: seq<string>, k: nat): (ps: seq<string>)
    requires |rs| == |ConflictsOf(os)| && k <= |rs|
    ensures |ps| == |os|
    ensures forall i :: 0 <= i < |os| ==>
              ps[i] == if os[i].Conflicting? && Earlier(os, i) < k then rs[Earlier(os, i)] else PieceOf(os[i])
  {
    seq(|os|, i requires 0 <= i < |os| =>
      if os[i].Conflicting? && Earlier(os, i) < k then rs[Earlier(os, i)] else PieceOf(os[i]))
  }

  lemma PatchedStep(os: seq<Outcome>, rs: seq<string>, k: nat, i: nat)
    requires |rs| == |ConflictsOf(os)| && k < |rs| && i < |os| && os[i].Conflicting? && Earlier(os, i) == k
    ensures Patched(os, rs, k + 1) == Patched(os, rs, k)[i := rs[k]]
    ensures forall j :: 0 <= j < i && os[j].Conflicting? ==> Earlier(os, j) < k
  {
    forall j | 0 <= j < |os| && os[j].Conflicting?
      ensures j < i ==> Earlier(os, j) < k
      ensures i < j ==> k < Earlier(os, j)
    {
      if j < i { EarlierGrows(os, j, i); }
      if i < j { EarlierGrows(os, i, j); }
    }
  }

  /** The text after the first `k` conflicts have been resolved. */
  function TextAfter(base: seq<AstChunk>, versions: seq<Version>, rs: seq<string>, k: nat): string
    requires |rs| == |ConflictsOf(Outcomes(base, versions))| && k <= |rs|
  {
    Concat(Patched(Outcomes(base, versions), rs, k) + Dedupe(Additions(base, versions)))
  }

  lemma MarkerStarts(block: ConflictBlock)
    ensures HEAD <= Marker(block)
  {
  }

  /** The position of conflict `k` among the base chunks. */
  function SpotOf(os: seq<Outcome>, k: nat): (i: nat)
    requires k < |ConflictsOf(os)|
    ensures i < |os| && os[i].Conflicting? && Earlier(os, i) == k && os[i].block == ConflictsOf(os)[k]
  {
    assert os[..|os|] == os;
    Spot(os, |os|, k)
  }

  /** Where conflict `k` stands in the text when the ones before it are resolved. */
  function Place(base: seq<AstChunk>, versions: seq<Version>, rs: seq<string>, k: nat): nat
    requires |rs| == |ConflictsOf(Outcomes(base, versions))| && k < |rs|
  {
    var os := Outcomes(base, versions);
    |Concat(Patched(os, rs, k)[..SpotOf(os, k)])|
  }

  /** The marker of conflict `k` occurs nowhere before its own place. */
  ghost predicate Unmasked(base: seq<AstChunk>, versions: seq<Version>, rs: seq<string>, k: nat)
    requires |rs| == |ConflictsOf(Outcomes(base, versions))| && k < |rs|
  {
    forall j: nat :: j < Place(base, versions, rs, k) ==>
      !OccursAt(TextAfter(base, versions, rs, k), Marker(ConflictsOf(Outcomes(base, versions))[k]), j)
  }

  /** The next conflict's marker stands at its place; it is what gets replaced exactly when nothing before it matches,
      and then exactly that conflict is resolved. */
  lemma ResolveNext(base: seq<AstChunk>, versions: seq<Version>, rs: seq<string>, k: nat)
    requires |rs| == |ConflictsOf(Outcomes(base, versions))| && k < |rs|
    ensures var text, marker := TextAfter(base, versions, rs, k), Marker(ConflictsOf(Outcomes(base, versions))[k]);
            && FindFrom(text, marker, 0).Some?
            && FindFrom(text, marker, 0).value <= Place(base, versions, rs, k)
            && (Unmasked(base, versions, rs, k) <==> FindFrom(text, marker, 0).value == Place(base, versions, rs, k))
            && (Unmasked(base, versions, rs, k) ==>
                  ReplaceFirst(text, marker, rs[k]) == TextAfter(base, versions, rs, k + 1))
  {
    var os, adds := Outcomes(base, versions), Dedupe(Additions(base, versions));
    var i := SpotOf(os, k);
    PatchedStep(os, rs, k, i);
    assert Patched(os, rs, k)[i] == Marker(ConflictsOf(os)[k]);
    SpliceMarker(Patched(os, rs, k), adds, i, Marker(ConflictsOf(os)[k]), rs[k]);
  }

  lemma SpliceMarker(ps: seq<string>, adds: seq<string>, i: nat, marker: string, r: string)
    requires i < |ps| && ps[i] == marker
    ensures var s, at := Concat(ps + adds), |Concat(ps[..i])|;
            && OccursAt(s, marker, at)
            && (FindFrom(s, marker, 0) == Some(at) ==> ReplaceFirst(s, marker, r) == Concat(ps[i := r] + adds))
  {
    var all, new_ := ps + adds, ps[i := r] + adds;
    ConcatAt(all, i);
    ConcatAt(new_, i);
    assert all[..i] == ps[..i] && new_[..i] == ps[..i] && new_[i + 1..] == all[i + 1..];
    Splice(Concat(ps[..i]), marker, Concat(all[i + 1..]));
  }

  lemma Splice(a: string, marker: string, b: string)
    ensures var s := a + marker + b;
            OccursAt(s, marker, |a|) && s[..|a|] == a && s[|a| + |marker|..] == b
  {
  }

  /** Nothing before the next conflict looks like a marker. */
  lemma PatchedFront(base: seq<AstChunk>, versions: seq<Version>, rs: seq<string>, k: nat, i: nat)
    requires |rs| == |ConflictsOf(Outcomes(base, versions))| && k < |rs| && i < |base|
    requires forall t :: t in Pool(base, versions) ==> MarkerFree(t)
    requires forall j :: 0 <= j < |rs| ==> MarkerFree(rs[j])
    requires forall j :: 0 <= j < i && Outcomes(base, versions)[j].Conflicting? ==>
               Earlier(Outcomes(base, versions), j) < k
    ensures MarkerFree(Concat(Patched(Outcomes(base, versions), rs, k)[..i]))
  {
    var os := Outcomes(base, versions);
    var ps := Patched(os, rs, k)[..i];
    PieceOrigin(base, versions);
    forall j | 0 <= j < |ps| ensures MarkerFree(ps[j]) {
      assert ps[j] == Patched(os, rs, k)[j];
      assert os[j].Resolved? ==> os[j].text in Pool(base, versions);
    }
    MarkerFreeConcat(ps);
  }

  lemma {:induction false} FoundAt(a: string, block: ConflictBlock, b: string, i: nat)
    requires MarkerFree(a) && OccursAt(a + Marker(block) + b, Marker(block), i)
    ensures |a| <= i
  {
    var marker := Marker(block);
    var s := a + marker + b;
    MarkerStarts(block);
    assert s[i..i + |HEAD|] == s[i..i + |marker|][..|HEAD|];
    assert s == a + (marker + b);
    NoMarkerBefore(a, marker + b, i);
  }

  /** If sources and resolutions are whole lines without the first line of a marker, no conflict is masked. */
  lemma MarkerFreeUnmasked(base: seq<AstChunk>, versions: seq<Version>, rs: seq<string>, k: nat)
    requires |rs| == |ConflictsOf(Outcomes(base, versions))| && k < |rs|
    requires forall t :: t in Pool(base, versions) ==> MarkerFree(t)
    requires forall j :: 0 <= j < |rs| ==> MarkerFree(rs[j])
    ensures Unmasked(base, versions, rs, k)
  {
    var os := Outcomes(base, versions);
    var i := SpotOf(os, k);
    PatchedStep(os, rs, k, i);
    PatchedFront(base, versions, rs, k, i);
    NothingEarlier(Patched(os, rs, k), Dedupe(Additions(base, versions)), i, ConflictsOf(os)[k]);
  }

  lemma NothingEarlier(ps: seq<string>, adds: seq<string>, i: nat, block: ConflictBlock)
    requires i < |ps| && ps[i] == Marker(block) && MarkerFree(Concat(ps[..i]))
    ensures forall j: nat :: j < |Concat(ps[..i])| ==> !OccursAt(Concat(ps + adds), Marker(block), j)
  {
    var all := ps + adds;
    ConcatAt(all, i);
    assert all[..i] == ps[..i];
    forall j: nat | OccursAt(Concat(all), Marker(block), j) ensures |Concat(ps[..i])| <= j {
      FoundAt(Concat(ps[..i]), block, Concat(all[i + 1..]), j);
    }
  }

  /** A resolution that spells a later conflict's marker masks it: the replacement then hits the resolution. */
  lemma MaskingResolution(base: seq<AstChunk>, versions: seq<Version>, rs: seq<string>)
    requires |rs| == |ConflictsOf(Outcomes(base, versions))| >= 2
    requires rs[0] == Marker(ConflictsOf(Outcomes(base, versions))[1])
    ensures var text, marker := TextAfter(base, versions, rs, 1), rs[0];
            && FindFrom(text, marker, 0).Some? && FindFrom(text, marker, 0).value < Place(base, versions, rs, 1)
            && !Unmasked(base, versions, rs, 1)
  {
    var os := Outcomes(base, versions);
    var i, j := SpotOf(os, 0), SpotOf(os, 1);
    var ps := Patched(os, rs, 1);
    if j <= i { EarlierOrder(os, j, i); }
    PieceBefore(ps, Dedupe(Additions(base, versions)), i, j, rs[0]);
    ResolveNext(base, versions, rs, 1);
  }

  lemma PieceBefore(ps: seq<string>, adds: seq<string>, i: nat, j: nat, marker: string)
    requires i < j < |ps| && ps[i] == marker != []
    ensures exists at: nat :: at < |Concat(ps[..j])| && OccursAt(Concat(ps + adds), marker, at)
  {
    SpliceMarker(ps, adds, i, marker, "");
    ConcatAt(ps[..j], i);
    assert ps[..j][..i] == ps[..i];
  }

  lemma EarlierOrder(os: seq<Outcome>, j: nat, i: nat)
    requires j <= i < |os|
    ensures Earlier(os, j) <= Earlier(os, i)
  {
    if j < i { EarlierGrows(os, j, i); }
  }

  lemma FineConcat(ps: seq<string>)
    requires forall j :: 0 <= j < |ps| ==> Fine(ps[j])
    ensures Fine(Concat(ps))
  {
    NestedConcat(ps);
    NeutralConcat(ps);
  }

  /** Merged text passes the gate with its conflict markers still in it: the gate does not see them. */
  lemma MarkedMergePasses(sp: Splitter, base: string, branches: seq<Branch>, language: Language)
    requires Accepted(base, branches)
    ensures Passes(MergeTexts(sp, base, branches, language).merged, language)
  {
    var ps := MergedPieces(sp.Chunks(base), Split(sp, branches));
    PiecesNested(sp, base, branches);
    FineConcat(ps);
    NeutralGate(Concat(ps));
  }

  lemma PatchedFine(base: seq<AstChunk>, versions: seq<Version>, ps: seq<string>, rs: seq<string>, k: nat)
    requires |rs| == |ConflictsOf(Outcomes(base, versions))| && k <= |rs| && ps == MergedPieces(base, versions)
    requires forall j :: 0 <= j < |rs| ==> Fine(rs[j])
    requires forall j :: 0 <= j < |ps| ==> Fine(ps[j])
    ensures Fine(TextAfter(base, versions, rs, k))
  {
    var patched := Patched(Outcomes(base, versions), rs, k) + Dedupe(Additions(base, versions));
    forall j | 0 <= j < |patched| ensures Fine(patched[j]) {
      assert Fine(ps[j]);
    }
    FineConcat(patched);
  }

  lemma NeutralAccepted(rs: seq<string>)
    requires forall j :: 0 <= j < |rs| ==> Neutral(rs[j]) && Accepts(rs[j])
    ensures forall j :: 0 <= j < |rs| ==> Fine(rs[j])
  {
    forall j | 0 <= j < |rs| ensures Fine(rs[j]) {
      NeutralGate(rs[j]);
    }
  }

  lemma TextAfterFine(sp: Splitter, base: string, branches: seq<Branch>, rs: seq<string>, k: nat)
    requires Accepted(base, branches)
    requires |rs| == |ConflictsOf(Outcomes(sp.Chunks(base), Split(sp, branches)))| && k <= |rs|
    requires forall j :: 0 <= j < |rs| ==> Fine(rs[j])
    ensures Fine(TextAfter(sp.Chunks(base), Split(sp, branches), rs, k))
  {
    var cs, vs := sp.Chunks(base), Split(sp, branches);
    PiecesNested(sp, base, branches);
    PatchedFine(cs, vs, MergedPieces(cs, vs), rs, k);
  }

  /** Resolving the conflicts of a merge in the order reported, each with any accepted text: every step succeeds, and it
      resolves exactly the next conflict whenever no earlier text spells that conflict's marker. If this holds at every
      step, the text ends with the resolutions in the places of the conflicts. */
  lemma EveryConflictResolves(sp: Splitter, base: string, branches: seq<Branch>, language: Language, rs: seq<string>,
                              k: nat)
    requires Accepted(base, branches)
    requires |rs| == |MergeTexts(sp, base, branches, language).conflicts| && k < |rs|
    requires forall j :: 0 <= j < |rs| ==> Neutral(rs[j]) && Accepts(rs[j])
    ensures var r, cs, vs := MergeTexts(sp, base, branches, language), sp.Chunks(base), Split(sp, branches);
            var step := ApplyResolution(TextAfter(cs, vs, rs, k), r.conflicts[k], rs[k], language);
            && TextAfter(cs, vs, rs, 0) == r.merged
            && step.Ok?
            && (Unmasked(cs, vs, rs, k) ==> step == Ok(TextAfter(cs, vs, rs, k + 1)))
  {
    var cs, vs := sp.Chunks(base), Split(sp, branches);
    var block := ConflictsOf(Outcomes(cs, vs))[k];
    assert Patched(Outcomes(cs, vs), rs, 0) == PiecesOf(Outcomes(cs, vs));
    ResolveNext(cs, vs, rs, k);
    NeutralAccepted(rs);
    TextAfterFine(sp, base, branches, rs, k);
    MarkerFine(sp, base, branches, block);
    ReplaceAccepted(TextAfter(cs, vs, rs, k), Marker(block), rs[k], language);
  }

  lemma MarkerFine(sp: Splitter, base: string, branches: seq<Branch>, block: ConflictBlock)
    requires Accepted(base, branches) && block in ConflictsOf(Outcomes(sp.Chunks(base), Split(sp, branches)))
    ensures Fine(Marker(block))
  {
    var k := ConflictPiece(sp.Chunks(base), Split(sp, branches), block);
    PiecesNested(sp, base, branches);
  }
}
