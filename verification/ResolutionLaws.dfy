/** Exactly what a substitution returns, refusals included. */
module ResolutionLaws {
  import opened Text
  import opened SyntaxGate
  import opened GateTheory
  import opened Chunker
  import opened Merge
  import opened MergeTheory
  import opened Resolution
  import opened ResolutionTheory
  import opened ResolveAll

  /** The first occurrence. */
  ghost predicate FirstAt(s: string, pat: string, i: nat) {
    OccursAt(s, pat, i) && forall j: nat :: j < i ==> !OccursAt(s, pat, j)
  }

  /** The text with the occurrence at `i` replaced. */
  function Spliced(s: string, pat: string, i: nat, new_: string): string
    requires OccursAt(s, pat, i)
  {
    s[..i] + new_ + s[i + |pat|..]
  }

  lemma FirstFound(s: string, pat: string, i: nat)
    requires FirstAt(s, pat, i)
    ensures FindFrom(s, pat, 0) == Some(i)
  {
  }

  /** `apply_resolution` reports a missing marker exactly when it occurs nowhere; otherwise the first occurrence is
      replaced, and the text is returned exactly when the gate passes it. */
  lemma ApplyExactly(merged: string, block: ConflictBlock, resolved: string, language: Language)
    ensures var r := ApplyResolution(merged, block, resolved, language);
            && (r == Err(PatchFailed("conflict marker not found in merged text")) <==>
                  forall i: nat :: !OccursAt(merged, Marker(block), i))
            && forall i: nat :: FirstAt(merged, Marker(block), i) ==>
                 var text := Spliced(merged, Marker(block), i, resolved);
                 r == if Passes(text, language) then Ok(text) else Err(SyntaxRejected)
  {
    forall i: nat | FirstAt(merged, Marker(block), i) ensures FindFrom(merged, Marker(block), 0) == Some(i) {
      FirstFound(merged, Marker(block), i);
    }
  }

  // ---------------------------------------------------------------- refusals, for neutral sources

  /** Between balanced texts, a text fits exactly when it is balanced itself. */
  lemma FitsExactly(pre: string, r: string, post: string)
    requires Nested(pre) && Nested(post)
    ensures Nested(pre + r + post) <==> Nested(r)
  {
    if Nested(r) {
      NestedAppend(pre, r);
      NestedAppend(pre + r, post);
    }
    if Nested(pre + r + post) {
      assert pre + r + post == pre + (r + post);
      NestedCut(pre, r + post);
      NestedDropEnd(r, post);
    }
  }

  lemma NestedDropEnd(a: string, b: string)
    requires Nested(a + b) && Nested(b)
    ensures Nested(a)
  {
    AfterAppend(ZERO, a, b);
    SafeEnds(ZERO, a);
    AfterShift(ZERO, After(ZERO, a), b);
    assert ZERO.Plus(After(ZERO, a)) == After(ZERO, a);
  }

  lemma FineSlices(ps: seq<string>, i: nat)
    requires i < |ps| && forall j :: 0 <= j < |ps| ==> Fine(ps[j])
    ensures Fine(Concat(ps[..i])) && Fine(Concat(ps[i + 1..]))
  {
    FineConcat(ps[..i]);
    FineConcat(ps[i + 1..]);
  }

  /** Among balanced pieces, one may be replaced by a neutral text exactly when that text is balanced. */
  lemma PieceVerdict(ps: seq<string>, i: nat, r: string)
    requires i < |ps| && Neutral(r) && forall j :: 0 <= j < |ps| ==> Fine(ps[j])
    ensures Accepts(Concat(ps[i := r])) <==> Balanced(r)
  {
    var pre, post, qs := Concat(ps[..i]), Concat(ps[i + 1..]), ps[i := r];
    FineSlices(ps, i);
    ConcatAt(qs, i);
    assert qs[..i] == ps[..i] && qs[i + 1..] == ps[i + 1..];
    FitsExactly(pre, r, post);
    NeutralGate(pre + r + post);
    NestedIsBalanced(r);
  }

  lemma PatchedPieces(os: seq<Outcome>, adds: seq<string>, rs: seq<string>, k: nat)
    requires |rs| == |ConflictsOf(os)| && k <= |rs|
    requires forall j :: 0 <= j < k ==> Fine(rs[j])
    requires forall j :: 0 <= j < |PiecesOf(os)| ==> Fine(PiecesOf(os)[j])
    requires forall j :: 0 <= j < |adds| ==> Fine(adds[j])
    ensures var ps := Patched(os, rs, k) + adds; forall j :: 0 <= j < |ps| ==> Fine(ps[j])
  {
    var ps := Patched(os, rs, k) + adds;
    forall j | 0 <= j < |ps| ensures Fine(ps[j]) {
      if j < |os| {
        assert Fine(PiecesOf(os)[j]);
      }
    }
  }

  lemma MergeFine(sp: Splitter, base: string, branches: seq<Branch>)
    requires Accepted(base, branches)
    ensures var cs, vs := sp.Chunks(base), Split(sp, branches);
            var ps, adds := PiecesOf(Outcomes(cs, vs)), Dedupe(Additions(cs, vs));
            (forall j :: 0 <= j < |ps| ==> Fine(ps[j])) && (forall j :: 0 <= j < |adds| ==> Fine(adds[j]))
  {
    var cs, vs := sp.Chunks(base), Split(sp, branches);
    PiecesNested(sp, base, branches);
    FineParts(PiecesOf(Outcomes(cs, vs)), Dedupe(Additions(cs, vs)), MergedPieces(cs, vs));
  }

  lemma FineParts(ps: seq<string>, adds: seq<string>, all: seq<string>)
    requires all == ps + adds && forall j :: 0 <= j < |all| ==> Fine(all[j])
    ensures (forall j :: 0 <= j < |ps| ==> Fine(ps[j])) && (forall j :: 0 <= j < |adds| ==> Fine(adds[j]))
  {
    forall j | 0 <= j < |ps| ensures Fine(ps[j]) {
      assert all[j] == ps[j];
    }
    forall j | 0 <= j < |adds| ensures Fine(adds[j]) {
      assert all[|ps| + j] == adds[j];
    }
  }

  /** After the step the text is that of the pieces with the resolution in place. */
  lemma NextText(base: seq<AstChunk>, versions: seq<Version>, rs: seq<string>, k: nat, i: nat)
    requires |rs| == |ConflictsOf(Outcomes(base, versions))| && k < |rs| && i == SpotOf(Outcomes(base, versions), k)
    ensures var ps := Patched(Outcomes(base, versions), rs, k) + Dedupe(Additions(base, versions));
            TextAfter(base, versions, rs, k + 1) == Concat(ps[i := rs[k]])
  {
    var os, adds := Outcomes(base, versions), Dedupe(Additions(base, versions));
    PatchedStep(os, rs, k, i);
    UpdateFront(Patched(os, rs, k), adds, i, rs[k]);
  }

  lemma UpdateFront<T>(a: seq<T>, b: seq<T>, i: nat, x: T)
    requires i < |a|
    ensures a[i := x] + b == (a + b)[i := x]
  {
  }

  /** A step that reaches its own conflict refuses exactly the resolutions that are not balanced on their own. */
  lemma RefusedExactly(sp: Splitter, base: string, branches: seq<Branch>, language: Language, rs: seq<string>, k: nat)
    requires Accepted(base, branches) && !language.Unknown?
    requires |rs| == |MergeTexts(sp, base, branches, language).conflicts| && k < |rs|
    requires forall j :: 0 <= j < k ==> Fine(rs[j])
    requires Neutral(rs[k]) && Unmasked(sp.Chunks(base), Split(sp, branches), rs, k)
    ensures var cs, vs := sp.Chunks(base), Split(sp, branches);
            var block := MergeTexts(sp, base, branches, language).conflicts[k];
            ApplyResolution(TextAfter(cs, vs, rs, k), block, rs[k], language) == Err(SyntaxRejected) <==>
                !Balanced(rs[k])
  {
    var cs, vs := sp.Chunks(base), Split(sp, branches);
    var os, adds := Outcomes(cs, vs), Dedupe(Additions(cs, vs));
    var i := SpotOf(os, k);
    ResolveNext(cs, vs, rs, k);
    NextText(cs, vs, rs, k, i);
    MergeFine(sp, base, branches);
    PatchedPieces(os, adds, rs, k);
    PieceVerdict(Patched(os, rs, k) + adds, i, rs[k]);
  }

  // ---------------------------------------------------------------- fragments in memory

  lemma {:induction false} CountExactly(s: string, pat: string, from: nat)
    requires pat != []
    ensures CountMatches(s, pat, from) >= 1 <==> exists i: nat :: from <= i && OccursAt(s, pat, i)
    ensures CountMatches(s, pat, from) >= 2 <==> exists i: nat, j: nat :: from <= i && Apart(s, pat, i, j)
    decreases if from <= |s| then |s| - from else 0
  {
    match FindFrom(s, pat, from)
    case None =>
    case Some(first) =>
      CountExactly(s, pat, first + |pat|);
      if i: nat, j: nat :| from <= i && Apart(s, pat, i, j) {
        assert first <= i && first + |pat| <= j;
      }
      if j: nat :| first + |pat| <= j && OccursAt(s, pat, j) {
        assert Apart(s, pat, first, j);
      }
  }

  /** Two occurrences that do not overlap. */
  predicate Apart(s: string, pat: string, i: nat, j: nat) {
    OccursAt(s, pat, i) && OccursAt(s, pat, j) && i < j && i + |pat| <= j
  }

  lemma EmptyPattern(s: string)
    ensures OccursAt(s, [], 0) && ((exists i: nat, j: nat :: Apart(s, [], i, j)) <==> s != [])
  {
    if s != [] {
      assert Apart(s, [], 0, 1);
    }
  }

  /** `replace_in_memory` reports a missing fragment exactly when it occurs nowhere, and an ambiguous one exactly
      when two
      occurrences do not overlap; otherwise the first is replaced, and the text is returned exactly when it passes. */
  lemma ReplaceExactly(original: string, old_: string, new_: string, language: Language)
    ensures var r := ReplaceInMemory(original, old_, new_, language);
            var twice := exists i: nat, j: nat :: Apart(original, old_, i, j);
            && (r == Err(PatchFailed("old_text not found")) <==> forall i: nat :: !OccursAt(original, old_, i))
            && (r == Err(PatchFailed("old_text is ambiguous")) <==> twice)
            && (!twice ==> forall i: nat :: FirstAt(original, old_, i) ==>
                  var text := Spliced(original, old_, i, new_);
                  r == if Passes(text, language) then Ok(text) else Err(SyntaxRejected))
  {
    if old_ == [] {
      EmptyPattern(original);
    } else {
      CountExactly(original, old_, 0);
    }
    forall i: nat | FirstAt(original, old_, i) ensures FindFrom(original, old_, 0) == Some(i) {
      FirstFound(original, old_, i);
    }
  }
}
