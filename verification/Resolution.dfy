/** Substituting text after a merge: one conflict marker for a resolution, or one fragment for another. */
module Resolution {
  import opened Text
  import opened SyntaxGate
  import opened Merge

  datatype AciError = PatchFailed(reason: string) | SyntaxRejected

  datatype Result<+T> = Ok(value: T) | Err(error: AciError)

  predicate OccursAt(s: string, pat: string, i: nat) {
    i + |pat| <= |s| && s[i..i + |pat|] == pat
  }

  /** `find`, from a position on: the first occurrence. */
  function FindFrom(s: string, pat: string, from: nat): (r: Option<nat>)
    ensures r.Some? ==>
              from <= r.value && OccursAt(s, pat, r.value) && forall j :: from <= j < r.value ==> !OccursAt(s, pat, j)
    ensures r.None? ==> forall j :: from <= j ==> !OccursAt(s, pat, j)
    decreases |s| - from
  {
    if from + |pat| > |s| then None
    else if OccursAt(s, pat, from) then Some(from)
    else FindFrom(s, pat, from + 1)
  }

  /** `replacen(pat, new, 1)`. */
  function ReplaceFirst(s: string, pat: string, new_: string): string {
    match FindFrom(s, pat, 0)
    case None => s
    case Some(i) => s[..i] + new_ + s[i + |pat|..]
  }

  /** `apply_resolution`. */
  function ApplyResolution(merged: string, block: ConflictBlock, resolved: string, language: Language): Result<string> {
    var marker := Marker(block);
    if FindFrom(merged, marker, 0).None? then Err(PatchFailed("conflict marker not found in merged text"))
    else
      var text := ReplaceFirst(merged, marker, resolved);
      if Passes(text, language) then Ok(text) else Err(SyntaxRejected)
  }

  /** `matches(pat).count()`: non-overlapping, from the left; the empty pattern matches at every boundary. */
  function CountMatches(s: string, pat: string, from: nat): nat
    decreases |s| - from
  {
    if pat == [] then |s| + 1
    else
      match FindFrom(s, pat, from)
      case None => 0
      case Some(i) => 1 + CountMatches(s, pat, i + |pat|)
  }

  /** `replace_in_memory`. */
  function ReplaceInMemory(original: string, old_: string, new_: string, language: Language): Result<string> {
    var n := CountMatches(original, old_, 0);
    if n == 0 then Err(PatchFailed("old_text not found"))
    else if n > 1 then Err(PatchFailed("old_text is ambiguous"))
    else
      var text := ReplaceFirst(original, old_, new_);
      if Passes(text, language) then Ok(text) else Err(SyntaxRejected)
  }
}

module ResolutionTheory {
  import opened Text
  import opened SyntaxGate
  import opened GateTheory
  import opened Chunker
  import opened Merge
  import opened MergeTheory
  import opened Resolution

  predicate Fine(t: string) {
    Nested(t) && Neutral(t)
  }

  predicate PlainChar(ch: char) {
    && ch != '(' && ch != ')' && ch != '{' && ch != '}' && ch != '[' && ch != ']'
    && ch != '"' && ch != '\'' && ch != '/'
  }

  /** Text without brackets, quotes and slashes. */
  predicate PlainText(t: string) {
    forall i :: 0 <= i < |t| ==> PlainChar(t[i])
  }

  lemma {:induction false} PlainNested(c: Counts, t: string)
    requires c.NonNegative() && PlainText(t)
    ensures Safe(c, t) && After(c, t) == c && Neutral(t)
    decreases t
  {
    if t != [] {
      PlainNested(c, t[1..]);
    }
  }

  lemma FineAppend(a: string, b: string)
    requires Fine(a) && Fine(b)
    ensures Fine(a + b)
  {
    NestedAppend(a, b);
  }

  lemma PlainFine(t: string)
    requires PlainText(t)
    ensures Fine(t)
  {
    PlainNested(ZERO, t);
  }

  lemma FineInParentheses(t: string)
    requires PlainText(t)
    ensures Fine("(" + t + ")")
  {
    var one := Counts(1, 0, 0);
    assert After(ZERO, "(") == one && Safe(ZERO, "(");
    assert After(one, ")") == ZERO && Safe(one, ")");
    PlainNested(one, t);
    AfterAppend(ZERO, "(", t);
    AfterAppend(ZERO, "(" + t, ")");
  }

  lemma DeletedNote()
    ensures Fine("(deleted)")
  {
    FineInParentheses("deleted");
    assert "(deleted)" == "(" + "deleted" + ")";
  }

  lemma MarkerHead()
    ensures PlainText("<<<<<<< base\n")
  {
  }

  lemma MarkerMiddle()
    ensures PlainText("\n=======\n")
  {
  }

  lemma MarkerTail()
    ensures PlainText("\n>>>>>>> conflict\n")
  {
  }

  lemma FineBetween(head: string, a: string, mid: string, b: string, tail: string)
    requires PlainText(head) && PlainText(mid) && PlainText(tail) && Fine(a) && Fine(b)
    ensures Fine(head + a + mid + b + tail)
  {
    PlainFine(head);
    PlainFine(mid);
    PlainFine(tail);
    FineAppend(head, a);
    FineAppend(head + a, mid);
    FineAppend(head + a + mid, b);
    FineAppend(head + a + mid + b, tail);
  }

  /** A conflict marker around nested texts is nested. */
  lemma MarkerNested(block: ConflictBlock)
    requires Fine(block.base.text) && (block.variants != [] ==> Fine(block.variants[0].chunk.text))
    ensures Fine(Marker(block))
  {
    MarkerHead();
    MarkerMiddle();
    MarkerTail();
    DeletedNote();
    FineBetween(HEAD, block.base.text, "\n=======\n",
                if block.variants == [] then "(deleted)" else block.variants[0].chunk.text, "\n>>>>>>> conflict\n");
  }

  lemma ConflictFine(cs: seq<AstChunk>, vs: seq<Version>, k: nat)
    requires k < |cs| && Outcomes(cs, vs)[k].Conflicting? && forall t :: t in Pool(cs, vs) ==> Sturdy(t)
    ensures Fine(Marker(Outcomes(cs, vs)[k].block))
  {
    var block := Outcomes(cs, vs)[k].block;
    assert cs[k] in cs && cs[k].text in Pool(cs, vs);
    if block.variants != [] {
      assert block.variants[0] in block.variants;
      VariantOrigin(cs, vs, cs[k].text, block.variants[0]);
    }
    MarkerNested(block);
  }

  /** Every piece of a merge of accepted sources, markers included, is accepted on its own. */
  lemma PiecesNested(sp: Splitter, base: string, branches: seq<Branch>)
    requires Accepted(base, branches)
    ensures var ps := MergedPieces(sp.Chunks(base), Split(sp, branches));
            forall k :: 0 <= k < |ps| ==> Fine(ps[k])
  {
    var cs, vs := sp.Chunks(base), Split(sp, branches);
    var os, ps := Outcomes(cs, vs), MergedPieces(cs, vs);
    PoolNested(sp, base, branches);
    PieceOrigin(cs, vs);
    forall k | 0 <= k < |ps| ensures Fine(ps[k]) {
      if k >= |cs| {
        assert ps[k] in Dedupe(Additions(cs, vs));
      } else if os[k].Conflicting? {
        ConflictFine(cs, vs, k);
      }
    }
  }

  lemma {:induction false} NeutralConcat(parts: seq<string>)
    requires forall i :: 0 <= i < |parts| ==> Neutral(parts[i])
    ensures Neutral(Concat(parts))
  {
    if parts != [] {
      NeutralConcat(parts[1..]);
    }
  }

  lemma {:induction false} ConcatAt(parts: seq<string>, k: nat)
    requires k < |parts|
    ensures Concat(parts) == Concat(parts[..k]) + parts[k] + Concat(parts[k + 1..])
    decreases k
  {
    if k > 0 {
      ConcatAt(parts[1..], k - 1);
      assert parts[1..][..k - 1] == parts[..k][1..] && parts[1..][k..] == parts[k + 1..];
    }
  }

  lemma Around(text: string, pat: string, i: nat)
    requires OccursAt(text, pat, i)
    ensures text == text[..i] + pat + text[i + |pat|..]
  {
  }

  /** Replacing the first occurrence of an accepted fragment by an accepted fragment keeps an accepted text
      accepted, wherever the occurrence is. */
  lemma ReplaceAccepted(text: string, pat: string, new_: string, language: Language)
    requires Neutral(text) && Nested(text) && Neutral(new_) && Nested(new_) && Nested(pat)
    ensures Passes(ReplaceFirst(text, pat, new_), language)
  {
    var r := ReplaceFirst(text, pat, new_);
    match FindFrom(text, pat, 0)
    case None =>
      NeutralGate(text);
    case Some(i) =>
      Around(text, pat, i);
      NestedSubstitute(text[..i], pat, new_, text[i + |pat|..]);
      NeutralGate(r);
  }

  /** A reported conflict is one of the pieces, as its marker. */
  lemma ConflictPiece(base: seq<AstChunk>, versions: seq<Version>, block: ConflictBlock) returns (k: nat)
    requires block in ConflictsOf(Outcomes(base, versions))
    ensures k < |MergedPieces(base, versions)| && MergedPieces(base, versions)[k] == Marker(block)
  {
    var os := Outcomes(base, versions);
    ConflictsIff(os, block);
    k :| 0 <= k < |os| && os[k] == Conflicting(block);
  }

  /** In a concatenation of fine pieces, one of them can be replaced by fine text. */
  lemma ReplacePiece(ps: seq<string>, k: nat, resolved: string, language: Language)
    requires k < |ps| && Fine(resolved) && forall i :: 0 <= i < |ps| ==> Fine(ps[i])
    ensures FindFrom(Concat(ps), ps[k], 0).Some?
    ensures Passes(ReplaceFirst(Concat(ps), ps[k], resolved), language)
  {
    NestedConcat(ps);
    NeutralConcat(ps);
    ConcatAt(ps, k);
    assert OccursAt(Concat(ps), ps[k], |Concat(ps[..k])|);
    ReplaceAccepted(Concat(ps), ps[k], resolved, language);
  }

  /** On a merge's own text, any of its conflicts and any accepted resolution: the marker is found, exactly
      one occurrence is replaced and the result passes the gate. */
  lemma ResolutionSucceeds(sp: Splitter, base: string, branches: seq<Branch>, language: Language,
                           block: ConflictBlock, resolved: string)
    requires Accepted(base, branches) && block in MergeTexts(sp, base, branches, language).conflicts
    requires Neutral(resolved) && Accepts(resolved)
    ensures var merged := MergeTexts(sp, base, branches, language).merged;
            && ApplyResolution(merged, block, resolved, language) == Ok(ReplaceFirst(merged, Marker(block), resolved))
            && FindFrom(merged, Marker(block), 0).Some?
  {
    var cs, vs := sp.Chunks(base), Split(sp, branches);
    var k := ConflictPiece(cs, vs, block);
    PiecesNested(sp, base, branches);
    NeutralGate(resolved);
    ReplacePiece(MergedPieces(cs, vs), k, resolved, language);
  }

  /** In memory, an accepted fragment that matches once is replaced by an accepted fragment. */
  lemma ReplaceInMemorySucceeds(original: string, old_: string, new_: string, language: Language)
    requires Neutral(original) && Accepts(original) && Neutral(new_) && Accepts(new_) && Neutral(old_) && Accepts(old_)
    requires CountMatches(original, old_, 0) == 1
    ensures ReplaceInMemory(original, old_, new_, language) == Ok(ReplaceFirst(original, old_, new_))
  {
    NeutralGate(original);
    NeutralGate(old_);
    NeutralGate(new_);
    ReplaceAccepted(original, old_, new_, language);
  }

  /** A patch is refused as missing exactly when the fragment does not occur. */
  lemma ReplaceInMemoryMissing(original: string, old_: string, new_: string, language: Language)
    ensures ReplaceInMemory(original, old_, new_, language) == Err(PatchFailed("old_text not found"))
       <==> forall i: nat :: !OccursAt(original, old_, i)
  {
    if old_ == [] {
      assert OccursAt(original, old_, 0);
    }
  }
}
