/** Folding any number of branches into one text, with conflict markers where they disagree. */
module Merge {
  import opened Text
  import opened SyntaxGate
  import opened Chunker
  import opened Diff

  datatype Branch = Branch(id: string, content: string)

  /** A branch after splitting. */
  datatype Version = Version(id: string, chunks: seq<AstChunk>)

  datatype Decision = Decision(id: string, change: AstChange)

  datatype Variant = Variant(id: string, chunk: AstChunk)

  datatype ConflictBlock = ConflictBlock(base: AstChunk, variants: seq<Variant>)

  datatype MergeResult = MergeResult(merged: string, autoResolved: nat, conflicts: seq<ConflictBlock>,
                                     syntaxValid: bool)

  datatype Outcome = Resolved(text: string) | Conflicting(block: ConflictBlock)

  // ---------------------------------------------------------------- what is decided about a chunk

  /** The base text a change is filed under; an addition is filed nowhere. */
  predicate FiledUnder(change: AstChange, text: string) {
    match change
    case Unchanged(c) => c.text == text
    case Modified(b, _) => b.text == text
    case Deleted(c) => c.text == text
    case Added(_) => false
  }

  function Filed(id: string, changes: seq<AstChange>, text: string): seq<Decision> {
    if changes == [] then []
    else
      var n := |changes| - 1;
      Filed(id, changes[..n], text) + if FiledUnder(changes[n], text) then [Decision(id, changes[n])] else []
  }

  /** All decisions about a base text, branch by branch. */
  function DecisionsOn(base: seq<AstChunk>, versions: seq<Version>, text: string): seq<Decision> {
    if versions == [] then []
    else
      var n := |versions| - 1;
      DecisionsOn(base, versions[..n], text) + Filed(versions[n].id, Changes(base, versions[n].chunks), text)
  }

  function AddedIn(changes: seq<AstChange>): seq<AstChunk> {
    if changes == [] then []
    else
      var n := |changes| - 1;
      AddedIn(changes[..n]) + if changes[n].Added? then [changes[n].chunk] else []
  }

  function Additions(base: seq<AstChunk>, versions: seq<Version>): seq<AstChunk> {
    if versions == [] then []
    else
      var n := |versions| - 1;
      Additions(base, versions[..n]) + AddedIn(Changes(base, versions[n].chunks))
  }

  function Modifications(ds: seq<Decision>): seq<Variant> {
    if ds == [] then []
    else
      var n := |ds| - 1;
      Modifications(ds[..n]) + if ds[n].change.Modified? then [Variant(ds[n].id, ds[n].change.branch)] else []
  }

  function Deletions(ds: seq<Decision>): seq<string> {
    if ds == [] then []
    else
      var n := |ds| - 1;
      Deletions(ds[..n]) + if ds[n].change.Deleted? then [ds[n].id] else []
  }

  predicate Agree(vs: seq<Variant>) {
    forall i :: 0 <= i < |vs| ==> vs[i].chunk.text == vs[0].chunk.text
  }

  function Settle(c: AstChunk, ds: seq<Decision>): Outcome {
    var mods := Modifications(ds);
    if Deletions(ds) == [] && Agree(mods) then Resolved(if mods == [] then c.text else mods[0].chunk.text)
    else Conflicting(ConflictBlock(c, mods))
  }

  function Outcomes(base: seq<AstChunk>, versions: seq<Version>): (os: seq<Outcome>)
    ensures |os| == |base|
  {
    seq(|base|, i requires 0 <= i < |base| => Settle(base[i], DecisionsOn(base, versions, base[i].text)))
  }

  // ---------------------------------------------------------------- the merged text

  /** The first line of a conflict marker. */
  const HEAD := "<<<<<<< base\n"

  function Marker(block: ConflictBlock): string {
    HEAD + block.base.text + "\n=======\n" +
    (if block.variants == [] then "(deleted)" else block.variants[0].chunk.text) +
    "\n>>>>>>> conflict\n"
  }

  function PieceOf(o: Outcome): string {
    match o
    case Resolved(text) => text
    case Conflicting(block) => Marker(block)
  }

  function PiecesOf(os: seq<Outcome>): (ps: seq<string>)
    ensures |ps| == |os| && forall i :: 0 <= i < |os| ==> ps[i] == PieceOf(os[i])
  {
    seq(|os|, i requires 0 <= i < |os| => PieceOf(os[i]))
  }

  function ConflictsOf(os: seq<Outcome>): seq<ConflictBlock> {
    if os == [] then []
    else
      var n := |os| - 1;
      ConflictsOf(os[..n]) + if os[n].Conflicting? then [os[n].block] else []
  }

  function ResolvedCount(os: seq<Outcome>): nat {
    if os == [] then 0 else ResolvedCount(os[..|os| - 1]) + if os[|os| - 1].Resolved? then 1 else 0
  }

  /** Texts in order of first appearance. */
  function Dedupe(cs: seq<AstChunk>): seq<string> {
    if cs == [] then []
    else
      var n := |cs| - 1;
      Dedupe(cs[..n]) + if cs[n].text in Dedupe(cs[..n]) then [] else [cs[n].text]
  }

  function MergedPieces(base: seq<AstChunk>, versions: seq<Version>): seq<string> {
    PiecesOf(Outcomes(base, versions)) + Dedupe(Additions(base, versions))
  }

  function MergeChunks(base: seq<AstChunk>, versions: seq<Version>, language: Language): MergeResult {
    var merged := Concat(MergedPieces(base, versions));
    var conflicts := ConflictsOf(Outcomes(base, versions));
    MergeResult(merged, ResolvedCount(Outcomes(base, versions)), conflicts, conflicts == [] && Passes(merged, language))
  }

  function Split(sp: Splitter, branches: seq<Branch>): (vs: seq<Version>)
    ensures |vs| == |branches|
    ensures forall i :: 0 <= i < |vs| ==> vs[i] == Version(branches[i].id, sp.Chunks(branches[i].content))
  {
    seq(|branches|, i requires 0 <= i < |branches| => Version(branches[i].id, sp.Chunks(branches[i].content)))
  }

  /** `AstMergeResolver::merge`. */
  function MergeTexts(sp: Splitter, base: string, branches: seq<Branch>, language: Language): MergeResult {
    MergeChunks(sp.Chunks(base), Split(sp, branches), language)
  }

  // ---------------------------------------------------------------- the loops as written

  function Lookup(filed: map<string, seq<Decision>>, text: string): seq<Decision> {
    if text in filed then filed[text] else []
  }

  /** `entry(text).or_default().push(d)`. */
  function Push(filed: map<string, seq<Decision>>, text: string, d: Decision): (r: map<string, seq<Decision>>)
    ensures forall t :: Lookup(r, t) == if t == text then Lookup(filed, t) + [d] else Lookup(filed, t)
  {
    filed[text := Lookup(filed, text) + [d]]
  }

  /** `filed` is `filed0` with the decisions of these changes appended. */
  ghost predicate Appended(filed: map<string, seq<Decision>>, filed0: map<string, seq<Decision>>, id: string,
                           changes: seq<AstChange>) {
    forall t :: Lookup(filed, t) == Lookup(filed0, t) + Filed(id, changes, t)
  }

  lemma FiledPush(id: string, changes: seq<AstChange>, change: AstChange, t: string)
    ensures Filed(id, changes + [change], t) ==
            Filed(id, changes, t) + if FiledUnder(change, t) then [Decision(id, change)] else []
  {
    assert (changes + [change])[..|changes|] == changes;
  }

  lemma AppendedPush(filed: map<string, seq<Decision>>, filed0: map<string, seq<Decision>>, id: string,
                     changes: seq<AstChange>, change: AstChange, text: string)
    requires Appended(filed, filed0, id, changes) && FiledUnder(change, text)
    ensures Appended(Push(filed, text, Decision(id, change)), filed0, id, changes + [change])
  {
    var d, more := Decision(id, change), changes + [change];
    forall t ensures Lookup(Push(filed, text, d), t) == Lookup(filed0, t) + Filed(id, more, t) {
      FiledPush(id, changes, change, t);
      Reassociate(Lookup(filed0, t), Filed(id, changes, t), if t == text then [d] else []);
    }
  }

  lemma AppendedSkip(filed: map<string, seq<Decision>>, filed0: map<string, seq<Decision>>, id: string,
                     changes: seq<AstChange>, change: AstChange)
    requires Appended(filed, filed0, id, changes) && change.Added?
    ensures Appended(filed, filed0, id, changes + [change])
  {
    forall t ensures Filed(id, changes + [change], t) == Filed(id, changes, t) {
      FiledPush(id, changes, change, t);
    }
  }

  /** Where the loop puts the next change. */
  function FiledNext(filed: map<string, seq<Decision>>, id: string, change: AstChange): map<string, seq<Decision>> {
    match change
    case Unchanged(c) => Push(filed, c.text, Decision(id, change))
    case Modified(b, _) => Push(filed, b.text, Decision(id, change))
    case Deleted(c) => Push(filed, c.text, Decision(id, change))
    case Added(_) => filed
  }

  lemma AppendedStep(filed: map<string, seq<Decision>>, filed0: map<string, seq<Decision>>, id: string,
                     changes: seq<AstChange>, k: nat)
    requires k < |changes| && Appended(filed, filed0, id, changes[..k])
    ensures Appended(FiledNext(filed, id, changes[k]), filed0, id, changes[..k + 1])
  {
    var change := changes[k];
    assert changes[..k + 1] == changes[..k] + [change];
    match change {
      case Unchanged(c) => AppendedPush(filed, filed0, id, changes[..k], change, c.text);
      case Modified(b, _) => AppendedPush(filed, filed0, id, changes[..k], change, b.text);
      case Deleted(c) => AppendedPush(filed, filed0, id, changes[..k], change, c.text);
      case Added(_) => AppendedSkip(filed, filed0, id, changes[..k], change);
    }
  }

  lemma AddedStep(additions0: seq<AstChunk>, changes: seq<AstChange>, k: nat)
    requires k < |changes|
    ensures additions0 + AddedIn(changes[..k + 1])
         == additions0 + AddedIn(changes[..k]) + if changes[k].Added? then [changes[k].chunk] else []
  {
    assert changes[..k + 1][..k] == changes[..k];
  }

  /** One branch: every change is pushed under its base text, additions are set aside. */
  method FileChanges(id: string, changes: seq<AstChange>, filed0: map<string, seq<Decision>>, additions0: seq<AstChunk>)
    returns (filed: map<string, seq<Decision>>, additions: seq<AstChunk>)
    ensures Appended(filed, filed0, id, changes)
    ensures additions == additions0 + AddedIn(changes)
  {
    filed, additions := filed0, additions0;
    for k := 0 to |changes|
      invariant Appended(filed, filed0, id, changes[..k])
      invariant additions == additions0 + AddedIn(changes[..k])
    {
      var change := changes[k];
      AppendedStep(filed, filed0, id, changes, k);
      AddedStep(additions0, changes, k);
      match change {
        case Unchanged(c) => filed := Push(filed, c.text, Decision(id, change));
        case Modified(b, _) => filed := Push(filed, b.text, Decision(id, change));
        case Deleted(c) => filed := Push(filed, c.text, Decision(id, change));
        case Added(c) => additions := additions + [c];
      }
    }
    assert changes[..|changes|] == changes;
  }

  /** The decision for one base chunk, through the branches of the original. */
  method SettleChunk(c: AstChunk, ds: seq<Decision>, totalBranches: nat) returns (o: Outcome)
    ensures o == Settle(c, ds)
  {
    var modifications: seq<Variant>, deletions: seq<string>, unchangedCount := [], [], 0;
    for k := 0 to |ds|
      invariant modifications == Modifications(ds[..k]) && deletions == Deletions(ds[..k])
    {
      assert ds[..k + 1][..k] == ds[..k];
      match ds[k].change {
        case Unchanged(_) => unchangedCount := unchangedCount + 1;
        case Modified(_, branch) => modifications := modifications + [Variant(ds[k].id, branch)];
        case Deleted(_) => deletions := deletions + [ds[k].id];
        case Added(_) =>
      }
    }
    assert ds[..|ds|] == ds;
    var touched := |modifications| + |deletions|;
    if touched == 0 {
      return Resolved(c.text);
    } else if deletions == [] && |modifications| == 1 {
      return Resolved(modifications[0].chunk.text);
    } else if |modifications| == 1 && deletions == [] && unchangedCount + 1 == totalBranches {
      assert false; // already handled above
    } else {
      var variants := modifications;
      if variants != [] {
        var same := true;
        for k := 0 to |variants|
          invariant same <==> forall i :: 0 <= i < k ==> variants[i].chunk.text == variants[0].chunk.text
        {
          same := same && variants[k].chunk.text == variants[0].chunk.text;
        }
        if same && deletions == [] {
          return Resolved(variants[0].chunk.text);
        }
      }
      o := Conflicting(ConflictBlock(c, variants));
    }
  }

  /** Additions of all branches, each text once. */
  method AppendAdditions(pieces0: seq<string>, additions: seq<AstChunk>) returns (pieces: seq<string>)
    ensures pieces == pieces0 + Dedupe(additions)
  {
    pieces := pieces0;
    var seen: set<string> := {};
    for k := 0 to |additions|
      invariant pieces == pieces0 + Dedupe(additions[..k])
      invariant forall t :: t in seen <==> t in Dedupe(additions[..k])
    {
      assert additions[..k + 1][..k] == additions[..k];
      var text := additions[k].text;
      if text !in seen {
        seen := seen + {text};
        pieces := pieces + [text];
      }
    }
    assert additions[..|additions|] == additions;
  }

  /** The decisions of these versions are filed under their texts. */
  ghost predicate AllFiled(filed: map<string, seq<Decision>>, base: seq<AstChunk>, versions: seq<Version>) {
    forall t :: Lookup(filed, t) == DecisionsOn(base, versions, t)
  }

  lemma VersionStep(base: seq<AstChunk>, versions: seq<Version>, k: nat)
    requires k < |versions|
    ensures Additions(base, versions[..k + 1]) ==
            Additions(base, versions[..k]) + AddedIn(Changes(base, versions[k].chunks))
    ensures forall t :: DecisionsOn(base, versions[..k + 1], t) ==
              DecisionsOn(base, versions[..k], t) + Filed(versions[k].id, Changes(base, versions[k].chunks), t)
  {
    assert versions[..k + 1][..k] == versions[..k];
  }

  lemma FiledStep(filed: map<string, seq<Decision>>, filed0: map<string, seq<Decision>>, base: seq<AstChunk>,
                  versions: seq<Version>, k: nat)
    requires k < |versions| && AllFiled(filed0, base, versions[..k])
    requires Appended(filed, filed0, versions[k].id, Changes(base, versions[k].chunks))
    ensures AllFiled(filed, base, versions[..k + 1])
  {
    VersionStep(base, versions, k);
  }

  /** All branches are diffed against the base and filed. */
  method CollectDecisions(sp: Splitter, base: string, baseChunks: seq<AstChunk>, branches: seq<Branch>)
    returns (filed: map<string, seq<Decision>>, additions: seq<AstChunk>)
    requires baseChunks == sp.Chunks(base)
    ensures AllFiled(filed, baseChunks, Split(sp, branches))
    ensures additions == Additions(baseChunks, Split(sp, branches))
  {
    ghost var versions := Split(sp, branches);
    filed, additions := map[], [];
    for k := 0 to |branches|
      invariant AllFiled(filed, baseChunks, versions[..k])
      invariant additions == Additions(baseChunks, versions[..k])
    {
      var branchChunks := sp.ChunkSource(branches[k].content);
      var changes := DiffChunks(baseChunks, branchChunks);
      ghost var filed0 := filed;
      filed, additions := FileChanges(branches[k].id, changes, filed, additions);
      FiledStep(filed, filed0, baseChunks, versions, k);
      VersionStep(baseChunks, versions, k);
    }
    assert versions[..|branches|] == versions;
  }

  lemma OutcomePush(os: seq<Outcome>, i: nat)
    requires i < |os|
    ensures PiecesOf(os[..i + 1]) == PiecesOf(os[..i]) + [PieceOf(os[i])]
    ensures ConflictsOf(os[..i + 1]) == ConflictsOf(os[..i]) + if os[i].Conflicting? then [os[i].block] else []
    ensures ResolvedCount(os[..i + 1]) == ResolvedCount(os[..i]) + if os[i].Resolved? then 1 else 0
  {
    assert os[..i + 1][..i] == os[..i];
  }

  /** The base chunks are settled one by one. */
  method SettleAll(baseChunks: seq<AstChunk>, filed: map<string, seq<Decision>>, ghost os: seq<Outcome>,
                   totalBranches: nat)
    returns (pieces: seq<string>, conflicts: seq<ConflictBlock>, autoResolved: nat)
    requires |os| == |baseChunks|
    requires forall i :: 0 <= i < |os| ==> os[i] == Settle(baseChunks[i], Lookup(filed, baseChunks[i].text))
    ensures pieces == PiecesOf(os) && conflicts == ConflictsOf(os) && autoResolved == ResolvedCount(os)
  {
    pieces, conflicts, autoResolved := [], [], 0;
    for i := 0 to |baseChunks|
      invariant pieces == PiecesOf(os[..i]) && conflicts == ConflictsOf(os[..i])
      invariant autoResolved == ResolvedCount(os[..i])
    {
      OutcomePush(os, i);
      var o := SettleChunk(baseChunks[i], Lookup(filed, baseChunks[i].text), totalBranches);
      match o {
        case Resolved(text) =>
          pieces := pieces + [text];
          autoResolved := autoResolved + 1;
        case Conflicting(block) =>
          pieces := pieces + [Marker(block)];
          conflicts := conflicts + [block];
      }
    }
    assert os[..|baseChunks|] == os;
  }

  method MergeBranches(sp: Splitter, base: string, branches: seq<Branch>, language: Language) returns (r: MergeResult)
    ensures r == MergeTexts(sp, base, branches, language)
  {
    var baseChunks := sp.ChunkSource(base);
    var filed, additions := CollectDecisions(sp, base, baseChunks, branches);
    ghost var os := Outcomes(baseChunks, Split(sp, branches));
    var pieces, conflicts, autoResolved := SettleAll(baseChunks, filed, os, |branches|);
    pieces := AppendAdditions(pieces, additions);
    var merged := Concat(pieces);
    var syntaxValid := false;
    if conflicts == [] {
      var check := Check(merged, language);
      syntaxValid := check.IsValid();
    }
    r := MergeResult(merged, autoResolved, conflicts, syntaxValid);
  }
}
