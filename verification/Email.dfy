/** The inbound email poller: a bounded first-in-first-out memory of seen UIDs, the report of one
    poll, the provenance ledger, and the inbound buffer that grows with it and is drained by `receive`. */
module Email {
  import opened Text

  /** What parsing the raw message gives: an error, a message to ignore, or a message with its id. */
  datatype Parsed = ParseError | Ignored | Message(id: string)

  datatype Fetched = Fetched(uid: string, parsed: Parsed)

  datatype Kind = Duplicate | Broken | Skipped | Enqueued

  /** A delivered message, as recorded in the ledger and pushed to the buffer. */
  datatype Delivery = Delivery(uid: string, messageId: string)

  datatype Report = Report(fetched: nat, enqueued: nat, duplicate: nat, skipped: nat, seenUids: nat,
                           messageIds: seq<string>)

  datatype PollResult = Polled(report: Report) | Failed

  // ---------------------------------------------------------------- what happens to each message

  /** The last `limit` marks: what the bounded memory still holds. */
  function Recent(marks: seq<string>, limit: nat): seq<string> {
    if |marks| > limit then marks[|marks| - limit..] else marks
  }

  function Classify(marks: seq<string>, limit: nat, f: Fetched): Kind {
    if Trim(f.uid) != "" && Trim(f.uid) in Recent(marks, limit) then Duplicate
    else match f.parsed case ParseError => Broken case Ignored => Skipped case Message(_) => Enqueued
  }

  predicate Marked(k: Kind, f: Fetched) {
    (k.Skipped? || k.Enqueued?) && Trim(f.uid) != ""
  }

  /** All UIDs marked while these messages were processed, oldest first. */
  function Marks(ms: seq<Fetched>, limit: nat): seq<string> {
    if ms == [] then []
    else
      var n := |ms| - 1;
      var marks := Marks(ms[..n], limit);
      marks + if Marked(Classify(marks, limit, ms[n]), ms[n]) then [Trim(ms[n].uid)] else []
  }

  function KindAt(ms: seq<Fetched>, limit: nat, i: nat): Kind
    requires i < |ms|
  {
    Classify(Marks(ms[..i], limit), limit, ms[i])
  }

  function Deliveries(ms: seq<Fetched>, limit: nat): seq<Delivery> {
    if ms == [] then []
    else
      var n := |ms| - 1;
      Deliveries(ms[..n], limit) +
      if KindAt(ms, limit, n).Enqueued? then [Delivery(ms[n].uid, ms[n].parsed.id)] else []
  }

  function Tally(ms: seq<Fetched>, limit: nat, k: Kind): nat {
    if ms == [] then 0 else Tally(ms[..|ms| - 1], limit, k) + if KindAt(ms, limit, |ms| - 1) == k then 1 else 0
  }

  /** The last message processed did not parse. */
  predicate EndsBroken(ms: seq<Fetched>, limit: nat) {
    ms != [] && KindAt(ms, limit, |ms| - 1).Broken?
  }

  /** So many messages of each kind were processed since `before`. */
  ghost predicate Counted(before: seq<Fetched>, now: seq<Fetched>, limit: nat, enqueued: nat, duplicate: nat,
                          skipped: nat) {
    && enqueued == Tally(now, limit, Enqueued) - Tally(before, limit, Enqueued)
    && duplicate == Tally(now, limit, Duplicate) - Tally(before, limit, Duplicate)
    && skipped == Tally(now, limit, Skipped) - Tally(before, limit, Skipped)
  }

  function IdsOf(ds: seq<Delivery>): (ids: seq<string>)
    ensures |ids| == |ds| && forall i :: 0 <= i < |ds| ==> ids[i] == ds[i].messageId
  {
    seq(|ds|, i requires 0 <= i < |ds| => ds[i].messageId)
  }

  // ---------------------------------------------------------------- the service

  class Poller {
    const limit: nat
    var seen: seq<string>
    var ledger: seq<Delivery>
    var buffer: seq<Delivery>
    /** Every message processed so far, over all polls. */
    ghost var processed: seq<Fetched>

    /** The memory holds the most recent marks, and the ledger all deliveries. */
    ghost predicate Valid()
      reads this
    {
      && limit >= 1
      && seen == Recent(Marks(processed, limit), limit)
      && ledger == Deliveries(processed, limit)
    }

    /** A limit of zero is raised to one. */
    constructor (seenUidLimit: nat)
      ensures Valid() && processed == [] && limit == (if seenUidLimit == 0 then 1 else seenUidLimit)
      ensures buffer == []
    {
      limit := if seenUidLimit == 0 then 1 else seenUidLimit;
      seen, ledger, buffer := [], [], [];
      processed := [];
    }

    /** Hands over what is buffered; memory and ledger stay. */
    method Receive() returns (messages: seq<Delivery>)
      requires Valid()
      modifies this`buffer
      ensures Valid() && messages == old(buffer) && buffer == []
    {
      messages := buffer;
      buffer := [];
    }

    method UidSeen(rawUid: string) returns (r: bool)
      ensures r <==> Trim(rawUid) != "" && Trim(rawUid) in seen
    {
      var uid := Trim(rawUid);
      r := uid != "" && uid in seen;
    }

    /** An empty UID is always new and never remembered; beyond the limit the oldest UIDs are forgotten. */
    method MarkUidSeen(rawUid: string) returns (added: bool)
      modifies this`seen
      ensures added <==> Trim(rawUid) == "" || Trim(rawUid) !in old(seen)
      ensures |old(seen)| <= limit ==>
                seen == if added && Trim(rawUid) != "" then Recent(old(seen) + [Trim(rawUid)], limit) else old(seen)
    {
      var uid := Trim(rawUid);
      if uid == "" {
        return true;
      }
      if uid in seen {
        return false;
      }
      seen := seen + [uid];
      ghost var all := seen;
      while |seen| > limit
        invariant |seen| <= |all| && (|seen| == |all| || |seen| >= limit)
        invariant seen == all[|all| - |seen|..]
        decreases |seen|
      {
        seen := seen[1..];
      }
      added := true;
    }

    /** One fetched message. */
    method IngestOne(fetched: Fetched) returns (kind: Kind)
      requires Valid()
      modifies this
      ensures Valid() && processed == old(processed) + [fetched]
      ensures kind == Classify(Marks(old(processed), limit), limit, fetched)
      ensures var new_ := if kind.Enqueued? then [Delivery(fetched.uid, fetched.parsed.id)] else [];
              ledger == old(ledger) + new_ && buffer == old(buffer) + new_
    {
      NextState(processed, fetched, limit, seen);
      processed := processed + [fetched];
      var duplicate := UidSeen(fetched.uid);
      if duplicate {
        return Duplicate;
      }
      if fetched.parsed.ParseError? {
        return Broken;
      }
      var added := MarkUidSeen(fetched.uid);
      if fetched.parsed.Ignored? {
        return Skipped;
      }
      if !added {
        assert false; // only a concurrent poll could have marked it in between
      }
      var delivery := Delivery(fetched.uid, fetched.parsed.id);
      ledger := ledger + [delivery];
      buffer := buffer + [delivery];
      kind := Enqueued;
    }

    /** One poll. A parse error ends it at once; the messages before it stay delivered, the broken one stays unmarked.
        Either way the ledger and the buffer grow by the same deliveries. */
    method IngestFetchedMessages(messages: seq<Fetched>) returns (r: PollResult, ghost n: nat)
      requires Valid()
      modifies this
      ensures Valid() && n <= |messages| && processed == old(processed) + messages[..n]
      ensures r.Failed? ==> n > 0 && EndsBroken(processed, limit)
      ensures r.Polled? ==> n == |messages| && r.report.fetched == |messages|
      ensures r.Polled? ==>
                && Counted(old(processed), processed, limit, r.report.enqueued, r.report.duplicate, r.report.skipped)
                && r.report.fetched == r.report.enqueued + r.report.duplicate + r.report.skipped
                && r.report.seenUids == |seen|
      ensures exists new_ ::
                && ledger == old(ledger) + new_ && buffer == old(buffer) + new_
                && (r.Polled? ==> |new_| == r.report.enqueued && r.report.messageIds == IdsOf(new_))
    {
      var enqueued: nat, duplicate: nat, skipped: nat, messageIds: seq<string> := 0, 0, 0, [];
      n := 0;
      ghost var before, delivered: seq<Delivery> := processed, [];
      assert messages[..0] == [] && before + [] == before;
      for i := 0 to |messages|
        invariant Valid() && n == i && processed == before + messages[..i]
        invariant enqueued + duplicate + skipped == i
        invariant Counted(before, processed, limit, enqueued, duplicate, skipped)
        invariant ledger == old(ledger) + delivered && buffer == old(buffer) + delivered
        invariant |delivered| == enqueued && messageIds == IdsOf(delivered)
      {
        CountedStep(before, processed, messages[i], limit, enqueued, duplicate, skipped);
        TakeNext(before, messages, i);
        n := n + 1;
        ghost var was := processed;
        var kind := IngestOne(messages[i]);
        match kind {
          case Duplicate => duplicate := duplicate + 1;
          case Broken =>
            BrokenEnd(was, messages[i], limit);
            return Failed, n;
          case Skipped => skipped := skipped + 1;
          case Enqueued =>
            ghost var d := Delivery(messages[i].uid, messages[i].parsed.id);
            IdsPush(delivered, d);
            Reassociate(old(ledger), delivered, [d]);
            Reassociate(old(buffer), delivered, [d]);
            delivered := delivered + [d];
            messageIds := messageIds + [messages[i].parsed.id];
            enqueued := enqueued + 1;
        }
      }
      assert messages[..|messages|] == messages;
      r := Polled(Report(|messages|, enqueued, duplicate, skipped, |seen|, messageIds));
    }
  }

  /** One more message: its kind, its marks and its delivery. */
  lemma {:induction false} ProcessOne(ms: seq<Fetched>, f: Fetched, limit: nat)
    ensures var marks, k := Marks(ms, limit), Classify(Marks(ms, limit), limit, f);
            && KindAt(ms + [f], limit, |ms|) == k
            && Marks(ms + [f], limit) == marks + (if Marked(k, f) then [Trim(f.uid)] else [])
            && Deliveries(ms + [f], limit) == Deliveries(ms, limit) +
                (if k.Enqueued? then [Delivery(f.uid, f.parsed.id)] else [])
  {
    assert (ms + [f])[..|ms|] == ms;
  }

  /** The same, in terms of what the memory holds. */
  lemma {:induction false} NextState(ms: seq<Fetched>, f: Fetched, limit: nat, seen: seq<string>)
    requires seen == Recent(Marks(ms, limit), limit)
    ensures var uid, k := Trim(f.uid), Classify(Marks(ms, limit), limit, f);
            && |seen| <= limit
            && (k.Duplicate? <==> uid != "" && uid in seen)
            && (!k.Duplicate? ==> k == match f.parsed
                                       case ParseError => Broken case Ignored => Skipped case Message(_) => Enqueued)
            && Recent(Marks(ms + [f], limit), limit) ==
               (if Marked(k, f) then Recent(seen + [uid], limit) else seen)
            && Deliveries(ms + [f], limit) ==
               Deliveries(ms, limit) + (if k.Enqueued? then [Delivery(f.uid, f.parsed.id)] else [])
  {
    ProcessOne(ms, f, limit);
    if Marked(Classify(Marks(ms, limit), limit, f), f) {
      RecentPush(Marks(ms, limit), Trim(f.uid), limit);
    } else {
      assert Marks(ms + [f], limit) == Marks(ms, limit);
    }
  }

  lemma BrokenEnd(ms: seq<Fetched>, f: Fetched, limit: nat)
    requires Classify(Marks(ms, limit), limit, f).Broken?
    ensures EndsBroken(ms + [f], limit)
  {
    ProcessOne(ms, f, limit);
  }

  lemma CountedStep(before: seq<Fetched>, now: seq<Fetched>, f: Fetched, limit: nat,
                    enqueued: nat, duplicate: nat, skipped: nat)
    requires Counted(before, now, limit, enqueued, duplicate, skipped)
    ensures var k := Classify(Marks(now, limit), limit, f);
            Counted(before, now + [f], limit,
                    if k.Enqueued? then enqueued + 1 else enqueued,
                    if k.Duplicate? then duplicate + 1 else duplicate,
                    if k.Skipped? then skipped + 1 else skipped)
  {
    ProcessOne(now, f, limit);
    TallyPush(now, f, limit, Enqueued);
    TallyPush(now, f, limit, Duplicate);
    TallyPush(now, f, limit, Skipped);
  }

  lemma TallyPush(ms: seq<Fetched>, f: Fetched, limit: nat, k: Kind)
    ensures Tally(ms + [f], limit, k) == Tally(ms, limit, k) + if KindAt(ms + [f], limit, |ms|) == k then 1 else 0
  {
    assert (ms + [f])[..|ms|] == ms;
  }

  lemma TakeNext<T>(a: seq<T>, b: seq<T>, i: nat)
    requires i < |b|
    ensures a + b[..i + 1] == a + b[..i] + [b[i]]
  {
  }

  lemma IdsPush(ds: seq<Delivery>, d: Delivery)
    ensures IdsOf(ds + [d]) == IdsOf(ds) + [d.messageId]
  {
  }

  /** Forgetting can be done mark by mark. */
  lemma RecentPush(marks: seq<string>, uid: string, limit: nat)
    ensures Recent(Recent(marks, limit) + [uid], limit) == Recent(marks + [uid], limit)
  {
  }
}

/** What the poller guarantees over every run, however the messages are split into polls. */
module EmailTheory {
  import opened Text
  import opened Email

  /** No mark repeats one of the `limit` marks before it. */
  ghost predicate Spread(marks: seq<string>, limit: nat) {
    forall a, b :: 0 <= a < b < |marks| && b - a <= limit ==> marks[a] != marks[b]
  }

  lemma RecentHas(marks: seq<string>, limit: nat, a: nat)
    requires a < |marks| && |marks| - a <= limit
    ensures marks[a] in Recent(marks, limit)
  {
    var k := if |marks| > limit then a - (|marks| - limit) else a;
    assert Recent(marks, limit)[k] == marks[a];
  }

  lemma SpreadPush(marks: seq<string>, uid: string, limit: nat)
    requires Spread(marks, limit) && uid !in Recent(marks, limit)
    ensures Spread(marks + [uid], limit)
  {
    forall a | 0 <= a < |marks| && |marks| - a <= limit ensures marks[a] != uid {
      RecentHas(marks, limit, a);
    }
  }

  lemma {:induction false} MarksSpread(ms: seq<Fetched>, limit: nat)
    ensures Spread(Marks(ms, limit), limit)
    decreases |ms|
  {
    if ms != [] {
      var n := |ms| - 1;
      MarksSpread(ms[..n], limit);
      var marks := Marks(ms[..n], limit);
      if Marked(Classify(marks, limit, ms[n]), ms[n]) {
        SpreadPush(marks, Trim(ms[n].uid), limit);
      }
    }
  }

  lemma MarksStep(ms: seq<Fetched>, limit: nat, m: nat)
    requires m < |ms|
    ensures Marks(ms[..m], limit) <= Marks(ms[..m + 1], limit)
  {
    assert ms[..m + 1][..m] == ms[..m];
  }

  lemma {:induction false} MarksGrow(ms: seq<Fetched>, limit: nat, i: nat, j: nat)
    requires i <= j <= |ms|
    ensures Marks(ms[..i], limit) <= Marks(ms[..j], limit)
    decreases j
  {
    if i < j {
      var m := j - 1;
      MarksGrow(ms, limit, i, m);
      MarksStep(ms, limit, m);
    }
  }

  /** The UIDs other than `uid` marked after message `i` and before message `j`. */
  ghost function OthersBetween(ms: seq<Fetched>, limit: nat, i: nat, j: nat, uid: string): set<string>
    requires i < j <= |ms|
  {
    var lo, marks := |Marks(ms[..i + 1], limit)|, Marks(ms[..j], limit);
    set k | lo <= k < |marks| && marks[k] != uid :: marks[k]
  }

  lemma {:induction false} DistinctCount(s: seq<string>)
    requires forall a, b :: 0 <= a < b < |s| ==> s[a] != s[b]
    ensures |set x | x in s| == |s|
  {
    if s != [] {
      var n := |s| - 1;
      DistinctCount(s[..n]);
      assert (set x | x in s) == (set x | x in s[..n]) + {s[n]};
    }
  }

  lemma SubsetCount(a: set<string>, b: set<string>)
    requires a <= b
    ensures |a| <= |b|
  {
    assert b == a + (b - a);
  }

  lemma RecentDistinct(marks: seq<string>, limit: nat)
    requires Spread(marks, limit)
    ensures forall a, b :: 0 <= a < b < |Recent(marks, limit)| ==> Recent(marks, limit)[a] != Recent(marks, limit)[b]
  {
  }

  /** The message at `i` put its UID into the marks, where it stays. */
  lemma MarkPlace(ms: seq<Fetched>, limit: nat, i: nat, j: nat)
    requires i < j <= |ms| && Marked(KindAt(ms, limit, i), ms[i])
    ensures var p, marks := |Marks(ms[..i], limit)|, Marks(ms[..j], limit);
            p < |marks| && marks[p] == Trim(ms[i].uid) && |Marks(ms[..i + 1], limit)| == p + 1
  {
    assert ms[..i + 1][..i] == ms[..i];
    MarksGrow(ms, limit, i + 1, j);
  }

  /** A UID is accepted again only after at least `limit` other UIDs have been marked since. */
  lemma Redelivery(ms: seq<Fetched>, limit: nat, i: nat, j: nat)
    requires i < j < |ms| && Trim(ms[i].uid) == Trim(ms[j].uid) != ""
    requires KindAt(ms, limit, i).Enqueued? && KindAt(ms, limit, j).Enqueued?
    ensures |OthersBetween(ms, limit, i, j, Trim(ms[i].uid))| >= limit
  {
    var uid, marks := Trim(ms[i].uid), Marks(ms[..j], limit);
    MarkPlace(ms, limit, i, j);
    var p := |Marks(ms[..i], limit)|;
    if |marks| - p <= limit {
      RecentHas(marks, limit, p);
    }
    var recent := Recent(marks, limit);
    MarksSpread(ms[..j], limit);
    RecentDistinct(marks, limit);
    DistinctCount(recent);
    var others := OthersBetween(ms, limit, i, j, uid);
    forall x | x in recent ensures x in others {
      var k :| 0 <= k < |recent| && recent[k] == x;
      assert marks[|marks| - limit + k] == x;
    }
    SubsetCount((set x | x in recent), others);
  }

  /** Every processed message is counted once, and the ledger has one entry for each enqueued message. */
  lemma {:induction false} RunConserves(ms: seq<Fetched>, limit: nat)
    ensures |ms| == Tally(ms, limit, Enqueued) + Tally(ms, limit, Duplicate)
                  + Tally(ms, limit, Skipped) + Tally(ms, limit, Broken)
    ensures |Deliveries(ms, limit)| == Tally(ms, limit, Enqueued)
    decreases |ms|
  {
    if ms != [] {
      RunConserves(ms[..|ms| - 1], limit);
    }
  }

  /** What the bounded memory holds later it held before, or it was marked since. */
  lemma RecentLater(marks: seq<string>, later: seq<string>, limit: nat, uid: string)
    requires marks <= later && uid in Recent(later, limit)
    ensures uid in Recent(marks, limit) || uid in later[|marks|..]
  {
    var recent := Recent(later, limit);
    var k :| 0 <= k < |recent| && recent[k] == uid;
    var p := |later| - |recent| + k;
    assert later[p] == uid;
    if p < |marks| {
      assert marks[p] == uid && |marks| - p <= limit;
      RecentHas(marks, limit, p);
    } else {
      assert later[|marks|..][p - |marks|] == uid;
    }
  }

  /** A message that does not parse leaves no mark. Whatever is processed afterwards, in the same or in later polls, its
      UID is delivered the next time it parses, unless it was marked in between. */
  lemma BrokenIsRetried(ms: seq<Fetched>, limit: nat, bad: Fetched, between: seq<Fetched>, again: Fetched)
    requires Classify(Marks(ms, limit), limit, bad).Broken?
    requires Trim(again.uid) == Trim(bad.uid) && again.parsed.Message?
    requires var marks := Marks(ms + [bad] + between, limit);
             forall p :: |Marks(ms, limit)| <= p < |marks| ==> marks[p] != Trim(bad.uid)
    ensures Marks(ms + [bad], limit) == Marks(ms, limit) && Deliveries(ms + [bad], limit) == Deliveries(ms, limit)
    ensures KindAt(ms + [bad] + between + [again], limit, |ms| + 1 + |between|).Enqueued?
  {
    var all, uid := ms + [bad] + between, Trim(bad.uid);
    ProcessOne(ms, bad, limit);
    assert all[..|ms|] == ms && all[..|all|] == all;
    MarksGrow(all, limit, |ms|, |all|);
    ProcessOne(all, again, limit);
    if uid in Recent(Marks(all, limit), limit) {
      RecentLater(Marks(ms, limit), Marks(all, limit), limit, uid);
    }
  }
}
