/** Every run of polls against a server that keeps updates in id order. */
module TelegramRuns {
  import opened TelegramReceive
  import opened TelegramTheory

  /** All updates the server ever holds, in order of their positive ids. */
  ghost predicate History(h: seq<Update>) {
    && (forall i :: 0 <= i < |h| ==> Proper(h[i]) && IdOf(h[i]) >= 1)
    && (forall i, j :: 0 <= i < j < |h| ==> Precedes(h, i, j))
  }

  predicate Precedes(h: seq<Update>, i: nat, j: nat)
    requires i < |h| && j < |h|
  {
    IdOf(h[i]) < IdOf(h[j])
  }

  /** A slice of the history is in order, too. */
  lemma SliceOrdered(h: seq<Update>, p: nat, q: nat)
    requires History(h) && p <= q <= |h|
    ensures var us := h[p..q]; forall i, j :: 0 <= i < j < |us| ==> IdOf(us[i]) < IdOf(us[j])
  {
    var us := h[p..q];
    forall i, j | 0 <= i < j < |us| ensures IdOf(us[i]) < IdOf(us[j]) {
      assert Precedes(h, p + i, p + j);
    }
  }

  /** A poll fails, or returns up to so many of the updates the server has from the offset on. */
  datatype Poll = Lost | Got(count: nat)

  /** Where the updates with id at least `offset` begin. */
  function From(h: seq<Update>, offset: int): (p: nat)
    ensures p <= |h|
  {
    if h == [] || IdOf(h[|h| - 1]) < offset then |h| else From(h[..|h| - 1], offset)
  }

  /** The end of a response of up to `n` updates from `p` on. */
  function Upto(h: seq<Update>, p: nat, n: nat): (q: nat)
    requires p <= |h|
    ensures p <= q <= |h|
  {
    if p + n <= |h| then p + n else |h|
  }

  function Answer(h: seq<Update>, last: int, poll: Poll): Response {
    match poll
    case Lost => Failure
    case Got(n) =>
      var p := From(h, last + 1);
      Batch(h[p..Upto(h, p, n)])
  }

  /** The updates a poll brings; a failed one brings none and, like `Receive`, leaves the watermark alone. */
  function Fetched(h: seq<Update>, last: int, poll: Poll): seq<Update> {
    match Answer(h, last, poll) case Failure => [] case Batch(us) => us
  }

  /** `last_update_id` after these polls. */
  function MarkAfter(h: seq<Update>, polls: seq<Poll>): int {
    if polls == [] then 0
    else
      var w := MarkAfter(h, polls[..|polls| - 1]);
      Watermark(w, Fetched(h, w, polls[|polls| - 1]))
  }

  /** The updates handled by these polls, poll after poll. */
  function Handled(h: seq<Update>, polls: seq<Poll>): seq<Update> {
    if polls == [] then []
    else
      var front := polls[..|polls| - 1];
      Handled(h, front) + Fetched(h, MarkAfter(h, front), polls[|polls| - 1])
  }

  /** The messages these polls return, poll after poll. */
  function Returned(h: seq<Update>, polls: seq<Poll>): seq<InboundMessage> {
    if polls == [] then []
    else
      var front := polls[..|polls| - 1];
      Returned(h, front) + DeliverAll(Fetched(h, MarkAfter(h, front), polls[|polls| - 1])).messages
  }

  lemma {:induction false} FromIs(h: seq<Update>, offset: int, p: nat)
    requires p <= |h|
    requires forall i :: 0 <= i < p ==> IdOf(h[i]) < offset
    requires forall i :: p <= i < |h| ==> IdOf(h[i]) >= offset
    ensures From(h, offset) == p
    decreases |h|
  {
    if p < |h| {
      FromIs(h[..|h| - 1], offset, p);
    }
  }

  lemma {:induction false} WatermarkIs(last: int, us: seq<Update>)
    requires forall i :: 0 <= i < |us| ==> last < IdOf(us[i])
    requires forall i, j :: 0 <= i < j < |us| ==> IdOf(us[i]) < IdOf(us[j])
    ensures Watermark(last, us) == if us == [] then last else IdOf(us[|us| - 1])
    decreases |us|
  {
    if us != [] {
      WatermarkIs(last, us[..|us| - 1]);
    }
  }

  function MarkAt(h: seq<Update>, p: nat): int
    requires p <= |h|
  {
    if p == 0 then 0 else IdOf(h[p - 1])
  }

  lemma FromMark(h: seq<Update>, p: nat)
    requires History(h) && p <= |h|
    ensures From(h, MarkAt(h, p) + 1) == p
  {
    var w := MarkAt(h, p);
    forall i | 0 <= i < p ensures IdOf(h[i]) < w + 1 {
      assert i < p - 1 ==> Precedes(h, i, p - 1);
    }
    forall i | p <= i < |h| ensures IdOf(h[i]) >= w + 1 {
      assert p > 0 ==> Precedes(h, p - 1, i);
    }
    FromIs(h, w + 1, p);
  }

  /** Where the next poll ends when `p` updates have been handled. */
  function Next(h: seq<Update>, p: nat, poll: Poll): (q: nat)
    requires p <= |h|
    ensures p <= q <= |h|
  {
    if poll.Got? then Upto(h, p, poll.count) else p
  }

  lemma FetchedIs(h: seq<Update>, p: nat, poll: Poll)
    requires History(h) && p <= |h|
    ensures Fetched(h, MarkAt(h, p), poll) == h[p..Next(h, p, poll)]
  {
    FromMark(h, p);
  }

  lemma MarkMoves(h: seq<Update>, p: nat, q: nat)
    requires History(h) && p <= q <= |h|
    ensures Watermark(MarkAt(h, p), h[p..q]) == MarkAt(h, q)
  {
    var us := h[p..q];
    forall i | 0 <= i < |us| ensures MarkAt(h, p) < IdOf(us[i]) {
      assert us[i] == h[p + i];
      assert p > 0 ==> Precedes(h, p - 1, p + i);
    }
    SliceOrdered(h, p, q);
    WatermarkIs(MarkAt(h, p), us);
  }

  /** One more poll, given what it fetches and where it leaves the mark. */
  lemma PollHandled(h: seq<Update>, polls: seq<Poll>, front: seq<Poll>, poll: Poll, p: nat, q: nat)
    requires polls != [] && front == polls[..|polls| - 1] && poll == polls[|polls| - 1]
    requires p <= q <= |h| && Handled(h, front) == h[..p] && MarkAfter(h, front) == MarkAt(h, p)
    requires Fetched(h, MarkAt(h, p), poll) == h[p..q] && Watermark(MarkAt(h, p), h[p..q]) == MarkAt(h, q)
    ensures Handled(h, polls) == h[..q] && MarkAfter(h, polls) == MarkAt(h, q)
  {
    assert h[..p] + h[p..q] == h[..q];
  }

  /** How many updates of the history the polls have handled. */
  function Position(h: seq<Update>, polls: seq<Poll>): (p: nat)
    ensures p <= |h|
  {
    if polls == [] then 0 else Next(h, Position(h, polls[..|polls| - 1]), polls[|polls| - 1])
  }

  /** The polls handle a prefix of the history, without gap or repetition, and the watermark is its last id. */
  lemma {:induction false} PrefixHandled(h: seq<Update>, polls: seq<Poll>)
    requires History(h)
    ensures Handled(h, polls) == h[..Position(h, polls)] && MarkAfter(h, polls) == MarkAt(h, Position(h, polls))
    decreases |polls|
  {
    if polls != [] {
      var front, poll := polls[..|polls| - 1], polls[|polls| - 1];
      var p, q := Position(h, front), Position(h, polls);
      PrefixHandled(h, front);
      FetchedIs(h, p, poll);
      MarkMoves(h, p, q);
      PollHandled(h, polls, front, poll, p, q);
    }
  }

  lemma {:induction false} MessageIdsAppend(a: seq<Update>, b: seq<Update>)
    ensures MessageIds(a + b) == MessageIds(a) + MessageIds(b)
    decreases |b|
  {
    if b == [] {
      assert a + b == a;
    } else {
      assert (a + b)[..|a + b| - 1] == a + b[..|b| - 1];
      MessageIdsAppend(a, b[..|b| - 1]);
    }
  }

  lemma {:induction false} FlatAppend(a: seq<InboundMessage>, b: seq<InboundMessage>)
    ensures FlatIds(a + b) == FlatIds(a) + FlatIds(b)
  {
    if a == [] {
      assert a + b == b;
    } else {
      assert (a + b)[1..] == a[1..] + b;
      FlatAppend(a[1..], b);
    }
  }

  lemma SliceIds(h: seq<Update>, p: nat, q: nat)
    requires History(h) && p <= q <= |h|
    ensures multiset(FlatIds(DeliverAll(h[p..q]).messages)) == multiset(MessageIds(h[p..q]))
  {
    SliceProper(h, p, q);
    BatchExactlyOnce(h[p..q]);
  }

  lemma SliceProper(h: seq<Update>, p: nat, q: nat)
    requires History(h) && p <= q <= |h|
    ensures ProperBatch(h[p..q])
  {
    var us := h[p..q];
    assert forall i :: 0 <= i < |us| ==> us[i] == h[p + i];
    SliceOrdered(h, p, q);
  }

  /** Every message returned by a run stands for a whole album of one poll, or for one update: its members are all the
      album's updates of that poll in arrival order, and its arrays are theirs, concatenated in this order. */
  lemma {:induction false} ReturnedWhole(h: seq<Update>, polls: seq<Poll>, m: InboundMessage) returns (p: nat, q: nat)
    requires History(h) && m in Returned(h, polls)
    ensures p <= q <= |h| && Sums(h[p..q], m) && Whole(h[p..q], m)
    decreases |polls|
  {
    var front, poll := polls[..|polls| - 1], polls[|polls| - 1];
    if m in Returned(h, front) {
      p, q := ReturnedWhole(h, front, m);
    } else {
      PrefixHandled(h, front);
      p := Position(h, front);
      q := Next(h, p, poll);
      FetchedIs(h, p, poll);
      SliceProper(h, p, q);
      BatchExactlyOnce(h[p..q]);
    }
  }

  /** A poll returns its messages after those of the polls before it, in the order of their first updates. */
  lemma PollInOrder(h: seq<Update>, polls: seq<Poll>, poll: Poll)
    requires History(h)
    ensures var p := Position(h, polls);
            var us := h[p..Next(h, p, poll)];
            && Returned(h, polls + [poll]) == Returned(h, polls) + DeliverAll(us).messages
            && HeadsFirst(us, DeliverAll(us).messages) && AllWhole(us, DeliverAll(us).messages)
  {
    var p := Position(h, polls);
    PrefixHandled(h, polls);
    FetchedIs(h, p, poll);
    SliceProper(h, p, Next(h, p, poll));
    BatchExactlyOnce(h[p..Next(h, p, poll)]);
    assert (polls + [poll])[..|polls|] == polls;
  }

  /** Over any run, failed polls included, the ids returned are those of the handled message updates. */
  lemma {:induction false} ReturnedIds(h: seq<Update>, polls: seq<Poll>)
    requires History(h)
    ensures multiset(FlatIds(Returned(h, polls))) == multiset(MessageIds(Handled(h, polls)))
    decreases |polls|
  {
    if polls != [] {
      var front, poll := polls[..|polls| - 1], polls[|polls| - 1];
      ReturnedIds(h, front);
      PrefixHandled(h, front);
      var p := |Handled(h, front)|;
      FetchedIs(h, p, poll);
      SliceIds(h, p, Next(h, p, poll));
      var us := Fetched(h, MarkAfter(h, front), poll);
      FlatAppend(Returned(h, front), DeliverAll(us).messages);
      MessageIdsAppend(Handled(h, front), us);
    }
  }

  lemma {:induction false} IdNowhere(us: seq<Update>, id: int)
    requires forall i :: 0 <= i < |us| ==> IdOf(us[i]) != id
    ensures multiset(MessageIds(us))[id] == 0
    decreases |us|
  {
    if us != [] {
      IdNowhere(us[..|us| - 1], id);
    }
  }

  lemma {:induction false} IdOnce(us: seq<Update>, i: nat)
    requires i < |us| && forall k, l :: 0 <= k < l < |us| ==> IdOf(us[k]) < IdOf(us[l])
    ensures multiset(MessageIds(us))[IdOf(us[i])] == if us[i].message.Some? then 1 else 0
    decreases |us|
  {
    var n := |us| - 1;
    if i < n {
      IdOnce(us[..n], i);
    } else {
      IdNowhere(us[..n], IdOf(us[i]));
    }
  }

  /** Every run delivers each handled message update exactly once and nothing else; what is handled is a prefix of
      the history, so no update is skipped. */
  lemma DeliveredExactlyOnce(h: seq<Update>, polls: seq<Poll>, i: nat)
    requires History(h) && i < |h|
    ensures multiset(FlatIds(Returned(h, polls)))[IdOf(h[i])] ==
            if i < |Handled(h, polls)| && h[i].message.Some? then 1 else 0
    ensures multiset(FlatIds(Returned(h, polls))) == multiset(MessageIds(h[..Position(h, polls)]))
    ensures |Handled(h, polls)| == Position(h, polls)
  {
    PrefixHandled(h, polls);
    ReturnedIds(h, polls);
    PrefixIds(h, Position(h, polls), i);
  }

  lemma PrefixIds(h: seq<Update>, p: nat, i: nat)
    requires History(h) && p <= |h| && i < |h|
    ensures multiset(MessageIds(h[..p]))[IdOf(h[i])] == if i < p && h[i].message.Some? then 1 else 0
  {
    if i < p {
      SliceOrdered(h, 0, p);
      assert h[..p] == h[0..p];
      IdOnce(h[..p], i);
    } else {
      forall k | 0 <= k < p ensures IdOf(h[..p][k]) != IdOf(h[i]) {
        assert Precedes(h, k, i);
      }
      IdNowhere(h[..p], IdOf(h[i]));
    }
  }

  lemma MarkAtGrows(h: seq<Update>, p: nat, q: nat)
    requires History(h) && p <= q <= |h|
    ensures MarkAt(h, p) <= MarkAt(h, q)
  {
    assert 0 < p < q ==> Precedes(h, p - 1, q - 1);
  }

  lemma PositionStep(h: seq<Update>, polls: seq<Poll>, poll: Poll)
    ensures Position(h, polls + [poll]) == Next(h, Position(h, polls), poll)
  {
    assert (polls + [poll])[..|polls|] == polls;
  }

  /** The watermark never decreases. */
  lemma WatermarkGrows(h: seq<Update>, polls: seq<Poll>, poll: Poll)
    requires History(h)
    ensures MarkAfter(h, polls) <= MarkAfter(h, polls + [poll])
  {
    PrefixHandled(h, polls);
    PrefixHandled(h, polls + [poll]);
    PositionStep(h, polls, poll);
    MarkAtGrows(h, Position(h, polls), Position(h, polls + [poll]));
  }

  /** A poll that returns something makes progress, whatever was lost before. */
  lemma PollProgresses(h: seq<Update>, polls: seq<Poll>, n: nat)
    requires History(h)
    ensures |Handled(h, polls + [Got(n)])| ==
            if |Handled(h, polls)| + n <= |h| then |Handled(h, polls)| + n else |h|
  {
    PrefixHandled(h, polls);
    PrefixHandled(h, polls + [Got(n)]);
    PositionStep(h, polls, Got(n));
  }
}
