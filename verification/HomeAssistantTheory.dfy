/** What the cooldown and the handshake guarantee over whole runs. */
module HomeAssistantTheory {
  import opened Text
  import opened HomeAssistant

  // ---------------------------------------------------------------- cooldown

  /** Any two messages of one entity are at least `gap` seconds apart, in order. */
  ghost predicate Spaced(ms: seq<Inbound>, gap: int) {
    forall i, j :: 0 <= i < j < |ms| && ms[i].entityId == ms[j].entityId ==> ms[j].epoch - ms[i].epoch >= gap
  }

  /** The table holds, for every message, a time of its entity no earlier than the message. */
  ghost predicate Remembered(ms: seq<Inbound>, last: map<string, Epoch>) {
    forall i :: 0 <= i < |ms| ==> ms[i].entityId in last && last[ms[i].entityId] >= ms[i].epoch
  }

  /** One more event keeps the spacing and the table. */
  lemma EventKeepsSpacing(cfg: Config, last: map<string, Epoch>, ms: seq<Inbound>, e: Event)
    requires cfg.cooldown > 0 && Spaced(ms, cfg.cooldown) && Remembered(ms, last)
    ensures Spaced(ms + AcceptedOne(cfg, last, e), cfg.cooldown)
    ensures Remembered(ms + AcceptedOne(cfg, last, e), Noted(cfg, last, e))
  {
    var id := Trim(e.entityId);
    if Accepts(cfg, last, e) {
      assert id in last ==> e.epoch - last[id] >= cfg.cooldown;
    }
  }

  lemma {:induction false} RunKeepsSpacing(cfg: Config, last: map<string, Epoch>, es: seq<Event>)
    requires cfg.cooldown > 0
    ensures Spaced(AcceptedFrom(cfg, last, es), cfg.cooldown)
    ensures Remembered(AcceptedFrom(cfg, last, es), TimesAfter(cfg, last, es))
  {
    if es != [] {
      var n := |es| - 1;
      RunKeepsSpacing(cfg, last, es[..n]);
      EventKeepsSpacing(cfg, TimesAfter(cfg, last, es[..n]), AcceptedFrom(cfg, last, es[..n]), es[n]);
    }
  }

  /** The messages of one entity, in order. */
  function OfEntity(ms: seq<Inbound>, id: string): seq<Inbound> {
    if ms == [] then []
    else
      var n := |ms| - 1;
      OfEntity(ms[..n], id) + if ms[n].entityId == id then [ms[n]] else []
  }

  lemma {:induction false} OfEntityLast(ms: seq<Inbound>, id: string) returns (i: nat)
    requires OfEntity(ms, id) != []
    ensures i < |ms| && ms[i].entityId == id && OfEntity(ms, id)[|OfEntity(ms, id)| - 1] == ms[i]
  {
    var n := |ms| - 1;
    if ms[n].entityId == id {
      i := n;
    } else {
      i := OfEntityLast(ms[..n], id);
    }
  }

  /** k messages of one entity span at least k - 1 gaps. */
  lemma {:induction false} SpacedSpan(ms: seq<Inbound>, gap: nat, id: string)
    requires Spaced(ms, gap) && OfEntity(ms, id) != []
    ensures var own := OfEntity(ms, id); own[|own| - 1].epoch - own[0].epoch >= (|own| - 1) * gap
  {
    var n := |ms| - 1;
    var own, front := OfEntity(ms, id), OfEntity(ms[..n], id);
    if ms[n].entityId != id {
      SpacedSpan(ms[..n], gap, id);
    } else if front != [] {
      SpacedSpan(ms[..n], gap, id);
      var i := OfEntityLast(ms[..n], id);
      assert ms[n].epoch - ms[i].epoch >= gap;
      Stretch(|front|, gap);
    }
  }

  lemma Stretch(k: nat, gap: nat)
    ensures (k - 1) * gap + gap == k * gap
  {
  }

  /** Over any run with a positive cooldown, k accepted events of one entity span at least k - 1 cooldowns. */
  lemma CooldownRate(cfg: Config, last: map<string, Epoch>, es: seq<Event>, id: string)
    requires cfg.cooldown > 0
    ensures var own := OfEntity(AcceptedFrom(cfg, last, es), id);
            own != [] ==> own[|own| - 1].epoch - own[0].epoch >= (|own| - 1) * cfg.cooldown
  {
    RunKeepsSpacing(cfg, last, es);
    if OfEntity(AcceptedFrom(cfg, last, es), id) != [] {
      SpacedSpan(AcceptedFrom(cfg, last, es), cfg.cooldown, id);
    }
  }

  // ---------------------------------------------------------------- message ids

  /** A separator that does not occur after it determines both sides. */
  lemma SplitAtLast(a: string, b: string, x: string, y: string, c: char)
    requires c !in x && c !in y && a + [c] + x == b + [c] + y
    ensures a == b && x == y
  {
    var s := a + [c] + x;
    assert s[|a|] == c && s[|b|] == c;
    assert forall i :: |a| < i < |s| ==> s[i] == x[i - |a| - 1];
    assert forall i :: |b| < i < |s| ==> s[i] == y[i - |b| - 1];
    assert |a| == |b|;
    assert a == s[..|a|] && b == s[..|a|];
    assert x == s[|a| + 1..] && y == s[|a| + 1..];
  }

  /** The id determines the entity and the epoch, although both parts are free text around an underscore. */
  lemma MessageIdInjective(m: Inbound, n: Inbound)
    requires m.MessageId() == n.MessageId()
    ensures m.entityId == n.entityId && m.epoch == n.epoch
  {
    DecimalPlain(m.epoch, '_');
    DecimalPlain(n.epoch, '_');
    SplitAtLast("ha_" + m.entityId, "ha_" + n.entityId, Decimal(m.epoch), Decimal(n.epoch), '_');
    assert m.entityId == ("ha_" + m.entityId)[3..] && n.entityId == ("ha_" + n.entityId)[3..];
    DecimalInjective(m.epoch, n.epoch);
  }

  ghost predicate DistinctIds(ms: seq<Inbound>) {
    forall i, j :: 0 <= i < j < |ms| ==> ms[i].MessageId() != ms[j].MessageId()
  }

  lemma CooldownIdsDistinct(cfg: Config, last: map<string, Epoch>, es: seq<Event>)
    requires cfg.cooldown > 0
    ensures DistinctIds(AcceptedFrom(cfg, last, es))
  {
    var ms := AcceptedFrom(cfg, last, es);
    RunKeepsSpacing(cfg, last, es);
    forall i, j | 0 <= i < j < |ms| ensures ms[i].MessageId() != ms[j].MessageId() {
      if ms[i].MessageId() == ms[j].MessageId() {
        MessageIdInjective(ms[i], ms[j]);
      }
    }
  }

  /** Without a cooldown the same relevant event is accepted twice, under one id. */
  lemma RepeatedEvent(cfg: Config, last: map<string, Epoch>, e: Event)
    requires cfg.cooldown == 0 && Relevant(cfg, e)
    ensures |AcceptedFrom(cfg, last, [e, e])| == 2 && !DistinctIds(AcceptedFrom(cfg, last, [e, e]))
  {
    var m := Inbound(Trim(e.entityId), e.epoch, e.text.value);
    TwoEvents(cfg, last, e, m);
    var ms := AcceptedFrom(cfg, last, [e, e]);
    assert ms[0].MessageId() == ms[1].MessageId();
  }

  lemma TwoEvents(cfg: Config, last: map<string, Epoch>, e: Event, m: Inbound)
    requires cfg.cooldown == 0 && AcceptedOne(cfg, last, e) == [m]
    ensures AcceptedFrom(cfg, last, [e, e]) == [m, m]
  {
    PushEvent(cfg, last, [], e);
    PushEvent(cfg, last, [e], e);
    assert [] + [e] == [e] && [e] + [e] == [e, e];
  }

  /** For an adapter that lets anything through, ids never repeat in any run exactly when the cooldown is on. */
  lemma IdsDistinctExactly(cfg: Config, e: Event)
    requires cfg.cooldown >= 0 && Relevant(cfg, e)
    ensures cfg.cooldown > 0 <==> forall es :: DistinctIds(AcceptedFrom(cfg, map[], es))
  {
    if cfg.cooldown > 0 {
      forall es ensures DistinctIds(AcceptedFrom(cfg, map[], es)) {
        CooldownIdsDistinct(cfg, map[], es);
      }
    } else {
      RepeatedEvent(cfg, map[], e);
    }
  }

  // ---------------------------------------------------------------- handshake

  const ACK := Ack(Some(SUBSCRIPTION_ID), Some(true))

  ghost predicate AskedBy(frames: seq<Frame>, i: int) {
    0 <= i < |frames| && frames[i].AuthRequired?
  }

  ghost predicate AuthenticatedBy(frames: seq<Frame>, i: int, j: int) {
    AskedBy(frames, i) && i < j < |frames| && frames[j].AuthOk?
  }

  ghost predicate SubscribedBy(frames: seq<Frame>, i: int, j: int, k: int) {
    AuthenticatedBy(frames, i, j) && j < k < |frames| && frames[k] == ACK
  }

  /** A stage is reached exactly when the frames it waits for occur in order, whatever lies between them. */
  lemma {:induction false} AskedExactly(frames: seq<Frame>)
    ensures Completed(StageAfter(frames)) >= 1 <==> exists i :: AskedBy(frames, i)
  {
    if frames != [] {
      var n := |frames| - 1;
      var front := frames[..n];
      AskedExactly(front);
      if i :| AskedBy(front, i) {
        assert AskedBy(frames, i);
      }
      if i :| AskedBy(frames, i) {
        assert i == n || AskedBy(front, i);
      }
      if frames[n].AuthRequired? {
        assert AskedBy(frames, n);
      }
    }
  }

  lemma {:induction false} AuthenticatedExactly(frames: seq<Frame>)
    ensures Completed(StageAfter(frames)) >= 2 <==> exists i, j :: AuthenticatedBy(frames, i, j)
  {
    if frames != [] {
      var n := |frames| - 1;
      var front := frames[..n];
      AskedExactly(front);
      AuthenticatedExactly(front);
      if i, j :| AuthenticatedBy(front, i, j) {
        assert AuthenticatedBy(frames, i, j);
      }
      if i, j :| AuthenticatedBy(frames, i, j) {
        assert AskedBy(front, i);
        assert j == n || AuthenticatedBy(front, i, j);
      }
      if i :| AskedBy(front, i) && frames[n].AuthOk? {
        assert AuthenticatedBy(frames, i, n);
      }
    }
  }

  lemma {:induction false} SubscribedExactly(frames: seq<Frame>)
    ensures StageAfter(frames).ReadingEvents? <==> exists i, j, k :: SubscribedBy(frames, i, j, k)
  {
    if frames != [] {
      var n := |frames| - 1;
      var front := frames[..n];
      AuthenticatedExactly(front);
      SubscribedExactly(front);
      if i, j, k :| SubscribedBy(front, i, j, k) {
        assert SubscribedBy(frames, i, j, k);
      }
      if i, j, k :| SubscribedBy(frames, i, j, k) {
        assert AuthenticatedBy(front, i, j);
        assert k == n || SubscribedBy(front, i, j, k);
      }
      if i, j :| AuthenticatedBy(front, i, j) && frames[n] == ACK {
        assert SubscribedBy(frames, i, j, n);
      }
    }
  }

  /** The events carried by these frames. */
  function AllEvents(frames: seq<Frame>): seq<Event> {
    if frames == [] then []
    else
      var n := |frames| - 1;
      AllEvents(frames[..n]) + if frames[n].EventFrame? then [frames[n].event] else []
  }

  /** Nothing reaches the filters before the subscription. */
  lemma {:induction false} NothingBefore(frames: seq<Frame>)
    requires !StageAfter(frames).ReadingEvents?
    ensures EventsOf(frames) == []
  {
    if frames != [] {
      NothingBefore(frames[..|frames| - 1]);
    }
  }

  /** After it, every event does. */
  lemma {:induction false} EverythingAfter(before: seq<Frame>, after: seq<Frame>)
    requires StageAfter(before).ReadingEvents?
    ensures StageAfter(before + after).ReadingEvents? && EventsOf(before + after) == EventsOf(before) + AllEvents(after)
  {
    if after == [] {
      assert before + after == before;
    } else {
      var n := |after| - 1;
      EverythingAfter(before, after[..n]);
      assert (before + after)[..|before + after| - 1] == before + after[..n];
      Reassociate(EventsOf(before), AllEvents(after[..n]), if after[n].EventFrame? then [after[n].event] else []);
    }
  }

  /** The first acknowledged subscription splits any frame sequence: the events of the rest, and only those, are
      ingested. */
  lemma SubscriptionSplits(before: seq<Frame>, after: seq<Frame>)
    requires !StageAfter(before).ReadingEvents? && StageAfter(before + [ACK]).ReadingEvents?
    ensures EventsOf(before + [ACK] + after) == AllEvents(after)
  {
    NothingBefore(before);
    assert (before + [ACK])[..|before|] == before;
    assert EventsOf(before + [ACK]) == [];
    EverythingAfter(before + [ACK], after);
  }
}
