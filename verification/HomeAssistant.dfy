/** Home Assistant events: watch rules, the per-entity cooldown, and the websocket handshake. */
module HomeAssistant {
  import opened Text

  const I64_MIN := -0x8000_0000_0000_0000
  const I64_MAX := 0x7FFF_FFFF_FFFF_FFFF

  type Epoch = x: int | I64_MIN <= x <= I64_MAX

  /** A state-changed event, as far as it decides acceptance; `text` is the rendered change, if there is one. */
  datatype Event = Event(eventType: Option<string>, entityId: string, text: Option<string>, epoch: Epoch)

  datatype Config = Config(watchAll: bool, watchDomains: set<string>, watchEntities: set<string>,
                           ignored: set<string>, cooldown: Epoch)

  /** An accepted message; its id is made of the entity and the epoch. */
  datatype Inbound = Inbound(entityId: string, epoch: Epoch, text: string) {
    function MessageId(): string {
      "ha_" + entityId + "_" + Decimal(epoch)
    }
  }

  /** The part before the first dot, if there is one. */
  function Domain(entityId: string): string {
    var i := Dot(entityId);
    if i < |entityId| then entityId[..i] else ""
  }

  function Dot(s: string): (i: nat)
    ensures i <= |s|
  {
    if s == [] || s[0] == '.' then 0 else 1 + Dot(s[1..])
  }

  function SaturatingSub(a: Epoch, b: Epoch): Epoch {
    if a - b > I64_MAX then I64_MAX else if a - b < I64_MIN then I64_MIN else a - b
  }

  /** The filters that come before the cooldown. */
  predicate Relevant(cfg: Config, e: Event) {
    var id := Trim(e.entityId);
    && (e.eventType.Some? ==> e.eventType.value == "state_changed")
    && id != "" && id !in cfg.ignored
    && (if cfg.watchDomains != {} || cfg.watchEntities != {}
        then Domain(id) in cfg.watchDomains || id in cfg.watchEntities
        else cfg.watchAll)
    && e.text.Some?
  }

  /** The last accepted event of the entity is too recent. */
  predicate Cooling(cfg: Config, last: map<string, Epoch>, e: Event) {
    && cfg.cooldown > 0 && Trim(e.entityId) in last
    && SaturatingSub(e.epoch, last[Trim(e.entityId)]) < cfg.cooldown
  }

  predicate Accepts(cfg: Config, last: map<string, Epoch>, e: Event) {
    Relevant(cfg, e) && !Cooling(cfg, last, e)
  }

  function Noted(cfg: Config, last: map<string, Epoch>, e: Event): map<string, Epoch> {
    if Accepts(cfg, last, e) && cfg.cooldown > 0 then last[Trim(e.entityId) := e.epoch] else last
  }

  // ---------------------------------------------------------------- websocket frames

  datatype Frame =
    | NotJson
    | AuthRequired
    | AuthOk
    | Ack(id: Option<nat>, success: Option<bool>)
    | EventFrame(event: Event)
    | OtherFrame

  datatype Stage = AwaitingAuthRequired | AwaitingAuthOk | AwaitingSubscribeResult | ReadingEvents

  const SUBSCRIPTION_ID := 1

  function Advance(stage: Stage, f: Frame): Stage {
    if stage.AwaitingAuthRequired? && f.AuthRequired? then AwaitingAuthOk
    else if stage.AwaitingAuthOk? && f.AuthOk? then AwaitingSubscribeResult
    else if stage.AwaitingSubscribeResult? && f == Ack(Some(SUBSCRIPTION_ID), Some(true)) then ReadingEvents
    else stage
  }

  function StageAfter(frames: seq<Frame>): Stage {
    if frames == [] then AwaitingAuthRequired else Advance(StageAfter(frames[..|frames| - 1]), frames[|frames| - 1])
  }

  /** The events that reach the adapter: event frames read after the subscription was acknowledged. */
  function EventsOf(frames: seq<Frame>): seq<Event> {
    if frames == [] then []
    else
      var n := |frames| - 1;
      EventsOf(frames[..n]) +
      if StageAfter(frames[..n]).ReadingEvents? && frames[n].EventFrame? then [frames[n].event] else []
  }

  /** Handshake stages completed. */
  function Completed(stage: Stage): nat {
    match stage
    case AwaitingAuthRequired => 0
    case AwaitingAuthOk => 1
    case AwaitingSubscribeResult => 2
    case ReadingEvents => 3
  }

  /** The frames that are not JSON. */
  function Unreadable(frames: seq<Frame>): nat {
    if frames == [] then 0 else Unreadable(frames[..|frames| - 1]) + if frames[|frames| - 1].NotJson? then 1 else 0
  }

  datatype Lifecycle = Lifecycle(framesRead: nat, accepted: nat, ignored: nat, invalid: nat,
                                 authRequiredSeen: bool, authenticated: bool, subscribed: bool)
  {
    /** Every frame read was accepted, ignored, invalid or completed a stage; the flags tell the stage. */
    predicate Consistent(stage: Stage) {
      && framesRead == accepted + ignored + invalid + Completed(stage)
      && (authRequiredSeen <==> Completed(stage) >= 1)
      && (authenticated <==> Completed(stage) >= 2)
      && (subscribed <==> Completed(stage) >= 3)
    }
  }

  // ---------------------------------------------------------------- the adapter

  function TimesAfter(cfg: Config, last: map<string, Epoch>, es: seq<Event>): map<string, Epoch> {
    if es == [] then last
    else Noted(cfg, TimesAfter(cfg, last, es[..|es| - 1]), es[|es| - 1])
  }

  /** The message made of an accepted event. */
  function AcceptedOne(cfg: Config, last: map<string, Epoch>, e: Event): seq<Inbound> {
    if Accepts(cfg, last, e) then [Inbound(Trim(e.entityId), e.epoch, e.text.value)] else []
  }

  /** The messages accepted from these events, in order. */
  function AcceptedFrom(cfg: Config, last: map<string, Epoch>, es: seq<Event>): seq<Inbound> {
    if es == [] then []
    else
      var n := |es| - 1;
      AcceptedFrom(cfg, last, es[..n]) + AcceptedOne(cfg, TimesAfter(cfg, last, es[..n]), es[n])
  }

  method EmptyReport() returns (r: Lifecycle)
    ensures r.Consistent(AwaitingAuthRequired) && r.framesRead == r.accepted == r.ignored == r.invalid == 0
  {
    r := Lifecycle(0, 0, 0, 0, false, false, false);
  }

  class Adapter {
    const cfg: Config
    var lastEventTime: map<string, Epoch>
    var inboundBuffer: seq<Inbound>

    /** A negative cooldown counts as none. */
    constructor (cfg0: Config)
      ensures cfg == cfg0.(cooldown := if cfg0.cooldown < 0 then 0 else cfg0.cooldown)
      ensures lastEventTime == map[] && inboundBuffer == []
    {
      cfg := cfg0.(cooldown := if cfg0.cooldown < 0 then 0 else cfg0.cooldown);
      lastEventTime, inboundBuffer := map[], [];
    }

    method IngestToBuffer(e: Event) returns (accepted: bool)
      modifies this
      ensures accepted <==> Accepts(cfg, old(lastEventTime), e)
      ensures lastEventTime == Noted(cfg, old(lastEventTime), e)
      ensures inboundBuffer == old(inboundBuffer) + AcceptedOne(cfg, old(lastEventTime), e)
    {
      if e.eventType.Some? && e.eventType.value != "state_changed" {
        return false;
      }
      var entityId := Trim(e.entityId);
      if entityId == "" {
        return false;
      }
      if entityId in cfg.ignored {
        return false;
      }
      var domain := Domain(entityId);
      if cfg.watchDomains != {} || cfg.watchEntities != {} {
        if domain !in cfg.watchDomains && entityId !in cfg.watchEntities {
          return false;
        }
      } else if !cfg.watchAll {
        return false;
      }
      if e.text.None? {
        return false;
      }
      if cfg.cooldown > 0 {
        if entityId in lastEventTime {
          if SaturatingSub(e.epoch, lastEventTime[entityId]) < cfg.cooldown {
            return false;
          }
        }
        lastEventTime := lastEventTime[entityId := e.epoch];
      }
      inboundBuffer := inboundBuffer + [Inbound(entityId, e.epoch, e.text.value)];
      accepted := true;
    }

    /** One frame: it completes a handshake stage, reaches the event filters, or is counted as ignored or invalid. */
    method ReadFrame(stage: Stage, frame: Frame, r0: Lifecycle) returns (next: Stage, r: Lifecycle)
      requires r0.Consistent(stage)
      modifies this
      ensures next == Advance(stage, frame) && r.Consistent(next) && r.framesRead == r0.framesRead + 1
      ensures |inboundBuffer| - |old(inboundBuffer)| == r.accepted - r0.accepted
      ensures r.invalid == r0.invalid + if frame.NotJson? then 1 else 0
      ensures lastEventTime == TimesAt(cfg, old(lastEventTime), stage, frame)
      ensures inboundBuffer == old(inboundBuffer) + AcceptedAt(cfg, old(lastEventTime), stage, frame)
    {
      next := stage;
      r := r0.(framesRead := r0.framesRead + 1);
      if frame.NotJson? {
        r := r.(invalid := r.invalid + 1);
        return;
      }
      match stage {
        case AwaitingAuthRequired =>
          if frame.AuthRequired? {
            r := r.(authRequiredSeen := true);
            next := AwaitingAuthOk;
          } else {
            r := r.(ignored := r.ignored + 1);
          }
        case AwaitingAuthOk =>
          if frame.AuthOk? {
            r := r.(authenticated := true);
            next := AwaitingSubscribeResult;
          } else {
            r := r.(ignored := r.ignored + 1);
          }
        case AwaitingSubscribeResult =>
          if frame.Ack? && frame.id == Some(SUBSCRIPTION_ID) && frame.success == Some(true) {
            r := r.(subscribed := true);
            next := ReadingEvents;
          } else {
            r := r.(ignored := r.ignored + 1);
          }
        case ReadingEvents =>
          if frame.EventFrame? {
            var accepted := IngestToBuffer(frame.event);
            r := if accepted then r.(accepted := r.accepted + 1) else r.(ignored := r.ignored + 1);
          } else {
            r := r.(ignored := r.ignored + 1);
          }
      }
    }

    /** `ingest_websocket_lifecycle_to_buffer`: exactly the events read after the subscription reach the filters,
        and every frame is accounted for. */
    method IngestLifecycle(frames: seq<Frame>) returns (r: Lifecycle)
      modifies this
      ensures lastEventTime == TimesAfter(cfg, old(lastEventTime), EventsOf(frames))
      ensures inboundBuffer == old(inboundBuffer) + AcceptedFrom(cfg, old(lastEventTime), EventsOf(frames))
      ensures r.framesRead == |frames| && r.Consistent(StageAfter(frames))
      ensures |inboundBuffer| == |old(inboundBuffer)| + r.accepted && r.invalid == Unreadable(frames)
    {
      r := EmptyReport();
      var stage := AwaitingAuthRequired;
      ghost var was, buffer0 := lastEventTime, inboundBuffer;
      for i := 0 to |frames|
        invariant r.framesRead == i
        invariant stage == StageAfter(frames[..i])
        invariant r.Consistent(stage)
        invariant lastEventTime == TimesRead(cfg, was, frames[..i])
        invariant inboundBuffer == buffer0 + MessagesRead(cfg, was, frames[..i])
        invariant |inboundBuffer| == |buffer0| + r.accepted && r.invalid == Unreadable(frames[..i])
      {
        FrameStep(frames, i);
        ReadStep(cfg, was, frames, i);
        Reassociate(buffer0, MessagesRead(cfg, was, frames[..i]), AcceptedAt(cfg, lastEventTime, stage, frames[i]));
        stage, r := ReadFrame(stage, frames[i], r);
      }
      WholeSequence(frames);
    }
  }

  function TimesRead(cfg: Config, last: map<string, Epoch>, frames: seq<Frame>): map<string, Epoch> {
    TimesAfter(cfg, last, EventsOf(frames))
  }

  function MessagesRead(cfg: Config, last: map<string, Epoch>, frames: seq<Frame>): seq<Inbound> {
    AcceptedFrom(cfg, last, EventsOf(frames))
  }

  /** What a single frame leaves behind at a given stage. */
  function TimesAt(cfg: Config, last: map<string, Epoch>, stage: Stage, f: Frame): map<string, Epoch> {
    if stage.ReadingEvents? && f.EventFrame? then Noted(cfg, last, f.event) else last
  }

  function AcceptedAt(cfg: Config, last: map<string, Epoch>, stage: Stage, f: Frame): seq<Inbound> {
    if stage.ReadingEvents? && f.EventFrame? then AcceptedOne(cfg, last, f.event) else []
  }

  lemma ReadStep(cfg: Config, last: map<string, Epoch>, frames: seq<Frame>, i: nat)
    requires i < |frames|
    ensures TimesRead(cfg, last, frames[..i + 1])
         == TimesAt(cfg, TimesRead(cfg, last, frames[..i]), StageAfter(frames[..i]), frames[i])
    ensures MessagesRead(cfg, last, frames[..i + 1])
         == MessagesRead(cfg, last, frames[..i])
          + AcceptedAt(cfg, TimesRead(cfg, last, frames[..i]), StageAfter(frames[..i]), frames[i])
  {
    FrameStep(frames, i);
    if StageAfter(frames[..i]).ReadingEvents? && frames[i].EventFrame? {
      PushEvent(cfg, last, EventsOf(frames[..i]), frames[i].event);
    } else {
      assert EventsOf(frames[..i + 1]) == EventsOf(frames[..i]);
    }
  }

  lemma WholeSequence(frames: seq<Frame>)
    ensures frames[..|frames|] == frames
  {
  }

  lemma FrameStep(frames: seq<Frame>, i: nat)
    requires i < |frames|
    ensures StageAfter(frames[..i + 1]) == Advance(StageAfter(frames[..i]), frames[i])
    ensures EventsOf(frames[..i + 1]) == EventsOf(frames[..i]) +
              if StageAfter(frames[..i]).ReadingEvents? && frames[i].EventFrame? then [frames[i].event] else []
    ensures Unreadable(frames[..i + 1]) == Unreadable(frames[..i]) + if frames[i].NotJson? then 1 else 0
  {
    assert frames[..i + 1][..i] == frames[..i];
  }

  lemma PushEvent(cfg: Config, last: map<string, Epoch>, es: seq<Event>, e: Event)
    ensures TimesAfter(cfg, last, es + [e]) == Noted(cfg, TimesAfter(cfg, last, es), e)
    ensures AcceptedFrom(cfg, last, es + [e]) ==
            AcceptedFrom(cfg, last, es) + AcceptedOne(cfg, TimesAfter(cfg, last, es), e)
  {
    assert (es + [e])[..|es|] == es;
  }
}
