/** The watch rules and the cooldown, in terms of entity ids and times alone. */
module HomeAssistantLaws {
  import opened Text
  import opened HomeAssistant
  import opened HomeAssistantTheory

  // ---------------------------------------------------------------- watch rules

  lemma {:induction false} DotIs(d: string, rest: string)
    requires '.' !in d
    ensures Dot(d + "." + rest) == |d| && Dot(d) == |d|
  {
    var s := d + "." + rest;
    if d != [] {
      assert s[1..] == d[1..] + "." + rest;
      DotIs(d[1..], rest);
    } else {
      assert s[0] == '.';
    }
  }

  /** The domain is the text before the first dot; without a dot it is empty. */
  lemma DomainExactly(d: string, rest: string)
    requires '.' !in d
    ensures Domain(d + "." + rest) == d && Domain(d) == ""
  {
    DotIs(d, rest);
    assert (d + "." + rest)[..|d|] == d;
  }

  lemma {:induction false} DotSplits(id: string) returns (d: string, rest: string)
    requires '.' in id
    ensures '.' !in d && id == d + "." + rest
  {
    if id[0] == '.' {
      d, rest := "", id[1..];
      assert id == "" + "." + rest;
    } else {
      d, rest := DotSplits(id[1..]);
      assert id == [id[0]] + id[1..];
      d := [id[0]] + d;
      assert id == d + "." + rest;
    }
  }

  /** Some domain on the list, or the entity itself; everything or nothing if both lists are empty. */
  ghost predicate Watched(cfg: Config, id: string) {
    if cfg.watchDomains == {} && cfg.watchEntities == {} then cfg.watchAll
    else
      || id in cfg.watchEntities
      || ('.' !in id && "" in cfg.watchDomains)
      || exists d, rest :: '.' !in d && id == d + "." + rest && d in cfg.watchDomains
  }

  lemma DomainWatched(domains: set<string>, id: string)
    ensures Domain(id) in domains <==>
            ('.' !in id && "" in domains) || exists d, rest :: '.' !in d && id == d + "." + rest && d in domains
  {
    if '.' in id {
      var d, rest := DotSplits(id);
      DomainExactly(d, rest);
      if e, tail :| '.' !in e && id == e + "." + tail && e in domains {
        DomainExactly(e, tail);
      }
    } else {
      DomainExactly(id, "");
      forall d: string, rest: string ensures id != d + "." + rest {
        assert (d + "." + rest)[|d|] == '.';
      }
    }
  }

  /** An event is buffered exactly when it reports a state change with a text, of an entity that is named, watched
      and not
      ignored, at least one cooldown after the time noted for it. Saturation never matters. */
  lemma BufferedExactly(cfg: Config, last: map<string, Epoch>, e: Event)
    ensures var id := Trim(e.entityId);
            Accepts(cfg, last, e) <==>
              && (e.eventType == None || e.eventType == Some("state_changed"))
              && id != "" && id !in cfg.ignored && e.text.Some? && Watched(cfg, id)
              && !(cfg.cooldown > 0 && id in last && e.epoch - last[id] < cfg.cooldown)
    ensures Accepts(cfg, last, e) ==> AcceptedOne(cfg, last, e) == [Inbound(Trim(e.entityId), e.epoch, e.text.value)]
    ensures !Accepts(cfg, last, e) ==> AcceptedOne(cfg, last, e) == []
  {
    DomainWatched(cfg.watchDomains, Trim(e.entityId));
  }

  /** Nothing ignored or unwatched is ever buffered. */
  lemma {:induction false} BufferedAllowed(cfg: Config, last: map<string, Epoch>, es: seq<Event>)
    ensures forall m :: m in AcceptedFrom(cfg, last, es) ==> m.entityId !in cfg.ignored && Watched(cfg, m.entityId)
    decreases |es|
  {
    if es != [] {
      var n := |es| - 1;
      BufferedAllowed(cfg, last, es[..n]);
      BufferedExactly(cfg, TimesAfter(cfg, last, es[..n]), es[n]);
    }
  }

  // ---------------------------------------------------------------- noted times

  /** The time of the entity's last message, or what was noted before. */
  function LastTime(ms: seq<Inbound>, id: string, before: Option<Epoch>): Option<Epoch> {
    if ms == [] then before else LastTime(ms[1..], id, if ms[0].entityId == id then Some(ms[0].epoch) else before)
  }

  function Noting(times: map<string, Epoch>, id: string): Option<Epoch> {
    if id in times then Some(times[id]) else None
  }

  lemma {:induction false} LastTimePush(ms: seq<Inbound>, m: Inbound, id: string, before: Option<Epoch>)
    ensures LastTime(ms + [m], id, before) == if m.entityId == id then Some(m.epoch) else LastTime(ms, id, before)
    decreases |ms|
  {
    if ms == [] {
      assert ms + [m] == [m] && [m][1..] == [];
    } else {
      assert (ms + [m])[1..] == ms[1..] + [m];
      LastTimePush(ms[1..], m, id, if ms[0].entityId == id then Some(ms[0].epoch) else before);
    }
  }

  /** With a cooldown, the time noted for an entity is that of its last accepted event; rejected events leave no
      trace. */
  lemma {:induction false} NotedExactly(cfg: Config, last: map<string, Epoch>, es: seq<Event>, id: string)
    requires cfg.cooldown > 0
    ensures Noting(TimesAfter(cfg, last, es), id) == LastTime(AcceptedFrom(cfg, last, es), id, Noting(last, id))
    decreases |es|
  {
    if es != [] {
      var n := |es| - 1;
      var times, ms := TimesAfter(cfg, last, es[..n]), AcceptedFrom(cfg, last, es[..n]);
      NotedExactly(cfg, last, es[..n], id);
      if Accepts(cfg, times, es[n]) {
        LastTimePush(ms, Inbound(Trim(es[n].entityId), es[n].epoch, es[n].text.value), id, Noting(last, id));
      } else {
        assert ms + [] == ms;
      }
    }
  }
}
