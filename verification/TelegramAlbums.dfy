/** What an album is made of: everything about it is read off its parts, in arrival order. */
module TelegramAlbums {
  import opened Text
  import opened TelegramReceive
  import opened TelegramTheory

  /** The messages of one album, in arrival order. */
  function Parts(us: seq<Update>, key: string): seq<InboundMessage> {
    if us == [] then []
    else
      var n := |us| - 1;
      Parts(us[..n], key) + if InAlbum(us[n], key) then [us[n].message.value] else []
  }

  /** The first text that is not blank; the first one if all are. */
  function Caption(parts: seq<InboundMessage>): string
    requires parts != []
  {
    if Blank(parts[0].text) && |parts| > 1 && !Blank(Caption(parts[1..])) then Caption(parts[1..]) else parts[0].text
  }

  /** The photos of all parts that count any. */
  function Photos(parts: seq<InboundMessage>): Option<nat> {
    if parts == [] then None
    else
      match (parts[0].photoCount, Photos(parts[1..]))
      case (None, rest) => rest
      case (Some(n), None) => Some(n)
      case (Some(n), Some(m)) => Some(n + m)
  }

  /** The message ids that are not blank, each where it first occurs. */
  function Ids(parts: seq<InboundMessage>, seen: set<string>): seq<string> {
    if parts == [] then []
    else
      var id := parts[0].messageId;
      if Blank(id) || id in seen then Ids(parts[1..], seen) else [id] + Ids(parts[1..], seen + {id})
  }

  /** The message is the album of these parts. */
  ghost predicate Composed(m: InboundMessage, parts: seq<InboundMessage>) {
    && parts != []
    && m.threadId == parts[0].threadId && m.messageId == parts[0].messageId && m.topic == parts[0].topic
    && m.groupId == parts[0].groupId && m.updateId == parts[0].updateId
    && m.text == Caption(parts)
    && m.photoCount == Photos(parts)
    && m.albumMessageIds == (if |parts| == 1 then [] else Ids(parts, {}))
  }

  // ---------------------------------------------------------------- one more part

  lemma {:induction false} CaptionPush(parts: seq<InboundMessage>, m: InboundMessage)
    requires parts != []
    ensures Caption(parts + [m]) == if Blank(Caption(parts)) && !Blank(m.text) then m.text else Caption(parts)
    decreases |parts|
  {
    assert (parts + [m])[1..] == parts[1..] + [m];
    if |parts| == 1 {
      assert parts[1..] + [m] == [m];
    } else {
      CaptionPush(parts[1..], m);
    }
  }

  lemma {:induction false} PhotosPush(parts: seq<InboundMessage>, m: InboundMessage)
    ensures Photos(parts + [m]) ==
            match (Photos(parts), m.photoCount)
            case (all, None) => all
            case (None, Some(n)) => Some(n)
            case (Some(k), Some(n)) => Some(k + n)
    decreases |parts|
  {
    if parts == [] {
      assert parts + [m] == [m] && [m][1..] == [];
    } else {
      assert (parts + [m])[1..] == parts[1..] + [m];
      PhotosPush(parts[1..], m);
    }
  }

  lemma {:induction false} IdsPush(parts: seq<InboundMessage>, m: InboundMessage, seen: set<string>)
    ensures Ids(parts + [m], seen) ==
            Ids(parts, seen) +
            if Blank(m.messageId) || m.messageId in seen || m.messageId in Ids(parts, seen) then [] else [m.messageId]
    decreases |parts|
  {
    if parts == [] {
      assert parts + [m] == [m] && [m][1..] == [];
    } else {
      var id := parts[0].messageId;
      assert (parts + [m])[1..] == parts[1..] + [m];
      if Blank(id) || id in seen {
        IdsPush(parts[1..], m, seen);
      } else {
        IdsPush(parts[1..], m, seen + {id});
      }
    }
  }

  /** The first id is among the ids, unless it is blank. */
  lemma FirstId(parts: seq<InboundMessage>)
    requires parts != []
    ensures Blank(parts[0].messageId) || parts[0].messageId in Ids(parts, {})
  {
  }

  lemma OneId(m: InboundMessage)
    ensures Ids([m], {}) == if Blank(m.messageId) then [] else [m.messageId]
  {
    assert [m][1..] == [];
  }

  lemma AlbumIdsMerged(album: InboundMessage, parts: seq<InboundMessage>, next: InboundMessage)
    requires Composed(album, parts)
    ensures MergeAlbum(album, next).albumMessageIds == Ids(parts + [next], {})
  {
    IdsPush(parts, next, {});
    FirstId(parts);
    if |parts| == 1 {
      OneId(parts[0]);
      assert parts == [parts[0]];
    }
  }

  lemma ComposedMerge(album: InboundMessage, parts: seq<InboundMessage>, next: InboundMessage)
    requires Composed(album, parts)
    ensures Composed(MergeAlbum(album, next), parts + [next])
  {
    CaptionPush(parts, next);
    PhotosPush(parts, next);
    AlbumIdsMerged(album, parts, next);
  }

  lemma ComposedAlone(m: InboundMessage)
    requires m.albumMessageIds == []
    ensures Composed(m, [m])
  {
    assert [m][1..] == [];
  }

  // ---------------------------------------------------------------- over a batch

  /** Every message of an album is made of the album's parts, any other is as it arrived. */
  ghost predicate Made(us: seq<Update>, m: InboundMessage) {
    match AlbumKey(m)
    case None => exists u :: u in us && u.message == Some(m)
    case Some(key) => Composed(m, Parts(us, key))
  }

  ghost predicate AllMade(us: seq<Update>, ms: seq<InboundMessage>) {
    forall i :: 0 <= i < |ms| ==> Made(us, ms[i])
  }

  lemma PartsPush(us: seq<Update>, u: Update, key: string)
    ensures Parts(us + [u], key) == Parts(us, key) + if InAlbum(u, key) then [u.message.value] else []
  {
    assert (us + [u])[..|us|] == us;
  }

  lemma MadePush(us: seq<Update>, u: Update, m: InboundMessage)
    requires Made(us, m) && (AlbumKey(m).Some? ==> !InAlbum(u, AlbumKey(m).value))
    ensures Made(us + [u], m)
  {
    if AlbumKey(m).Some? {
      PartsPush(us, u, AlbumKey(m).value);
      assert Parts(us + [u], AlbumKey(m).value) == Parts(us, AlbumKey(m).value);
    } else {
      var v :| v in us && v.message == Some(m);
      assert v in us + [u];
    }
  }

  lemma MadeMerge(us: seq<Update>, u: Update, album: InboundMessage)
    requires Made(us, album) && AlbumKey(album).Some? && InAlbum(u, AlbumKey(album).value)
    ensures Made(us + [u], MergeAlbum(album, u.message.value))
  {
    var key := AlbumKey(album).value;
    PartsPush(us, u, key);
    ComposedMerge(album, Parts(us, key), u.message.value);
    MergeKeepsKey(album, u.message.value);
  }

  lemma MadeFirst(us: seq<Update>, u: Update)
    requires u.message.Some? && u.message.value.albumMessageIds == []
    requires AlbumKey(u.message.value).Some? ==> Parts(us, AlbumKey(u.message.value).value) == []
    ensures Made(us + [u], u.message.value)
  {
    var m := u.message.value;
    if AlbumKey(m).Some? {
      PartsPush(us, u, AlbumKey(m).value);
      ComposedAlone(m);
    } else {
      assert u in us + [u];
    }
  }

  lemma {:induction false} PartsAndIds(us: seq<Update>, key: string)
    ensures |Parts(us, key)| == |AlbumIds(us, key)|
    decreases |us|
  {
    if us != [] {
      PartsAndIds(us[..|us| - 1], key);
    }
  }

  /** Messages of other albums, or of none. */
  lemma OthersMade(us: seq<Update>, u: Update, ms: seq<InboundMessage>, at: nat)
    requires AllMade(us, ms)
    requires forall i :: 0 <= i < |ms| && i != at && AlbumKey(ms[i]).Some? ==> !InAlbum(u, AlbumKey(ms[i]).value)
    ensures forall i :: 0 <= i < |ms| && i != at ==> Made(us + [u], ms[i])
  {
    forall i | 0 <= i < |ms| && i != at ensures Made(us + [u], ms[i]) {
      MadePush(us, u, ms[i]);
    }
  }

  lemma StepMade(us: seq<Update>, u: Update, d: Delivery)
    requires d.Valid() && Indexed(d) && Begun(us, d) && AllMade(us, d.messages)
    requires u.message.Some? ==> u.message.value.albumMessageIds == []
    ensures AllMade(us + [u], (if u.message.Some? then Deliver(d, u.message.value) else d).messages)
  {
    var ms := d.messages;
    if u.message.Some? {
      var key := AlbumKey(u.message.value);
      if key.Some? && key.value in d.albums {
        MadeMerge(us, u, ms[d.albums[key.value]]);
        OthersMade(us, u, ms, d.albums[key.value]);
      } else {
        if key.Some? { PartsAndIds(us, key.value); }
        MadeFirst(us, u);
        OthersMade(us, u, ms, |ms|);
      }
    } else {
      OthersMade(us, u, ms, |ms|);
    }
  }

  /** In a batch of messages not yet merged, every delivered album is composed of its parts: caption, photo count and
      message ids are theirs, and everything else is the first part's; a message outside albums is delivered as it
      is. */
  lemma {:induction false} BatchMade(us: seq<Update>)
    requires ProperBatch(us)
    requires forall i :: 0 <= i < |us| && us[i].message.Some? ==> us[i].message.value.albumMessageIds == []
    ensures AllMade(us, DeliverAll(us).messages)
    decreases |us|
  {
    if us != [] {
      var front, u := us[..|us| - 1], us[|us| - 1];
      assert us == front + [u];
      BatchMade(front);
      BatchExactlyOnce(front);
      StepMade(front, u, DeliverAll(front));
    }
  }

  // ---------------------------------------------------------------- who is together

  /** Parts of one media group of one chat and topic. */
  predicate Siblings(m: InboundMessage, n: InboundMessage) {
    && m.groupId.Some? && Trim(m.groupId.value) != [] && m.groupId == n.groupId
    && m.threadId == n.threadId && m.topic == n.topic
  }

  lemma {:induction false} AlbumHas(us: seq<Update>, i: nat, key: string)
    requires i < |us| && InAlbum(us[i], key)
    ensures IdOf(us[i]) in AlbumIds(us, key)
    decreases |us|
  {
    var n := |us| - 1;
    if i < n {
      AlbumHas(us[..n], i, key);
    }
  }

  /** Siblings in one batch are delivered in one message. */
  lemma SiblingsTogether(us: seq<Update>, i: nat, j: nat) returns (k: nat)
    requires ProperBatch(us) && i < |us| && j < |us| && us[i].message.Some? && us[j].message.Some?
    requires Siblings(us[i].message.value, us[j].message.value)
    ensures var ms := DeliverAll(us).messages;
            k < |ms| && IdOf(us[i]) in Members(ms[k]) && IdOf(us[j]) in Members(ms[k])
  {
    TrimBlank(us[i].message.value.groupId.value);
    var key := AlbumKey(us[i].message.value).value;
    BatchExactlyOnce(us);
    AlbumHas(us, i, key);
    AlbumHas(us, j, key);
    k := DeliverAll(us).albums[key];
  }

  lemma {:induction false} PartAt(us: seq<Update>, i: nat)
    requires ProperBatch(us) && i < |us|
    ensures Part(us, us[i].id.value) == us[i].message
    decreases |us|
  {
    var n := |us| - 1;
    if i < n {
      PartAt(us[..n], i);
    }
  }

  /** Only siblings are: two updates delivered in one message belong to one media group of one chat and topic. */
  lemma TogetherSiblings(us: seq<Update>, i: nat, j: nat, k: nat)
    requires ProperBatch(us) && i < j < |us| && us[i].message.Some? && us[j].message.Some?
    requires k < |DeliverAll(us).messages|
    requires IdOf(us[i]) in Members(DeliverAll(us).messages[k]) && IdOf(us[j]) in Members(DeliverAll(us).messages[k])
    requires var m, n := us[i].message.value, us[j].message.value;
             ':' !in m.threadId && ':' !in m.topic && ':' !in n.threadId && ':' !in n.topic
    ensures Siblings(us[i].message.value, us[j].message.value)
  {
    var m := DeliverAll(us).messages[k];
    BatchExactlyOnce(us);
    assert Sums(us, m);
    MemberKey(us, i, m);
    MemberKey(us, j, m);
    TwoMembers(Members(m), IdOf(us[i]), IdOf(us[j]));
    AlbumKeyExact(us[i].message.value, us[j].message.value);
    TrimBlank(us[i].message.value.groupId.value);
  }

  lemma MemberKey(us: seq<Update>, i: nat, m: InboundMessage)
    requires ProperBatch(us) && i < |us| && us[i].message.Some? && Sums(us, m) && IdOf(us[i]) in Members(m)
    ensures AlbumKey(us[i].message.value) == AlbumKey(m)
  {
    PartAt(us, i);
  }

  lemma TwoMembers(s: seq<int>, x: int, y: int)
    requires x in s && y in s && x != y
    ensures |s| > 1
  {
    var i :| 0 <= i < |s| && s[i] == x;
    var j :| 0 <= j < |s| && s[j] == y;
    assert i != j;
  }

  // ---------------------------------------------------------------- the watermark

  /** For any updates, ordered or not: the mark is the greatest of the old mark and the ids. */
  lemma {:induction false} WatermarkIsMax(last: int, us: seq<Update>)
    ensures var w := Watermark(last, us);
            && w >= last && (forall u :: u in us ==> w >= IdOf(u))
            && (w == last || exists u :: u in us && IdOf(u) == w)
    decreases |us|
  {
    if us != [] {
      var front, u := us[..|us| - 1], us[|us| - 1];
      assert us == front + [u];
      WatermarkIsMax(last, front);
      assert u in us;
    }
  }
}
