/** Every message update is delivered exactly once, alone or in exactly one album. */
module TelegramTheory {
  import opened Text
  import opened TelegramReceive

  // ---------------------------------------------------------------- one batch

  /** The ids of the updates a delivered message stands for. */
  function Members(m: InboundMessage): seq<int> {
    if m.albumUpdateIds != [] then m.albumUpdateIds else if m.updateId.Some? then [m.updateId.value] else []
  }

  /** What the Bot API sends: every update has its id, and a message not yet merged. */
  predicate Proper(u: Update) {
    && u.id.Some?
    && (u.message.Some? ==> u.message.value.updateId == u.id && u.message.value.albumUpdateIds == [])
  }

  ghost predicate ProperBatch(us: seq<Update>) {
    && (forall i :: 0 <= i < |us| ==> Proper(us[i]))
    && (forall i, j :: 0 <= i < j < |us| ==> us[i].id != us[j].id)
  }

  /** The message of the update with this id. */
  function Part(us: seq<Update>, id: int): Option<InboundMessage> {
    if us == [] then None
    else
      var u := us[|us| - 1];
      if u.id == Some(id) then u.message else Part(us[..|us| - 1], id)
  }

  /** The arrays of these updates, concatenated in order. */
  function Gather(us: seq<Update>, ids: seq<int>, k: ArrayKey): seq<string> {
    if ids == [] then []
    else
      var n := |ids| - 1;
      Gather(us, ids[..n], k) + match Part(us, ids[n]) case Some(m) => ArrayOf(m.arrays, k) case None => []
  }

  /** The message is the faithful sum of its members: their arrays in order, all of one album. */
  ghost predicate Sums(us: seq<Update>, m: InboundMessage) {
    && m.updateId.Some? && (m.albumUpdateIds == [] || m.updateId.value in m.albumUpdateIds)
    && (forall id :: id in Members(m) ==> Part(us, id).Some? && AlbumKey(Part(us, id).value) == AlbumKey(m))
    && (forall k :: ArrayOf(m.arrays, k) == Gather(us, Members(m), k))
    && (|Members(m)| > 1 ==> AlbumKey(m).Some?)
  }

  /** Albums are indexed by their key, so no two messages of a batch share one. */
  ghost predicate Indexed(d: Delivery) {
    && (forall key :: key in d.albums ==>
        d.albums[key] < |d.messages| && AlbumKey(d.messages[d.albums[key]]) == Some(key))
    && (forall i :: 0 <= i < |d.messages| && AlbumKey(d.messages[i]).Some? ==>
          AlbumKey(d.messages[i]).value in d.albums && d.albums[AlbumKey(d.messages[i]).value] == i)
  }

  function FlatIds(ms: seq<InboundMessage>): seq<int> {
    if ms == [] then [] else Members(ms[0]) + FlatIds(ms[1..])
  }

  function MessageIds(us: seq<Update>): seq<int> {
    if us == [] then []
    else MessageIds(us[..|us| - 1]) + if us[|us| - 1].message.Some? then [IdOf(us[|us| - 1])] else []
  }

  /** The ids of the message updates of one album, in arrival order. */
  function AlbumIds(us: seq<Update>, key: string): seq<int> {
    if us == [] then []
    else
      var n := |us| - 1;
      AlbumIds(us[..n], key) + if InAlbum(us[n], key) then [IdOf(us[n])] else []
  }

  predicate InAlbum(u: Update, key: string) {
    u.message.Some? && AlbumKey(u.message.value) == Some(key)
  }

  /** The ids of the updates that begin a delivered message, in arrival order: the message updates outside albums and
      the first one of every album. */
  function Heads(us: seq<Update>): seq<int> {
    if us == [] then []
    else
      var n := |us| - 1;
      Heads(us[..n]) + if Begins(us[..n], us[n]) then [IdOf(us[n])] else []
  }

  predicate Begins(us: seq<Update>, u: Update) {
    && u.message.Some?
    && (AlbumKey(u.message.value).Some? ==> AlbumIds(us, AlbumKey(u.message.value).value) == [])
  }

  /** Each message stands for a whole album in arrival order, or for one update. */
  ghost predicate Whole(us: seq<Update>, m: InboundMessage) {
    match AlbumKey(m)
    case None => |Members(m)| == 1
    case Some(key) => Members(m) == AlbumIds(us, key)
  }

  ghost predicate AllWhole(us: seq<Update>, ms: seq<InboundMessage>) {
    forall i :: 0 <= i < |ms| ==> Whole(us, ms[i])
  }

  /** The messages come in the order of their first updates. */
  ghost predicate HeadsFirst(us: seq<Update>, ms: seq<InboundMessage>) {
    |ms| == |Heads(us)| && forall i :: 0 <= i < |ms| ==> Members(ms[i]) != [] && Members(ms[i])[0] == Heads(us)[i]
  }

  /** The albums begun so far. */
  ghost predicate Begun(us: seq<Update>, d: Delivery) {
    forall key :: AlbumIds(us, key) != [] ==> key in d.albums
  }

  lemma {:induction false} FlatAt(ms: seq<InboundMessage>, i: nat)
    requires i < |ms|
    ensures FlatIds(ms) == FlatIds(ms[..i]) + Members(ms[i]) + FlatIds(ms[i + 1..])
    decreases i
  {
    if i > 0 {
      var h, front, tail := Members(ms[0]), FlatIds(ms[1..][..i - 1]), FlatIds(ms[1..][i..]);
      FlatAt(ms[1..], i - 1);
      assert ms[1..][..i - 1] == ms[..i][1..] && ms[1..][i..] == ms[i + 1..];
      Reassociate(h, front + Members(ms[i]), tail);
      Reassociate(h, front, Members(ms[i]));
    }
  }

  lemma {:induction false} FlatPush(ms: seq<InboundMessage>, m: InboundMessage)
    ensures FlatIds(ms + [m]) == FlatIds(ms) + Members(m)
  {
    if ms == [] {
      assert ms + [m] == [m];
    } else {
      assert (ms + [m])[1..] == ms[1..] + [m];
      FlatPush(ms[1..], m);
    }
  }

  lemma FlatMerge(ms: seq<InboundMessage>, i: nat, m: InboundMessage, id: int)
    requires i < |ms| && Members(m) == Members(ms[i]) + [id]
    ensures multiset(FlatIds(ms[i := m])) == multiset(FlatIds(ms)) + multiset{id}
  {
    FlatAt(ms, i);
    FlatAt(ms[i := m], i);
    assert ms[i := m][..i] == ms[..i] && ms[i := m][i + 1..] == ms[i + 1..];
  }

  lemma ExtendGathers(arrays: Arrays, more: Arrays, j: ArrayKey, k: ArrayKey)
    ensures ArrayOf(Extend(arrays, more, j), k) == if j == k then ArrayOf(arrays, k) + ArrayOf(more, k)
        else ArrayOf(arrays, k)
  {
  }

  lemma ExtendAllGathers(arrays: Arrays, more: Arrays, k: ArrayKey)
    ensures ArrayOf(ExtendAll(arrays, more), k) == ArrayOf(arrays, k) + ArrayOf(more, k)
  {
    var a := Extend(arrays, more, MediaTypes);
    var b := Extend(a, more, FileIds);
    var c := Extend(b, more, FileUniqueIds);
    var d := Extend(c, more, CachedPaths);
    ExtendGathers(arrays, more, MediaTypes, k);
    ExtendGathers(a, more, FileIds, k);
    ExtendGathers(b, more, FileUniqueIds, k);
    ExtendGathers(c, more, CachedPaths, k);
    ExtendGathers(d, more, CachedMimeTypes, k);
  }

  lemma PartPush(us: seq<Update>, u: Update, id: int)
    ensures Part(us + [u], id) == if u.id == Some(id) then u.message else Part(us, id)
  {
    assert (us + [u])[..|us|] == us;
  }

  lemma {:induction false} GatherPush(us: seq<Update>, u: Update, ids: seq<int>, k: ArrayKey)
    requires forall i :: 0 <= i < |ids| ==> u.id != Some(ids[i])
    ensures Gather(us + [u], ids, k) == Gather(us, ids, k)
    decreases |ids|
  {
    if ids != [] {
      var n := |ids| - 1;
      GatherPush(us, u, ids[..n], k);
      PartPush(us, u, ids[n]);
    }
  }

  /** A message keeps its sum when an unrelated update arrives. */
  lemma SumsPush(us: seq<Update>, u: Update, m: InboundMessage)
    requires Sums(us, m) && u.id.Some? && Part(us, u.id.value).None?
    ensures Sums(us + [u], m)
  {
    forall id | id in Members(m) ensures Part(us + [u], id) == Part(us, id) {
      PartPush(us, u, id);
    }
    forall k ensures ArrayOf(m.arrays, k) == Gather(us + [u], Members(m), k) {
      GatherPush(us, u, Members(m), k);
    }
  }

  lemma SumsAlone(us: seq<Update>, u: Update)
    requires Proper(u) && u.message.Some?
    ensures Sums(us + [u], u.message.value)
  {
    var m, id := u.message.value, u.id.value;
    PartPush(us, u, id);
    assert Members(m) == [id] && Members(m)[..0] == [];
  }

  lemma SumsMerged(us: seq<Update>, u: Update, album: InboundMessage)
    requires Sums(us, album) && Proper(u) && u.message.Some? && Part(us, u.id.value).None?
    requires AlbumKey(album) == AlbumKey(u.message.value) && AlbumKey(album).Some?
    ensures Members(MergeAlbum(album, u.message.value)) == Members(album) + [u.id.value]
    ensures Sums(us + [u], MergeAlbum(album, u.message.value))
  {
    var next, id := u.message.value, u.id.value;
    var m := MergeAlbum(album, next);
    SumsPush(us, u, album);
    PartPush(us, u, id);
    assert Members(m) == Members(album) + [id];
    forall k ensures ArrayOf(m.arrays, k) == Gather(us + [u], Members(m), k) {
      ExtendAllGathers(album.arrays, next.arrays, k);
      assert Members(m)[..|Members(album)|] == Members(album);
    }
  }

  lemma {:induction false} PartFresh(us: seq<Update>, id: int)
    requires forall i :: 0 <= i < |us| ==> us[i].id != Some(id)
    ensures Part(us, id).None?
    decreases |us|
  {
    if us != [] {
      PartFresh(us[..|us| - 1], id);
    }
  }

  /** One batch: the ids delivered are exactly those of its message updates, each once; every delivered message
      is the sum of its members, which are all of its album in arrival order; the messages come in the order of their
      first updates; no two of them belong to the same album. */
  lemma {:induction false} BatchExactlyOnce(us: seq<Update>)
    requires ProperBatch(us)
    ensures var d := DeliverAll(us);
            && multiset(FlatIds(d.messages)) == multiset(MessageIds(us))
            && AllSum(us, d.messages)
            && AllWhole(us, d.messages) && HeadsFirst(us, d.messages)
            && Indexed(d) && Begun(us, d)
    decreases |us|
  {
    if us != [] {
      var n := |us| - 1;
      var front, u := us[..n], us[n];
      assert us == front + [u];
      BatchExactlyOnce(front);
      PartFresh(front, u.id.value);
      StepExactlyOnce(front, u, DeliverAll(front));
      StepInOrder(front, u, DeliverAll(front));
      if u.message.Some? { IndexKept(DeliverAll(front), u.message.value); }
    }
  }

  ghost predicate AllSum(us: seq<Update>, ms: seq<InboundMessage>) {
    forall i :: 0 <= i < |ms| ==> Sums(us, ms[i])
  }

  lemma AllSumPush(us: seq<Update>, u: Update, ms: seq<InboundMessage>)
    requires AllSum(us, ms) && u.id.Some? && Part(us, u.id.value).None?
    ensures AllSum(us + [u], ms)
  {
    forall i | 0 <= i < |ms| ensures Sums(us + [u], ms[i]) {
      SumsPush(us, u, ms[i]);
    }
  }

  lemma AllSumPlaced(us: seq<Update>, ms: seq<InboundMessage>, i: nat, m: InboundMessage)
    requires AllSum(us, ms) && Sums(us, m) && i <= |ms|
    ensures if i < |ms| then AllSum(us, ms[i := m]) else AllSum(us, ms + [m])
  {
  }

  lemma MergeKeepsKey(album: InboundMessage, m: InboundMessage)
    ensures AlbumKey(MergeAlbum(album, m)) == AlbumKey(album)
  {
  }

  lemma IndexMerged(d: Delivery, at: nat, merged: InboundMessage)
    requires Indexed(d) && at < |d.messages| && AlbumKey(merged) == AlbumKey(d.messages[at])
    ensures Indexed(d.(messages := d.messages[at := merged]))
  {
    var ms := d.messages[at := merged];
    assert forall i :: 0 <= i < |ms| ==> AlbumKey(ms[i]) == AlbumKey(d.messages[i]);
  }

  lemma IndexPushed(d: Delivery, m: InboundMessage)
    requires Indexed(d) && (AlbumKey(m).Some? ==> AlbumKey(m).value !in d.albums)
    ensures var more := d.messages + [m];
            Indexed(if AlbumKey(m).Some? then Delivery(more, d.albums[AlbumKey(m).value := |d.messages|])
                else d.(messages := more))
  {
    var more := d.messages + [m];
    assert forall i :: 0 <= i < |d.messages| ==> more[i] == d.messages[i];
  }

  lemma IndexKept(d: Delivery, m: InboundMessage)
    requires d.Valid() && Indexed(d)
    ensures Indexed(Deliver(d, m))
  {
    var key := AlbumKey(m);
    if key.Some? && key.value in d.albums {
      var at := d.albums[key.value];
      MergeKeepsKey(d.messages[at], m);
      IndexMerged(d, at, MergeAlbum(d.messages[at], m));
    } else {
      IndexPushed(d, m);
    }
  }

  lemma StepMerges(us: seq<Update>, u: Update, ms: seq<InboundMessage>, i: nat)
    requires AllSum(us, ms) && Proper(u) && u.message.Some? && Part(us, u.id.value).None?
    requires i < |ms| && AlbumKey(ms[i]) == AlbumKey(u.message.value) && AlbumKey(ms[i]).Some?
    ensures var more := ms[i := MergeAlbum(ms[i], u.message.value)];
            multiset(FlatIds(more)) == multiset(FlatIds(ms)) + multiset{u.id.value} && AllSum(us + [u], more)
  {
    var merged := MergeAlbum(ms[i], u.message.value);
    AllSumPush(us, u, ms);
    SumsMerged(us, u, ms[i]);
    FlatMerge(ms, i, merged, u.id.value);
    AllSumPlaced(us + [u], ms, i, merged);
  }

  lemma StepPushes(us: seq<Update>, u: Update, ms: seq<InboundMessage>)
    requires AllSum(us, ms) && Proper(u) && u.message.Some? && Part(us, u.id.value).None?
    ensures var more := ms + [u.message.value];
            multiset(FlatIds(more)) == multiset(FlatIds(ms)) + multiset{u.id.value} && AllSum(us + [u], more)
  {
    AllSumPush(us, u, ms);
    SumsAlone(us, u);
    FlatPush(ms, u.message.value);
    AllSumPlaced(us + [u], ms, |ms|, u.message.value);
  }

  lemma StepExactlyOnce(us: seq<Update>, u: Update, d: Delivery)
    requires d.Valid() && Proper(u) && Part(us, u.id.value).None? && Indexed(d) && AllSum(us, d.messages)
    ensures var r := if u.message.Some? then Deliver(d, u.message.value) else d;
            && multiset(FlatIds(r.messages)) ==
               multiset(FlatIds(d.messages)) + (if u.message.Some? then multiset{u.id.value} else multiset{})
            && AllSum(us + [u], r.messages)
  {
    if u.message.None? {
      AllSumPush(us, u, d.messages);
    } else {
      var key := AlbumKey(u.message.value);
      if key.Some? && key.value in d.albums {
        StepMerges(us, u, d.messages, d.albums[key.value]);
      } else {
        StepPushes(us, u, d.messages);
      }
    }
  }

  // ---------------------------------------------------------------- arrival order

  lemma AlbumIdsPush(us: seq<Update>, u: Update, key: string)
    ensures AlbumIds(us + [u], key) == AlbumIds(us, key) + if InAlbum(u, key) then [IdOf(u)] else []
  {
    assert (us + [u])[..|us|] == us;
  }

  lemma HeadsPush(us: seq<Update>, u: Update)
    ensures Heads(us + [u]) == Heads(us) + if Begins(us, u) then [IdOf(u)] else []
  {
    assert (us + [u])[..|us|] == us;
  }

  /** A message of another album, or of none, stays whole. */
  lemma WholePush(us: seq<Update>, u: Update, m: InboundMessage)
    requires Whole(us, m) && (AlbumKey(m).Some? ==> !InAlbum(u, AlbumKey(m).value))
    ensures Whole(us + [u], m)
  {
    if AlbumKey(m).Some? {
      AlbumIdsPush(us, u, AlbumKey(m).value);
    }
  }

  lemma BegunPush(us: seq<Update>, u: Update, d: Delivery, r: Delivery)
    requires Begun(us, d) && (forall key :: key in d.albums ==> key in r.albums)
    requires forall key :: InAlbum(u, key) ==> key in r.albums
    ensures Begun(us + [u], r)
  {
    forall key | AlbumIds(us + [u], key) != [] ensures key in r.albums {
      AlbumIdsPush(us, u, key);
    }
  }

  lemma OthersWhole(us: seq<Update>, u: Update, ms: seq<InboundMessage>)
    requires AllWhole(us, ms)
    requires forall i :: 0 <= i < |ms| && AlbumKey(ms[i]).Some? ==> !InAlbum(u, AlbumKey(ms[i]).value)
    ensures AllWhole(us + [u], ms)
  {
    forall i | 0 <= i < |ms| ensures Whole(us + [u], ms[i]) {
      WholePush(us, u, ms[i]);
    }
  }

  /** A part that joins its album joins it at the end. */
  lemma MergeInOrder(us: seq<Update>, u: Update, ms: seq<InboundMessage>, at: nat)
    requires AllSum(us, ms) && AllWhole(us, ms) && HeadsFirst(us, ms) && Proper(u) && u.message.Some?
    requires Part(us, u.id.value).None? && at < |ms| && AlbumKey(ms[at]) == AlbumKey(u.message.value)
    requires AlbumKey(ms[at]).Some?
    requires forall i :: 0 <= i < |ms| && AlbumKey(ms[i]) == AlbumKey(ms[at]) ==> i == at
    ensures var more := ms[at := MergeAlbum(ms[at], u.message.value)];
            AllWhole(us + [u], more) && HeadsFirst(us + [u], more)
  {
    var key, merged := AlbumKey(ms[at]).value, MergeAlbum(ms[at], u.message.value);
    var more := ms[at := merged];
    SumsMerged(us, u, ms[at]);
    AlbumIdsPush(us, u, key);
    HeadsPush(us, u);
    assert Whole(us, ms[at]) && AlbumIds(us, key) != [];
    forall i | 0 <= i < |more| ensures Whole(us + [u], more[i]) {
      if i != at { WholePush(us, u, ms[i]); }
    }
  }

  /** A message that begins comes last, alone. */
  lemma PushInOrder(us: seq<Update>, u: Update, ms: seq<InboundMessage>)
    requires AllWhole(us, ms) && HeadsFirst(us, ms) && Proper(u) && u.message.Some? && Begins(us, u)
    requires forall i :: 0 <= i < |ms| && AlbumKey(ms[i]).Some? ==> !InAlbum(u, AlbumKey(ms[i]).value)
    ensures var more := ms + [u.message.value]; AllWhole(us + [u], more) && HeadsFirst(us + [u], more)
  {
    var m := u.message.value;
    OthersWhole(us, u, ms);
    HeadsPush(us, u);
    assert Members(m) == [IdOf(u)];
    if AlbumKey(m).Some? {
      AlbumIdsPush(us, u, AlbumKey(m).value);
    }
  }

  lemma StepInOrder(us: seq<Update>, u: Update, d: Delivery)
    requires d.Valid() && Proper(u) && Part(us, u.id.value).None? && Indexed(d) && AllSum(us, d.messages)
    requires AllWhole(us, d.messages) && HeadsFirst(us, d.messages) && Begun(us, d)
    ensures var r := if u.message.Some? then Deliver(d, u.message.value) else d;
            AllWhole(us + [u], r.messages) && HeadsFirst(us + [u], r.messages) && Begun(us + [u], r)
  {
    var r := if u.message.Some? then Deliver(d, u.message.value) else d;
    BegunPush(us, u, d, r);
    if u.message.None? {
      OthersWhole(us, u, d.messages);
      HeadsPush(us, u);
    } else {
      var key := AlbumKey(u.message.value);
      if key.Some? && key.value in d.albums {
        MergeInOrder(us, u, d.messages, d.albums[key.value]);
      } else {
        PushInOrder(us, u, d.messages);
      }
    }
  }

  // ---------------------------------------------------------------- album keys

  /** A separator that does not occur before it determines both sides. */
  lemma SplitAtFirst(a: string, b: string, x: string, y: string, c: char)
    requires c !in a && c !in b && a + [c] + x == b + [c] + y
    ensures a == b && x == y
  {
    var s := a + [c] + x;
    assert s[|a|] == c && s[|b|] == c;
    assert forall i :: 0 <= i < |a| ==> s[i] == a[i];
    assert forall i :: 0 <= i < |b| ==> s[i] == b[i];
    assert |a| == |b|;
    assert a == s[..|a|] && b == s[..|a|];
    assert x == s[|a| + 1..] && y == s[|a| + 1..];
  }

  lemma KeyParts(a: string, b: string, c: string)
    ensures a + ":" + b + ":" + c == a + [':'] + (b + [':'] + c)
  {
  }

  /** Chat and topic are numbers, so the key of a media group identifies the chat, the topic and the group. */
  lemma AlbumKeyExact(m: InboundMessage, n: InboundMessage)
    requires AlbumKey(m).Some? && AlbumKey(n).Some?
    requires ':' !in m.threadId && ':' !in m.topic && ':' !in n.threadId && ':' !in n.topic
    ensures AlbumKey(m) == AlbumKey(n) <==> m.threadId == n.threadId && m.topic == n.topic && m.groupId == n.groupId
  {
    var x, y := m.topic + [':'] + m.groupId.value, n.topic + [':'] + n.groupId.value;
    KeyParts(m.threadId, m.topic, m.groupId.value);
    KeyParts(n.threadId, n.topic, n.groupId.value);
    if AlbumKey(m) == AlbumKey(n) {
      SplitAtFirst(m.threadId, n.threadId, x, y, ':');
      SplitAtFirst(m.topic, n.topic, m.groupId.value, n.groupId.value, ':');
    }
  }
}
