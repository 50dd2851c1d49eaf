/** Receiving Telegram updates: the update-id watermark, and the merging of album parts. */
module TelegramReceive {
  import opened Text

  /** The five metadata arrays an album part contributes to its album. */
  datatype ArrayKey = MediaTypes | FileIds | FileUniqueIds | CachedPaths | CachedMimeTypes

  type Arrays = map<ArrayKey, seq<string>>

  datatype InboundMessage = InboundMessage(
    threadId: string,
    messageId: string,
    text: string,
    updateId: Option<int>,
    groupId: Option<string>,
    topic: string,
    arrays: Arrays,
    photoCount: Option<nat>,
    albumMessageIds: seq<string>,
    albumUpdateIds: seq<int>)

  /** One element of a getUpdates response; the message is already rendered to its inbound form. */
  datatype Update = Update(id: Option<int>, message: Option<InboundMessage>)

  datatype Response = Failure | Batch(updates: seq<Update>)

  datatype ReceiveResult = Received(messages: seq<InboundMessage>) | ChannelError

  // ---------------------------------------------------------------- albums

  /** Chat, topic and media group, in one string; messages outside a media group have none. */
  function AlbumKey(m: InboundMessage): Option<string> {
    if m.groupId.Some? && !Blank(m.groupId.value)
    then Some(m.threadId + ":" + m.topic + ":" + m.groupId.value)
    else None
  }

  function PushNew<T(==)>(s: seq<T>, x: T): seq<T> {
    if x in s then s else s + [x]
  }

  function PushText(s: seq<string>, x: string): seq<string> {
    if Blank(x) then s else PushNew(s, x)
  }

  function PushId(s: seq<int>, id: Option<int>): seq<int> {
    if id.Some? then PushNew(s, id.value) else s
  }

  function ArrayOf(arrays: Arrays, k: ArrayKey): seq<string> {
    if k in arrays then arrays[k] else []
  }

  /** An array absent from the next part leaves the album's as it is. */
  function Extend(arrays: Arrays, more: Arrays, k: ArrayKey): Arrays {
    if k in more then arrays[k := ArrayOf(arrays, k) + more[k]] else arrays
  }

  function ExtendAll(arrays: Arrays, more: Arrays): Arrays {
    Extend(Extend(Extend(Extend(Extend(arrays, more, MediaTypes), more, FileIds), more, FileUniqueIds),
                  more, CachedPaths), more, CachedMimeTypes)
  }

  /** `merge_telegram_album_message`. */
  function MergeAlbum(album: InboundMessage, next: InboundMessage): InboundMessage {
    album.(text := if Blank(album.text) && !Blank(next.text) then next.text else album.text,
           albumMessageIds := PushText(PushText(album.albumMessageIds, album.messageId), next.messageId),
           albumUpdateIds := PushId(PushId(album.albumUpdateIds, album.updateId), next.updateId),
           arrays := ExtendAll(album.arrays, next.arrays),
           photoCount := if next.photoCount.Some?
                         then Some((if album.photoCount.Some? then album.photoCount.value else 0) +
                             next.photoCount.value)
                         else album.photoCount)
  }

  // ---------------------------------------------------------------- one batch

  /** Messages delivered so far, and where each album started. */
  datatype Delivery = Delivery(messages: seq<InboundMessage>, albums: map<string, nat>) {
    predicate Valid() {
      forall k :: k in albums ==> albums[k] < |messages|
    }
  }

  function Deliver(d: Delivery, m: InboundMessage): (r: Delivery)
    requires d.Valid()
    ensures r.Valid()
  {
    match AlbumKey(m)
    case None => d.(messages := d.messages + [m])
    case Some(key) =>
      if key in d.albums then
        d.(messages := d.messages[d.albums[key] := MergeAlbum(d.messages[d.albums[key]], m)])
      else
        Delivery(d.messages + [m], d.albums[key := |d.messages|])
  }

  function DeliverAll(us: seq<Update>): (r: Delivery)
    ensures r.Valid()
  {
    if us == [] then Delivery([], map[])
    else
      var d, u := DeliverAll(us[..|us| - 1]), us[|us| - 1];
      if u.message.Some? then Deliver(d, u.message.value) else d
  }

  function IdOf(u: Update): int {
    if u.id.Some? then u.id.value else 0
  }

  function Watermark(last: int, us: seq<Update>): int {
    if us == [] then last
    else
      var w, id := Watermark(last, us[..|us| - 1]), IdOf(us[|us| - 1]);
      if w < id then id else w
  }

  /** The adapter's receive side: the next poll asks for updates from `lastUpdateId + 1` on. */
  class Receiver {
    var lastUpdateId: int

    constructor ()
      ensures lastUpdateId == 0
    {
      lastUpdateId := 0;
    }

    method Receive(response: Response) returns (r: ReceiveResult)
      modifies this
      ensures response.Failure? ==> r == ChannelError && lastUpdateId == old(lastUpdateId)
      ensures response.Batch? ==>
                && r == Received(DeliverAll(response.updates).messages)
                && lastUpdateId == Watermark(old(lastUpdateId), response.updates)
    {
      if response.Failure? {
        return ChannelError;
      }
      var updates := response.updates;
      var messages: seq<InboundMessage>, albumIndexes: map<string, nat> := [], map[];
      for i := 0 to |updates|
        invariant Delivery(messages, albumIndexes) == DeliverAll(updates[..i])
        invariant lastUpdateId == Watermark(old(lastUpdateId), updates[..i])
      {
        assert updates[..i + 1][..i] == updates[..i];
        var update := updates[i];
        var id := if update.id.Some? then update.id.value else 0;
        if lastUpdateId < id {
          lastUpdateId := id;
        }
        if update.message.Some? {
          var inbound := update.message.value;
          var key := AlbumKey(inbound);
          if key.Some? {
            if key.value in albumIndexes {
              var index := albumIndexes[key.value];
              messages := messages[index := MergeAlbum(messages[index], inbound)];
            } else {
              albumIndexes := albumIndexes[key.value := |messages|];
              messages := messages + [inbound];
            }
          } else {
            messages := messages + [inbound];
          }
        }
      }
      assert updates[..|updates|] == updates;
      r := Received(messages);
    }
  }
}
