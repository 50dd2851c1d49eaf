/** What the poller decides about each message, told by the messages before it. */
module EmailLaws {
  import opened Text
  import opened Email
  import opened EmailTheory

  /** Message `p` was parsed and new, and its UID is remembered. */
  predicate Remembered(ms: seq<Fetched>, limit: nat, p: nat)
    requires p < |ms|
  {
    (KindAt(ms, limit, p).Skipped? || KindAt(ms, limit, p).Enqueued?) && Trim(ms[p].uid) != ""
  }

  /** How many UIDs were remembered from message `a` up to message `b`. */
  function RememberedIn(ms: seq<Fetched>, limit: nat, a: nat, b: nat): nat
    requires a <= b <= |ms|
    decreases b - a
  {
    if a == b then 0 else (if Remembered(ms, limit, a) then 1 else 0) + RememberedIn(ms, limit, a + 1, b)
  }

  lemma MarksNext(ms: seq<Fetched>, limit: nat, a: nat)
    requires a < |ms|
    ensures Marks(ms[..a + 1], limit) ==
            Marks(ms[..a], limit) + if Remembered(ms, limit, a) then [Trim(ms[a].uid)] else []
  {
    assert ms[..a + 1][..a] == ms[..a];
  }

  lemma {:induction false} MarksBetween(ms: seq<Fetched>, limit: nat, a: nat, b: nat)
    requires a <= b <= |ms|
    ensures |Marks(ms[..b], limit)| == |Marks(ms[..a], limit)| + RememberedIn(ms, limit, a, b)
    decreases b - a
  {
    if a < b {
      MarksNext(ms, limit, a);
      MarksBetween(ms, limit, a + 1, b);
    }
  }

  /** Every mark was left by a message. */
  lemma {:induction false} MarkOrigin(ms: seq<Fetched>, limit: nat, b: nat, p: nat) returns (a: nat)
    requires b <= |ms| && p < |Marks(ms[..b], limit)|
    ensures a < b && Remembered(ms, limit, a) && |Marks(ms[..a], limit)| == p
    ensures Trim(ms[a].uid) == Marks(ms[..b], limit)[p]
    decreases b
  {
    assert ms[..0] == [] && b > 0;
    var m := b - 1;
    MarksNext(ms, limit, m);
    if p < |Marks(ms[..m], limit)| {
      a := MarkOrigin(ms, limit, m, p);
    } else {
      a := m;
    }
  }

  /** An earlier message of this UID is remembered, and fewer than `limit` UIDs were remembered since. */
  ghost predicate StillRemembered(ms: seq<Fetched>, limit: nat, i: nat, a: nat)
    requires i < |ms|
  {
    && a < i && Trim(ms[a].uid) == Trim(ms[i].uid) && Remembered(ms, limit, a)
    && RememberedIn(ms, limit, a + 1, i) < limit
  }

  lemma RecentIff(marks: seq<string>, limit: nat, uid: string)
    ensures uid in Recent(marks, limit) <==> exists p :: 0 <= p < |marks| && |marks| - p <= limit && marks[p] == uid
  {
    var recent := Recent(marks, limit);
    if uid in recent {
      var k :| 0 <= k < |recent| && recent[k] == uid;
      assert marks[|marks| - |recent| + k] == uid;
    }
    if p :| 0 <= p < |marks| && |marks| - p <= limit && marks[p] == uid {
      RecentHas(marks, limit, p);
    }
  }

  /** A message is a duplicate exactly when its UID is not empty and still remembered; any other is broken, skipped or
      enqueued as it parses. */
  lemma KindExactly(ms: seq<Fetched>, limit: nat, i: nat)
    requires i < |ms|
    ensures var k := KindAt(ms, limit, i);
            && (k.Duplicate? <==> Trim(ms[i].uid) != "" && exists a :: StillRemembered(ms, limit, i, a))
            && (!k.Duplicate? ==>
                  match ms[i].parsed
                  case ParseError => k.Broken?
                  case Ignored => k.Skipped?
                  case Message(_) => k.Enqueued?)
  {
    var marks, uid := Marks(ms[..i], limit), Trim(ms[i].uid);
    RecentIff(marks, limit, uid);
    if uid != "" && uid in Recent(marks, limit) {
      var p :| 0 <= p < |marks| && |marks| - p <= limit && marks[p] == uid;
      var a := MarkOrigin(ms, limit, i, p);
      MarksBetween(ms, limit, a, i);
      assert StillRemembered(ms, limit, i, a);
    }
    if a :| StillRemembered(ms, limit, i, a) {
      MarkPlace(ms, limit, a, i);
      MarksBetween(ms, limit, a, i);
    }
  }

  /** The enqueued messages from `i` on, with their UIDs and message ids. */
  function Enqueues(ms: seq<Fetched>, limit: nat, i: nat): seq<Delivery>
    requires i <= |ms|
    decreases |ms| - i
  {
    if i == |ms| then []
    else
      (if KindAt(ms, limit, i).Enqueued? then [Delivery(ms[i].uid, ms[i].parsed.id)] else []) +
          Enqueues(ms, limit, i + 1)
  }

  lemma DeliveriesNext(ms: seq<Fetched>, limit: nat, i: nat)
    requires i < |ms|
    ensures Deliveries(ms[..i + 1], limit) ==
            Deliveries(ms[..i], limit) +
            if KindAt(ms, limit, i).Enqueued? then [Delivery(ms[i].uid, ms[i].parsed.id)] else []
  {
    assert ms[..i + 1][..i] == ms[..i];
  }

  lemma {:induction false} DeliveriesFrom(ms: seq<Fetched>, limit: nat, i: nat)
    requires i <= |ms|
    ensures Deliveries(ms, limit) == Deliveries(ms[..i], limit) + Enqueues(ms, limit, i)
    decreases |ms| - i
  {
    if i == |ms| {
      assert ms[..i] == ms;
    } else {
      DeliveriesFrom(ms, limit, i + 1);
      DeliveriesNext(ms, limit, i);
      var d := if KindAt(ms, limit, i).Enqueued? then [Delivery(ms[i].uid, ms[i].parsed.id)] else [];
      Reassociate(Deliveries(ms[..i], limit), d, Enqueues(ms, limit, i + 1));
    }
  }

  /** The ledger holds exactly the enqueued messages, in order, each with its own UID and message id. */
  lemma LedgerExactly(ms: seq<Fetched>, limit: nat)
    ensures Deliveries(ms, limit) == Enqueues(ms, limit, 0)
  {
    DeliveriesFrom(ms, limit, 0);
    assert ms[..0] == [];
  }
}
