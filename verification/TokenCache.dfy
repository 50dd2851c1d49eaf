/** The token cache shared by an adapter and its clones: double-checked locking over a readers-writer
    lock, as a state machine in which any number of callers interleave step by step while a monotone
    clock advances. A call may also be dropped at any point, releasing what it holds. */
module TokenCache {
  import opened Text

  /** Tokens are refreshed this many seconds before they expire. */
  const REFRESH_BUFFER := 300.0

  datatype Entry = Entry(token: string, expires: real)

  /** Where a call stands. From `Reading` to `ReadMiss` it holds a read guard; from `Writing` to `Stored` the write
      guard. */
  datatype Pc =
    | Idle
    | WantRead
    | Reading
    | ReadHit(token: string)
    | ReadMiss
    | WantWrite
    | Writing
    | WriteHit(token: string)
    | Fetching(decidedAt: real)
    | Fetched(token: string, ttl: real, decidedAt: real)
    | FetchFailed
    | Stored(token: string)
  {
    predicate HoldsRead() {
      Reading? || ReadHit? || ReadMiss?
    }

    predicate HoldsWrite() {
      Writing? || WriteHit? || Fetching? || Fetched? || FetchFailed? || Stored?
    }

    /** A token request has been decided and its outcome is not yet in the cache. */
    predicate InFlight() {
      Fetching? || Fetched?
    }
  }

  datatype Event =
    | Serve(caller: nat, token: string, at: real, expires: real)
    | Decide(caller: nat, at: real)
    | Store(caller: nat, token: string, decidedAt: real, at: real, ttl: real)
    | Return(caller: nat, at: real, result: Option<string>)

  datatype State = State(now: real, cache: Option<Entry>, readers: set<nat>, writer: Option<nat>, calls: map<nat, Pc>,
                         log: seq<Event>) {
    function At(c: nat): Pc {
      if c in calls then calls[c] else Idle
    }

    function Go(c: nat, pc: Pc): State {
      this.(calls := calls[c := pc])
    }

    /** The entry, if it has more than the buffer left. */
    function FreshToken(): Option<Entry> {
      if cache.Some? && now + REFRESH_BUFFER < cache.value.expires then cache else None
    }
  }

  const Start := State(0.0, None, {}, None, map[], [])

  datatype Step =
    | Tick(elapsed: real)
    | Call(c: nat)
    | AcquireRead(c: nat)
    | CheckRead(c: nat)
    | ReleaseRead(c: nat)
    | AcquireWrite(c: nat)
    | CheckWrite(c: nat)
    | FetchOk(c: nat, token: string, ttl: real)
    | FetchErr(c: nat)
    | StoreToken(c: nat)
    | ReleaseWrite(c: nat)
    | Cancel(c: nat)

  predicate Enabled(s: State, step: Step) {
    match step
    case Tick(elapsed) => elapsed >= 0.0
    case Call(c) => s.At(c).Idle?
    case AcquireRead(c) => s.At(c).WantRead? && s.writer.None?
    case CheckRead(c) => s.At(c).Reading?
    case ReleaseRead(c) => s.At(c).ReadHit? || s.At(c).ReadMiss?
    case AcquireWrite(c) => s.At(c).WantWrite? && s.writer.None? && s.readers == {}
    case CheckWrite(c) => s.At(c).Writing?
    case FetchOk(c, _, ttl) => s.At(c).Fetching? && ttl >= 0.0
    case FetchErr(c) => s.At(c).Fetching?
    case StoreToken(c) => s.At(c).Fetched?
    case ReleaseWrite(c) => s.At(c).WriteHit? || s.At(c).FetchFailed? || s.At(c).Stored?
    case Cancel(c) => !s.At(c).Idle?
  }

  function Apply(s: State, step: Step): State
    requires Enabled(s, step)
  {
    match step
    case Tick(elapsed) => s.(now := s.now + elapsed)
    case Call(c) => s.Go(c, WantRead)
    case AcquireRead(c) => s.Go(c, Reading).(readers := s.readers + {c})
    case CheckRead(c) =>
      (match s.FreshToken()
       case Some(e) => s.Go(c, ReadHit(e.token)).(log := s.log + [Serve(c, e.token, s.now, e.expires)])
       case None => s.Go(c, ReadMiss))
    case ReleaseRead(c) =>
      if s.At(c).ReadHit? then
        s.Go(c, Idle).(readers := s.readers - {c}, log := s.log + [Return(c, s.now, Some(s.At(c).token))])
      else
        s.Go(c, WantWrite).(readers := s.readers - {c})
    case AcquireWrite(c) => s.Go(c, Writing).(writer := Some(c))
    case CheckWrite(c) =>
      (match s.FreshToken()
       case Some(e) => s.Go(c, WriteHit(e.token)).(log := s.log + [Serve(c, e.token, s.now, e.expires)])
       case None => s.Go(c, Fetching(s.now)).(log := s.log + [Decide(c, s.now)]))
    case FetchOk(c, token, ttl) => s.Go(c, Fetched(token, ttl, s.At(c).decidedAt))
    case FetchErr(c) => s.Go(c, FetchFailed)
    case StoreToken(c) =>
      var pc := s.At(c);
      s.Go(c, Stored(pc.token)).(cache := Some(Entry(pc.token, s.now + pc.ttl)),
                                 log := s.log + [Store(c, pc.token, pc.decidedAt, s.now, pc.ttl)])
    case ReleaseWrite(c) =>
      var result := if s.At(c).FetchFailed? then None else Some(s.At(c).token);
      s.Go(c, Idle).(writer := None, log := s.log + [Return(c, s.now, result)])
    case Cancel(c) =>
      s.Go(c, Idle).(readers := s.readers - {c}, writer := if s.writer == Some(c) then None else s.writer)
  }

  /** A run: steps taken one after another from the start, each enabled when taken. */
  ghost predicate IsRun(steps: seq<Step>, states: seq<State>) {
    && |states| == |steps| + 1
    && states[0] == Start
    && forall i :: 0 <= i < |steps| ==> Enabled(states[i], steps[i]) && states[i + 1] == Apply(states[i], steps[i])
  }

  // ---------------------------------------------------------------- the invariant

  /** The lock: guards are held exactly by the calls inside a guarded section, and a writer is alone. */
  ghost predicate LockHeld(s: State) {
    && (forall c: nat :: c in s.readers <==> s.At(c).HoldsRead())
    && (forall c: nat :: s.writer == Some(c) <==> s.At(c).HoldsWrite())
    && (s.writer.Some? ==> s.readers == {})
  }

  function Expiry(e: Event): real
    requires e.Store?
  {
    e.at + e.ttl
  }

  function LastStore(log: seq<Event>): Option<Entry> {
    if log == [] then None
    else
      var e := log[|log| - 1];
      if e.Store? then Some(Entry(e.token, Expiry(e))) else LastStore(log[..|log| - 1])
  }

  /** No token stored so far has more than the buffer left at this time. */
  ghost predicate AllStale(log: seq<Event>, at: real) {
    forall i :: 0 <= i < |log| && log[i].Store? ==> Expiry(log[i]) <= at + REFRESH_BUFFER
  }

  /** The cache is the last store and outlives the others, unless they are stale; a call in flight was decided
      when everything stored was stale. */
  ghost predicate CacheLogged(s: State) {
    && s.cache == LastStore(s.log)
    && (forall i :: 0 <= i < |s.log| ==> s.log[i].at <= s.now)
    && (forall i :: 0 <= i < |s.log| && s.log[i].Store? ==>
          (s.cache.Some? && Expiry(s.log[i]) <= s.cache.value.expires) || Expiry(s.log[i]) <= s.now + REFRESH_BUFFER)
    && (forall c: nat :: s.At(c).InFlight() ==> s.At(c).decidedAt <= s.now && AllStale(s.log, s.At(c).decidedAt))
  }

  ghost predicate Chronological(log: seq<Event>) {
    forall i, j :: 0 <= i < j < |log| ==> log[i].at <= log[j].at
  }

  /** The fetch behind event `e` was decided when the token of `store` was stale. */
  ghost predicate Justified(store: Event, e: Event) {
    && (store.Store? && e.Decide? ==> Expiry(store) <= e.at + REFRESH_BUFFER)
    && (store.Store? && e.Store? ==> Expiry(store) <= e.decidedAt + REFRESH_BUFFER && e.decidedAt <= e.at)
  }

  ghost predicate FetchesJustified(log: seq<Event>) {
    forall i, j :: 0 <= i < j < |log| ==> Justified(log[i], log[j])
  }

  /** A served token is the one stored last and has more than the buffer left. */
  ghost predicate HonestServe(log: seq<Event>, e: Event) {
    e.Serve? ==> e.at + REFRESH_BUFFER < e.expires && LastStore(log) == Some(Entry(e.token, e.expires))
  }

  ghost predicate ServesHonest(log: seq<Event>) {
    forall j :: 0 <= j < |log| ==> HonestServe(log[..j], log[j])
  }

  /** What the log shows so far. */
  ghost predicate LogHonest(log: seq<Event>) {
    Chronological(log) && FetchesJustified(log) && ServesHonest(log)
  }

  ghost predicate Inv(s: State) {
    LockHeld(s) && CacheLogged(s) && LogHonest(s.log)
  }

  lemma LockKept(s: State, step: Step)
    requires LockHeld(s) && Enabled(s, step)
    ensures LockHeld(Apply(s, step))
  {
    var t := Apply(s, step);
    if !step.Tick? {
      assert forall c: nat :: c != step.c ==> t.At(c) == s.At(c);
    }
  }

  /** Only the holder of the write guard touches the cache or has a request in flight. */
  lemma WriterAlone(s: State, c: nat)
    requires LockHeld(s) && s.At(c).HoldsWrite()
    ensures forall d: nat :: s.At(d).HoldsWrite() ==> d == c
  {
    forall d: nat | s.At(d).HoldsWrite() ensures d == c {
      assert s.writer == Some(c) && s.writer == Some(d);
    }
  }

  lemma LastStorePush(log: seq<Event>, e: Event)
    ensures LastStore(log + [e]) == if e.Store? then Some(Entry(e.token, Expiry(e))) else LastStore(log)
  {
    assert (log + [e])[..|log|] == log;
  }

  lemma AllStalePush(log: seq<Event>, e: Event, at: real)
    requires AllStale(log, at) && (e.Store? ==> Expiry(e) <= at + REFRESH_BUFFER)
    ensures AllStale(log + [e], at)
  {
  }

  /** A step that leaves cache and log alone only lets time pass. */
  lemma QuietStep(s: State, t: State)
    requires CacheLogged(s) && t.cache == s.cache && t.log == s.log && t.now >= s.now
    requires forall c: nat :: t.At(c).InFlight() ==> s.At(c).InFlight() && t.At(c).decidedAt == s.At(c).decidedAt
    ensures CacheLogged(t)
  {
  }

  /** A check notes the token served, or decides to fetch when everything stored is stale. */
  lemma CheckStep(s: State, t: State, c: nat, e: Event)
    requires CacheLogged(s) && !e.Store? && e.at == s.now
    requires t.cache == s.cache && t.log == s.log + [e] && t.now == s.now
    requires forall d: nat :: d != c ==> t.At(d) == s.At(d)
    requires t.At(c).InFlight() ==> t.At(c).decidedAt == s.now && AllStale(s.log, s.now)
    ensures CacheLogged(t)
  {
    LastStorePush(s.log, e);
    forall d: nat | t.At(d).InFlight() ensures t.At(d).decidedAt <= t.now && AllStale(t.log, t.At(d).decidedAt) {
      AllStalePush(s.log, e, t.At(d).decidedAt);
    }
  }

  lemma StoreStep(s: State, t: State, c: nat, e: Event)
    requires CacheLogged(s) && e.Store? && e.at == s.now && AllStale(s.log, s.now)
    requires t.cache == Some(Entry(e.token, Expiry(e))) && t.log == s.log + [e] && t.now == s.now
    requires forall d: nat :: !t.At(d).InFlight()
    ensures CacheLogged(t)
  {
    LastStorePush(s.log, e);
  }

  lemma MissIsStale(s: State)
    requires CacheLogged(s) && s.FreshToken().None?
    ensures AllStale(s.log, s.now)
  {
  }

  lemma CacheKept(s: State, step: Step)
    requires LockHeld(s) && CacheLogged(s) && Enabled(s, step)
    ensures CacheLogged(Apply(s, step))
  {
    var t := Apply(s, step);
    if step.StoreToken? {
      assert s.At(step.c).InFlight();
      WriterAlone(s, step.c);
      assert forall d: nat :: d != step.c ==> t.At(d) == s.At(d);
      StoreStep(s, t, step.c, t.log[|s.log|]);
    } else if !step.Tick? && t.log != s.log {
      if s.FreshToken().None? { MissIsStale(s); }
      CheckStep(s, t, step.c, t.log[|s.log|]);
    } else {
      QuietStep(s, t);
    }
  }

  ghost predicate After(log: seq<Event>, at: real) {
    forall i :: 0 <= i < |log| ==> log[i].at <= at
  }

  lemma PushServe(log: seq<Event>, e: Event)
    requires ServesHonest(log) && HonestServe(log, e)
    ensures ServesHonest(log + [e])
  {
    var more := log + [e];
    forall j | 0 <= j < |more| ensures HonestServe(more[..j], more[j]) {
      assert more[..j] == if j == |log| then log else log[..j];
    }
  }

  lemma PushEvent(log: seq<Event>, e: Event)
    requires LogHonest(log) && After(log, e.at) && HonestServe(log, e)
    requires e.Decide? ==> AllStale(log, e.at)
    requires e.Store? ==> AllStale(log, e.decidedAt) && e.decidedAt <= e.at
    ensures LogHonest(log + [e])
  {
    PushServe(log, e);
  }

  lemma LogKept(s: State, step: Step)
    requires LockHeld(s) && CacheLogged(s) && LogHonest(s.log) && Enabled(s, step)
    ensures LogHonest(Apply(s, step).log)
  {
    var t := Apply(s, step);
    if step.StoreToken? {
      assert s.At(step.c).InFlight();
      PushEvent(s.log, t.log[|s.log|]);
    } else if t.log != s.log {
      if s.FreshToken().None? { MissIsStale(s); }
      PushEvent(s.log, t.log[|s.log|]);
    }
  }

  lemma {:induction false} InvAlways(steps: seq<Step>, states: seq<State>, i: nat)
    requires IsRun(steps, states) && i < |states|
    ensures Inv(states[i])
  {
    if i > 0 {
      InvAlways(steps, states, i - 1);
      var s, step := states[i - 1], steps[i - 1];
      LockKept(s, step);
      CacheKept(s, step);
      LogKept(s, step);
    }
  }

  // ---------------------------------------------------------------- what holds over every run

  /** At most one token request is in flight. */
  lemma OneFetchAtATime(steps: seq<Step>, states: seq<State>, i: nat, c: nat, d: nat)
    requires IsRun(steps, states) && i < |states| && states[i].At(c).InFlight() && states[i].At(d).InFlight()
    ensures c == d
  {
    InvAlways(steps, states, i);
    WriterAlone(states[i], c);
  }

  /** Every request, successful or not, is decided no earlier than the buffer before the expiry of every token
      stored before it. */
  lemma NoEarlyFetch(steps: seq<Step>, states: seq<State>, i: nat, a: nat, b: nat)
    requires IsRun(steps, states) && i < |states|
    requires a < b < |states[i].log| && states[i].log[a].Store? && states[i].log[b].Decide?
    ensures states[i].log[b].at >= states[i].log[a].at + states[i].log[a].ttl - REFRESH_BUFFER
  {
    InvAlways(steps, states, i);
  }

  /** A token served from the cache was stored by the last store before it, and had more than the buffer left. */
  lemma ServedFresh(steps: seq<Step>, states: seq<State>, i: nat, b: nat)
    requires IsRun(steps, states) && i < |states| && b < |states[i].log| && states[i].log[b].Serve?
    ensures var e := states[i].log[b];
            && e.at + REFRESH_BUFFER < e.expires
            && exists a :: 0 <= a < b && LatestStore(states[i].log, a, b)
                 && states[i].log[a].token == e.token && Expiry(states[i].log[a]) == e.expires
  {
    InvAlways(steps, states, i);
    var a := LastStoreAt(states[i].log, b);
  }

  /** Entry `a` of the log is the last store before entry `b`. */
  ghost predicate LatestStore(log: seq<Event>, a: nat, b: nat) {
    a < b <= |log| && log[a].Store? && forall k :: a < k < b ==> !log[k].Store?
  }

  lemma {:induction false} LastStoreAt(log: seq<Event>, b: nat) returns (a: nat)
    requires b <= |log| && LastStore(log[..b]).Some?
    ensures LatestStore(log, a, b) && LastStore(log[..b]) == Some(Entry(log[a].token, Expiry(log[a])))
  {
    assert log[..b][..b - 1] == log[..b - 1];
    if log[b - 1].Store? {
      a := b - 1;
    } else {
      a := LastStoreAt(log, b - 1);
    }
  }

  /** The positions of the stores in the log. */
  function Stores(log: seq<Event>): seq<nat> {
    if log == [] then []
    else Stores(log[..|log| - 1]) + if log[|log| - 1].Store? then [|log| - 1] else []
  }

  lemma {:induction false} StoresIncrease(log: seq<Event>)
    ensures forall k :: 0 <= k < |Stores(log)| ==> Stores(log)[k] < |log| && log[Stores(log)[k]].Store?
    ensures forall k, l :: 0 <= k < l < |Stores(log)| ==> Stores(log)[k] < Stores(log)[l]
    decreases |log|
  {
    if log != [] {
      StoresIncrease(log[..|log| - 1]);
    }
  }

  /** When each successful fetch stored its token. */
  function StoreTimes(log: seq<Event>): (ts: seq<real>)
    ensures |ts| == |Stores(log)|
    ensures forall k :: 0 <= k < |ts| && Stores(log)[k] < |log| ==> ts[k] == log[Stores(log)[k]].at
  {
    seq(|Stores(log)|, k requires 0 <= k < |Stores(log)| =>
      if Stores(log)[k] < |log| then log[Stores(log)[k]].at else 0.0)
  }

  /** Every token stored so far lives at least `gap` before it enters the refresh buffer. */
  ghost predicate Lasting(log: seq<Event>, gap: real) {
    forall a :: 0 <= a < |log| && log[a].Store? ==> log[a].ttl >= gap + REFRESH_BUFFER
  }

  lemma NextStore(log: seq<Event>, gap: real, k: nat)
    requires LogHonest(log) && k + 1 < |StoreTimes(log)| && Lasting(log, gap)
    ensures StoreTimes(log)[k + 1] >= StoreTimes(log)[k] + gap
  {
    StoresIncrease(log);
    var p, q := Stores(log)[k], Stores(log)[k + 1];
    assert Justified(log[p], log[q]);
  }

  ghost predicate Gaps(ts: seq<real>, gap: real) {
    forall a, b :: 0 <= a < |ts| && b == a + 1 < |ts| ==> ts[b] >= ts[a] + gap
  }

  lemma StoreGaps(log: seq<Event>, gap: real)
    requires LogHonest(log) && Lasting(log, gap)
    ensures Gaps(StoreTimes(log), gap)
  {
    forall a, b | 0 <= a < |StoreTimes(log)| && b == a + 1 < |StoreTimes(log)|
      ensures StoreTimes(log)[b] >= StoreTimes(log)[a] + gap
    {
      NextStore(log, gap, a);
    }
  }

  lemma {:induction false} Apart(ts: seq<real>, gap: real, k: nat, n: nat)
    requires k + n < |ts| && Gaps(ts, gap)
    ensures ts[k + n] >= ts[k] + n as real * gap
    decreases n
  {
    if n > 0 {
      Apart(ts, gap, k, n - 1);
      assert ts[k + n] >= ts[k + n - 1] + gap;
      Distribute(n, gap);
    }
  }

  lemma Distribute(n: nat, gap: real)
    requires n > 0
    ensures n as real * gap == (n - 1) as real * gap + gap
  {
    assert (n - 1) as real == n as real - 1.0;
  }

  /** If every token lives at least `gap` before its refresh buffer, then n further successful fetches take at
      least n times the gap: callers cannot stampede the token endpoint. */
  lemma FetchRate(steps: seq<Step>, states: seq<State>, i: nat, gap: real, k: nat, n: nat)
    requires IsRun(steps, states) && i < |states| && k + n < |StoreTimes(states[i].log)|
    requires Lasting(states[i].log, gap)
    ensures StoreTimes(states[i].log)[k + n] >= StoreTimes(states[i].log)[k] + n as real * gap
  {
    InvAlways(steps, states, i);
    StoreGaps(states[i].log, gap);
    Apart(StoreTimes(states[i].log), gap, k, n);
  }

  // ---------------------------------------------------------------- what callers get

  /** The last event of a caller. */
  function LastOf(log: seq<Event>, c: nat): Option<Event> {
    if log == [] then None
    else
      var e := log[|log| - 1];
      if e.caller == c then Some(e) else LastOf(log[..|log| - 1], c)
  }

  lemma LastOfPush(log: seq<Event>, e: Event, c: nat)
    ensures LastOf(log + [e], c) == if e.caller == c then Some(e) else LastOf(log, c)
  {
    assert (log + [e])[..|log|] == log;
  }

  /** The event that gives a caller this result: a token served or stored, or a request that was decided and failed. */
  predicate Gives(e: Event, result: Option<string>) {
    match result
    case Some(token) => (e.Serve? && e.token == token) || (e.Store? && e.token == token)
    case None => e.Decide?
  }

  /** Where a call stands fits the last event of its caller. */
  ghost predicate Traced(s: State, c: nat) {
    match s.At(c)
    case ReadHit(token) => LastOf(s.log, c).Some? && Gives(LastOf(s.log, c).value, Some(token))
    case WriteHit(token) => LastOf(s.log, c).Some? && Gives(LastOf(s.log, c).value, Some(token))
    case Stored(token) => LastOf(s.log, c).Some? && Gives(LastOf(s.log, c).value, Some(token))
    case Fetching(_) => LastOf(s.log, c).Some? && Gives(LastOf(s.log, c).value, None)
    case Fetched(_, _, _) => LastOf(s.log, c).Some? && Gives(LastOf(s.log, c).value, None)
    case FetchFailed => LastOf(s.log, c).Some? && Gives(LastOf(s.log, c).value, None)
    case _ => true
  }

  /** Every result is the one its caller's last event gives. */
  ghost predicate ReturnsHonest(log: seq<Event>) {
    forall j :: 0 <= j < |log| ==> HonestReturn(log[..j], log[j])
  }

  ghost predicate HonestReturn(log: seq<Event>, e: Event) {
    e.Return? ==> LastOf(log, e.caller).Some? && Gives(LastOf(log, e.caller).value, e.result)
  }

  lemma PushReturn(log: seq<Event>, e: Event)
    requires ReturnsHonest(log) && HonestReturn(log, e)
    ensures ReturnsHonest(log + [e])
  {
    var more := log + [e];
    forall j | 0 <= j < |more| ensures HonestReturn(more[..j], more[j]) {
      assert more[..j] == if j == |log| then log else log[..j];
    }
  }

  /** A step that adds an event of caller `c`, or none, leaves the others as they were. */
  lemma OthersTraced(s: State, t: State, c: nat, d: nat)
    requires Traced(s, d) && c != d && t.At(d) == s.At(d)
    requires t.log == s.log || (|t.log| == |s.log| + 1 && t.log == s.log + [t.log[|s.log|]]
        && t.log[|s.log|].caller == c)
    ensures Traced(t, d)
  {
    if t.log != s.log {
      LastOfPush(s.log, t.log[|s.log|], d);
    }
  }

  lemma OwnTraced(s: State, step: Step)
    requires Enabled(s, step) && !step.Tick? && Traced(s, step.c)
    ensures Traced(Apply(s, step), step.c)
    ensures var t := Apply(s, step);
            t.log == s.log || (|t.log| == |s.log| + 1 && t.log == s.log + [t.log[|s.log|]]
                               && t.log[|s.log|].caller == step.c && HonestReturn(s.log, t.log[|s.log|]))
  {
    var t := Apply(s, step);
    if t.log != s.log {
      LastOfPush(s.log, t.log[|s.log|], step.c);
    }
  }

  lemma {:induction false} TracedAlways(steps: seq<Step>, states: seq<State>, i: nat)
    requires IsRun(steps, states) && i < |states|
    ensures ReturnsHonest(states[i].log) && forall c: nat :: Traced(states[i], c)
  {
    if i > 0 {
      TracedAlways(steps, states, i - 1);
      TracedStep(states[i - 1], steps[i - 1]);
    }
  }

  lemma TracedStep(s: State, step: Step)
    requires Enabled(s, step) && ReturnsHonest(s.log) && forall c: nat :: Traced(s, c)
    ensures ReturnsHonest(Apply(s, step).log) && forall c: nat :: Traced(Apply(s, step), c)
  {
    var t := Apply(s, step);
    if !step.Tick? {
      OwnTraced(s, step);
      if t.log != s.log {
        PushReturn(s.log, t.log[|s.log|]);
      }
      forall d: nat ensures Traced(t, d) {
        if d != step.c {
          OthersTraced(s, t, step.c, d);
        }
      }
    } else {
      forall d: nat ensures Traced(t, d) {
        assert Traced(s, d);
      }
    }
  }

  lemma {:induction false} LastOfAt(log: seq<Event>, b: nat, c: nat) returns (a: nat)
    requires b <= |log| && LastOf(log[..b], c).Some?
    ensures a < b && log[a].caller == c && LastOf(log[..b], c) == Some(log[a])
    ensures forall k :: a < k < b ==> log[k].caller != c
  {
    assert log[..b][..b - 1] == log[..b - 1];
    if log[b - 1].caller == c {
      a := b - 1;
    } else {
      a := LastOfAt(log, b - 1, c);
    }
  }

  /** A call that returns a token returns the one it was served from the cache or stored itself, in its last event
      before;
      a call returns without a token only after a request of its own. */
  lemma ReturnedExactly(steps: seq<Step>, states: seq<State>, i: nat, b: nat) returns (a: nat)
    requires IsRun(steps, states) && i < |states| && b < |states[i].log| && states[i].log[b].Return?
    ensures var log := states[i].log;
            && a < b && log[a].caller == log[b].caller && Gives(log[a], log[b].result)
            && forall k :: a < k < b ==> log[k].caller != log[b].caller
  {
    TracedAlways(steps, states, i);
    var log := states[i].log;
    assert HonestReturn(log[..b], log[b]);
    a := LastOfAt(log, b, log[b].caller);
  }

  // ---------------------------------------------------------------- no deadlock

  /** A step of a call that holds a guard. */
  function Onward(s: State, c: nat): Step {
    match s.At(c)
    case Reading => CheckRead(c)
    case ReadHit(_) => ReleaseRead(c)
    case ReadMiss => ReleaseRead(c)
    case Writing => CheckWrite(c)
    case Fetching(_) => FetchErr(c)
    case Fetched(_, _, _) => StoreToken(c)
    case _ => ReleaseWrite(c)
  }

  /** In every reachable state in which some call is under way, a step other than waiting or dropping a call is
      enabled. */
  lemma NoDeadlock(steps: seq<Step>, states: seq<State>, i: nat, c: nat) returns (step: Step)
    requires IsRun(steps, states) && i < |states| && !states[i].At(c).Idle?
    ensures Enabled(states[i], step) && !step.Tick? && !step.Cancel?
  {
    InvAlways(steps, states, i);
    var s := states[i];
    if s.writer.Some? {
      step := Onward(s, s.writer.value);
    } else if s.At(c).WantRead? {
      step := AcquireRead(c);
    } else if s.At(c).WantWrite? {
      if d :| d in s.readers {
        step := Onward(s, d);
      } else {
        step := AcquireWrite(c);
      }
    } else {
      step := Onward(s, c);
    }
  }
}
