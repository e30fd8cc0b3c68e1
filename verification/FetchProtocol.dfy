/**
 The fetch protocol of the gateway (`launch`, `await_fetch`, `refetch`, `land` and `fetch_loop` in
 `gateway_state.rs`): any number of HTTP workers and one fetcher share a map of flights under a lock,
 a bounded queue and a condition variable. One step of the model is one action that others can
 observe; runs interleave steps in any order. Clocks are free: whether a failure is recent and whether
 a wait has run out is chosen by the step.
 */
module FetchProtocol {
  import opened Bytes
  import opened PortalHost

  datatype Key = Key(suffix: Suffix, root: seq<byte>)

  datatype Flight = Queued | Landed | Failed(reason: seq<byte>)

  datatype Reply = NoReply | Served | Unfetched | Pending | QueueFull | Launched | VanishedRecord

  /** Where an HTTP worker is. `waits` tells `await_fetch` from `refetch`. */
  datatype Worker =
    | Idle(reply: Reply)
    | Wants(key: Key, waits: bool)      // before the lock
    | Launching(key: Key, waits: bool)  // in `launch`, holding the lock
    | Sent(key: Key, waits: bool)       // the key is in the queue, its flight not yet recorded
    | Checking(key: Key)                // at the head of the wait loop, holding the lock
    | Sleeping(key: Key)                // in the condition variable, lock released
    | Woken(key: Key)                   // out of the condition variable, before the lock

  datatype Fetcher =
    | Receiving
    | Fetching(key: Key)
    | Landing(key: Key, flight: Flight)    // before the lock
    | Inserting(key: Key, flight: Flight)  // holding the lock
    | Notifying                            // lock released, waiters not yet notified

  datatype Holder = ByWorker(i: nat) | ByFetcher

  datatype State = State(capacity: nat, queue: seq<Key>, flights: map<Key, Flight>,
                         lock: Option<Holder>, workers: seq<Worker>, fetcher: Fetcher)

  datatype Step =
    | Start(i: nat, key: Key, waits: bool)
    | Lock(i: nat)
    | Launch(i: nat, recent: bool)
    | Record(i: nat)
    | Check(i: nat, expired: bool)
    | Wake(i: nat)
    | Relock(i: nat)
    | Receive
    | Fetch(flight: Flight)
    | LandLock
    | LandInsert
    | Notify
  {
    predicate ByFetcher() {
      Receive? || Fetch? || LandLock? || LandInsert? || Notify?
    }
  }

  predicate HoldsLock(w: Worker) {
    w.Launching? || w.Sent? || w.Checking?
  }

  function Init(capacity: nat, workers: nat): State {
    State(capacity, [], map[], None, seq(workers, _ => Idle(NoReply)), Receiving)
  }

  predicate Enabled(s: State, step: Step) {
    match step
    case Start(i, _, _) => i < |s.workers| && s.workers[i].Idle?
    case Lock(i) => i < |s.workers| && s.workers[i].Wants? && s.lock == None
    case Launch(i, _) => i < |s.workers| && s.workers[i].Launching?
    case Record(i) => i < |s.workers| && s.workers[i].Sent?
    case Check(i, _) => i < |s.workers| && s.workers[i].Checking?
    case Wake(i) => i < |s.workers| && s.workers[i].Sleeping?
    case Relock(i) => i < |s.workers| && s.workers[i].Woken? && s.lock == None
    case Receive => s.fetcher.Receiving? && s.queue != []
    case Fetch(flight) => s.fetcher.Fetching? && !flight.Queued?
    case LandLock => s.fetcher.Landing? && s.lock == None
    case LandInsert => s.fetcher.Inserting?
    case Notify => s.fetcher.Notifying?
  }

  function At(s: State, i: nat, w: Worker): State
    requires i < |s.workers|
  {
    s.(workers := s.workers[i := w])
  }

  /** The worker leaves with a reply and releases the lock. */
  function Leave(s: State, i: nat, reply: Reply): State
    requires i < |s.workers|
  {
    At(s, i, Idle(reply)).(lock := None)
  }

  /** `launch` came back with the flight queued: wait for it, or be done. */
  function Launched(s: State, i: nat, key: Key, waits: bool): State
    requires i < |s.workers|
  {
    if waits then At(s, i, Checking(key)) else Leave(s, i, Reply.Launched)
  }

  function TrySend(s: State, i: nat, key: Key, waits: bool): State
    requires i < |s.workers|
  {
    if |s.queue| < s.capacity then At(s.(queue := s.queue + [key]), i, Sent(key, waits))
    else Leave(s, i, QueueFull)
  }

  function DoLaunch(s: State, i: nat, recent: bool): State
    requires i < |s.workers| && s.workers[i].Launching?
  {
    var Launching(key, waits) := s.workers[i];
    if key in s.flights && s.flights[key].Queued? then Launched(s, i, key, waits)
    else if key in s.flights && s.flights[key].Failed? && recent then Leave(s, i, Unfetched)
    else TrySend(s, i, key, waits)
  }

  function DoCheck(s: State, i: nat, expired: bool): State
    requires i < |s.workers| && s.workers[i].Checking?
  {
    var key := s.workers[i].key;
    if key !in s.flights then Leave(s, i, VanishedRecord)
    else match s.flights[key]
         case Landed => Leave(s, i, Served)
         case Failed(_) => Leave(s, i, Unfetched)
         case Queued => if expired then Leave(s, i, Pending) else At(s, i, Sleeping(key)).(lock := None)
  }

  function Awake(w: Worker): Worker {
    if w.Sleeping? then Woken(w.key) else w
  }

  function Next(s: State, step: Step): State
    requires Enabled(s, step)
  {
    match step
    case Start(i, key, waits) => At(s, i, Wants(key, waits))
    case Lock(i) => At(s, i, Launching(s.workers[i].key, s.workers[i].waits)).(lock := Some(ByWorker(i)))
    case Launch(i, recent) => DoLaunch(s, i, recent)
    case Record(i) =>
      var Sent(key, waits) := s.workers[i];
      Launched(s.(flights := s.flights[key := Queued]), i, key, waits)
    case Check(i, expired) => DoCheck(s, i, expired)
    case Wake(i) => At(s, i, Woken(s.workers[i].key))
    case Relock(i) => At(s, i, Checking(s.workers[i].key)).(lock := Some(ByWorker(i)))
    case Receive => s.(queue := s.queue[1..], fetcher := Fetching(s.queue[0]))
    case Fetch(flight) => s.(fetcher := Landing(s.fetcher.key, flight))
    case LandLock => s.(fetcher := Inserting(s.fetcher.key, s.fetcher.flight), lock := Some(ByFetcher))
    case LandInsert => s.(flights := s.flights[s.fetcher.key := s.fetcher.flight], lock := None, fetcher := Notifying)
    case Notify =>
      s.(workers := seq(|s.workers|, i requires 0 <= i < |s.workers| => Awake(s.workers[i])), fetcher := Receiving)
  }

  // ----- what every reachable state keeps

  /** The key in the fetcher's hand. */
  function Hand(f: Fetcher): seq<Key> {
    match f
    case Fetching(key) => [key]
    case Landing(key, _) => [key]
    case Inserting(key, _) => [key]
    case _ => []
  }

  /** All keys on their way: the fetcher's, then the queue. */
  function Way(s: State): seq<Key> {
    Hand(s.fetcher) + s.queue
  }

  predicate Single(ks: seq<Key>) {
    forall i, j :: 0 <= i < j < |ks| ==> ks[i] != ks[j]
  }

  predicate IsQueued(s: State, k: Key) {
    k in s.flights && s.flights[k] == Queued
  }

  /** The key that is in the queue while its flight is not yet recorded. */
  function SentKey(s: State): Option<Key> {
    match s.lock
    case Some(ByWorker(i)) =>
      if i < |s.workers| && s.workers[i].Sent? then Some(s.workers[i].key) else None
    case _ => None
  }

  ghost predicate LockIsHeld(s: State) {
    && (forall i :: 0 <= i < |s.workers| ==> (HoldsLock(s.workers[i]) <==> s.lock == Some(ByWorker(i))))
    && (s.fetcher.Inserting? <==> s.lock == Some(ByFetcher))
    && (s.lock.Some? && s.lock.value.ByWorker? ==> s.lock.value.i < |s.workers|)
  }

  /** A key is on its way exactly when it is queued, or was sent by the worker that holds the lock. */
  ghost predicate SingleFlight(s: State) {
    && Single(Way(s))
    && (forall k :: k in Way(s) <==> IsQueued(s, k) || SentKey(s) == Some(k))
    && (SentKey(s).Some? ==> !IsQueued(s, SentKey(s).value))
  }

  predicate Waits(w: Worker) {
    w.Checking? || w.Sleeping? || w.Woken?
  }

  /** Who waits, waits for a record that exists; who sleeps, sleeps while it is queued or a notification is due. */
  ghost predicate WaitersSafe(s: State) {
    forall i :: 0 <= i < |s.workers| ==>
                  && s.workers[i] != Idle(VanishedRecord)
                  && (Waits(s.workers[i]) ==> s.workers[i].key in s.flights)
                  && (s.workers[i].Sleeping? ==> IsQueued(s, s.workers[i].key) || s.fetcher.Notifying?)
  }

  ghost predicate Inv(s: State) {
    && LockIsHeld(s)
    && SingleFlight(s)
    && WaitersSafe(s)
    && |s.queue| <= s.capacity
    && (s.fetcher.Landing? || s.fetcher.Inserting? ==> !s.fetcher.flight.Queued?)
  }

  lemma InitInv(capacity: nat, workers: nat)
    ensures Inv(Init(capacity, workers))
  {}

  lemma LockKept(s: State, step: Step)
    requires Inv(s) && Enabled(s, step)
    ensures LockIsHeld(Next(s, step))
  {
    hide SingleFlight;
    hide WaitersSafe;
    hide Way;
    hide IsQueued;
  }

  lemma WaitersKept(s: State, step: Step)
    requires Inv(s) && Enabled(s, step)
    ensures WaitersSafe(Next(s, step))
  {
    hide SingleFlight;
    hide LockIsHeld;
    hide Way;
  }

  /** The steps that move no key and record no flight. */
  lemma FlightsKept(s: State, t: State)
    requires SingleFlight(s)
    requires t.flights == s.flights && Way(t) == Way(s) && SentKey(t) == SentKey(s)
    ensures SingleFlight(t)
  {
    hide Way;
    hide SentKey;
    hide Single;
    forall k ensures IsQueued(t, k) <==> IsQueued(s, k) {}
  }

  lemma SendKept(s: State, i: nat, key: Key, waits: bool)
    requires Inv(s) && i < |s.workers| && s.workers[i].Launching?
    requires s.workers[i].key == key && !IsQueued(s, key) && |s.queue| < s.capacity
    ensures SingleFlight(TrySend(s, i, key, waits))
  {
    hide WaitersSafe;
    var t := TrySend(s, i, key, waits);
    assert Way(t) == Way(s) + [key];
    assert SentKey(s) == None && SentKey(t) == Some(key);
    assert key !in Way(s);
  }

  lemma RecordKept(s: State, i: nat)
    requires Inv(s) && i < |s.workers| && s.workers[i].Sent?
    ensures SingleFlight(Next(s, Record(i)))
  {
    hide WaitersSafe;
    var t := Next(s, Record(i));
    assert Way(t) == Way(s);
    assert SentKey(s) == Some(s.workers[i].key) && SentKey(t) == None;
  }

  lemma HeadLeaves(key: Key, rest: seq<Key>)
    requires Single([key] + rest)
    ensures Single(rest) && key !in rest
    ensures forall k :: k in [key] + rest <==> k == key || k in rest
  {
    var all := [key] + rest;
    assert all[0] == key;
    forall j | 0 <= j < |rest| ensures rest[j] != key {
      assert rest[j] == all[j + 1];
    }
    forall i, j | 0 <= i < j < |rest| ensures rest[i] != rest[j] {
      assert rest[i] == all[i + 1] && rest[j] == all[j + 1];
    }
  }

  lemma InsertKept(s: State)
    requires Inv(s) && s.fetcher.Inserting?
    ensures SingleFlight(Next(s, LandInsert))
  {
    hide WaitersSafe;
    var t := Next(s, LandInsert);
    var key := s.fetcher.key;
    assert SentKey(s) == None && SentKey(t) == None;
    assert Way(s) == [key] + Way(t);
    HeadLeaves(key, Way(t));
  }

  lemma SingleKept(s: State, step: Step)
    requires Inv(s) && Enabled(s, step)
    ensures SingleFlight(Next(s, step))
  {
    hide WaitersSafe;
    hide SingleFlight;
    var t := Next(s, step);
    if step.Launch? && t.queue != s.queue {
      SendKept(s, step.i, s.workers[step.i].key, s.workers[step.i].waits);
    } else if step.Record? {
      RecordKept(s, step.i);
    } else if step.LandInsert? {
      InsertKept(s);
    } else {
      WayKept(s, step);
      FlightsKept(s, t);
    }
  }

  lemma WayKept(s: State, step: Step)
    requires LockIsHeld(s) && Enabled(s, step)
    requires !step.Record? && !step.LandInsert? && (step.Launch? ==> Next(s, step).queue == s.queue)
    ensures Way(Next(s, step)) == Way(s)
    ensures SentKey(Next(s, step)) == SentKey(s)
  {
    if step.Receive? {
      assert Way(Next(s, step)) == Way(s);
    }
  }

  lemma InvKept(s: State, step: Step)
    requires Inv(s) && Enabled(s, step)
    ensures Inv(Next(s, step))
  {
    hide LockIsHeld;
    hide SingleFlight;
    hide WaitersSafe;
    LockKept(s, step);
    WaitersKept(s, step);
    SingleKept(s, step);
  }

  // ----- all runs

  /** `steps` is a run from `s`: each step is enabled where it is taken. */
  predicate IsRun(s: State, steps: seq<Step>)
    decreases |steps|
  {
    steps == [] || (Enabled(s, steps[0]) && IsRun(Next(s, steps[0]), steps[1..]))
  }

  function End(s: State, steps: seq<Step>): State
    requires IsRun(s, steps)
    decreases |steps|
  {
    if steps == [] then s else End(Next(s, steps[0]), steps[1..])
  }

  lemma {:induction false} RunKeeps(s: State, steps: seq<Step>)
    requires Inv(s) && IsRun(s, steps)
    ensures Inv(End(s, steps))
    decreases |steps|
  {
    hide Inv;
    hide Enabled;
    hide Next;
    if steps != [] {
      InvKept(s, steps[0]);
      RunKeeps(Next(s, steps[0]), steps[1..]);
    }
  }

  /**
   Single flight, over every run with any number of workers and any queue: no key is on its way twice;
   while the lock is free a key is recorded as queued exactly when it is on its way; no record ever
   vanishes from under a waiter; and a sleeping waiter whose flight has landed is about to be notified.
   */
  lemma SingleFlightOverRuns(capacity: nat, workers: nat, steps: seq<Step>)
    requires IsRun(Init(capacity, workers), steps)
    ensures var s := End(Init(capacity, workers), steps);
            && |s.queue| <= capacity
            && Single(Way(s))
            && (s.lock == None ==> forall k :: IsQueued(s, k) <==> k in Way(s))
            && (forall i :: 0 <= i < |s.workers| ==> s.workers[i] != Idle(VanishedRecord))
            && (forall i :: 0 <= i < |s.workers| && s.workers[i].Sleeping? ==>
                              s.workers[i].key in s.flights && (IsQueued(s, s.workers[i].key) || s.fetcher.Notifying?))
  {
    hide Way;
    hide Single;
    hide Next;
    hide Enabled;
    InitInv(capacity, workers);
    RunKeeps(Init(capacity, workers), steps);
    CapacityKept(Init(capacity, workers), steps);
  }

  lemma {:induction false} CapacityKept(s: State, steps: seq<Step>)
    requires IsRun(s, steps)
    ensures End(s, steps).capacity == s.capacity
    decreases |steps|
  {
    hide Enabled;
    if steps != [] {
      CapacityKept(Next(s, steps[0]), steps[1..]);
    }
  }

  /** A flight, once recorded, stays recorded. */
  lemma {:induction false} RecordsStay(s: State, steps: seq<Step>)
    requires IsRun(s, steps)
    ensures s.flights.Keys <= End(s, steps).flights.Keys
    decreases |steps|
  {
    hide Enabled;
    if steps != [] {
      RecordsStay(Next(s, steps[0]), steps[1..]);
    }
  }

  // ----- progress

  function FetcherRank(f: Fetcher): nat {
    match f
    case Receiving => 0
    case Notifying => 1
    case Inserting(_, _) => 2
    case Landing(_, _) => 3
    case Fetching(_) => 4
  }

  function Index(ks: seq<Key>, k: Key): (i: nat)
    ensures i <= |ks|
    ensures i < |ks| <==> k in ks
    ensures i < |ks| ==> ks[i] == k
    ensures forall j :: 0 <= j < i ==> ks[j] != k
  {
    if ks == [] || ks[0] == k then 0 else 1 + Index(ks[1..], k)
  }

  /** How many fetcher steps are left until the flight of `k` lands. */
  function StepsLeft(s: State, k: Key): nat {
    if Hand(s.fetcher) == [k] then FetcherRank(s.fetcher)
    else 5 * (Index(s.queue, k) + 1) + FetcherRank(s.fetcher)
  }

  lemma IndexAppend(ks: seq<Key>, k: Key, other: Key)
    requires k in ks
    ensures Index(ks + [other], k) == Index(ks, k)
  {
    var i, j := Index(ks, k), Index(ks + [other], k);
    assert (ks + [other])[i] == k;
    assert forall m :: 0 <= m < |ks| ==> (ks + [other])[m] == ks[m];
  }

  /** Workers cannot delay a key that is on its way: only its place in the queue counts. */
  lemma WorkersDoNotDelay(s: State, step: Step, k: Key)
    requires Enabled(s, step) && !step.ByFetcher()
    requires k in Way(s)
    ensures k in Way(Next(s, step)) && StepsLeft(Next(s, step), k) == StepsLeft(s, k)
  {
    hide Index;
    var t := Next(s, step);
    assert t.fetcher == s.fetcher;
    if t.queue != s.queue {
      var other := t.queue[|s.queue|];
      assert t.queue == s.queue + [other];
      if k in s.queue {
        IndexAppend(s.queue, k, other);
      }
    }
  }

  /** Every fetcher step brings every key that is on its way nearer, and lands it when none are left. */
  lemma FetcherAdvances(s: State, step: Step, k: Key)
    requires Inv(s) && Enabled(s, step) && step.ByFetcher()
    requires k in Way(s)
    ensures var t := Next(s, step);
            if k in Way(t) then StepsLeft(t, k) < StepsLeft(s, k)
            else StepsLeft(s, k) == 2 && k in t.flights && !IsQueued(t, k)
  {
    hide LockIsHeld;
    hide WaitersSafe;
    var t := Next(s, step);
    match step
    case Receive =>
      if s.queue[0] != k {
        assert Index(s.queue, k) == 1 + Index(s.queue[1..], k);
      }
    case Fetch(_) =>
    case LandLock =>
    case LandInsert =>
      HeadLeaves(s.fetcher.key, s.queue);
    case Notify =>
  }

  function FetcherSteps(steps: seq<Step>): nat {
    if steps == [] then 0 else (if steps[0].ByFetcher() then 1 else 0) + FetcherSteps(steps[1..])
  }

  /** In any run that gives the fetcher `StepsLeft` steps, the flight of `k` lands on the way. */
  lemma {:induction false} LandsWithin(s: State, steps: seq<Step>, k: Key) returns (n: nat)
    requires Inv(s) && IsRun(s, steps) && k in Way(s)
    requires FetcherSteps(steps) >= StepsLeft(s, k)
    ensures n <= |steps| && IsRun(s, steps[..n])
    ensures var t := End(s, steps[..n]); k in t.flights && !IsQueued(t, k) && k !in Way(t)
    decreases |steps|
  {
    hide Inv;
    hide Enabled;
    hide Next;
    hide Way;
    hide IsQueued;
    hide StepsLeft;
    AtLeastTwo(s, k);
    var t := Next(s, steps[0]);
    InvKept(s, steps[0]);
    if steps[0].ByFetcher() {
      FetcherAdvances(s, steps[0], k);
    } else {
      WorkersDoNotDelay(s, steps[0], k);
    }
    if k in Way(t) {
      var m := LandsWithin(t, steps[1..], k);
      n := m + 1;
      assert steps[..n][1..] == steps[1..][..m];
    } else {
      n := 1;
      assert steps[..1][1..] == [];
    }
  }

  lemma AtLeastTwo(s: State, k: Key)
    requires k in Way(s)
    ensures StepsLeft(s, k) >= 2
  {}

  /** The fetcher can always take a step for a key on its way, unless a worker holds the lock. */
  lemma FetcherIsReady(s: State, k: Key)
    requires Inv(s) && k in Way(s)
    requires s.lock == None || s.lock == Some(ByFetcher) || !s.fetcher.Landing?
    ensures exists step: Step :: step.ByFetcher() && Enabled(s, step)
  {
    hide SingleFlight;
    hide WaitersSafe;
    match s.fetcher
    case Receiving => assert Receive.ByFetcher() && Enabled(s, Receive);
    case Fetching(_) => assert Fetch(Landed).ByFetcher() && Enabled(s, Fetch(Landed));
    case Landing(_, _) => assert LandLock.ByFetcher() && Enabled(s, LandLock);
    case Inserting(_, _) => assert LandInsert.ByFetcher() && Enabled(s, LandInsert);
    case Notifying => assert Notify.ByFetcher() && Enabled(s, Notify);
  }

  function LockRank(w: Worker): nat {
    match w
    case Launching(_, _) => 3
    case Sent(_, _) => 2
    case Checking(_) => 1
    case _ => 0
  }

  /** A worker that holds the lock can go on, and gives it up within three of its own steps. */
  lemma LockIsReleased(s: State, i: nat, early: bool)
    requires Inv(s) && s.lock == Some(ByWorker(i))
    ensures i < |s.workers|
    ensures var w := s.workers[i];
            var step := if w.Launching? then Launch(i, early) else if w.Sent? then Record(i) else Check(i, early);
            && Enabled(s, step)
            && (Next(s, step).lock == None || LockRank(Next(s, step).workers[i]) < LockRank(w) <= 3)
  {
    hide SingleFlight;
    hide WaitersSafe;
  }
}
