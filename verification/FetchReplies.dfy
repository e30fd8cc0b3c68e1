/**
 What the replies of the fetch protocol mean. The history of a run, its steps alone, says how each key
 was last landed; every reply that a worker leaves with agrees with that history, and a worker that looks
 is told what it says.
 */
module FetchReplies {
  import opened Bytes
  import opened FetchProtocol

  // ----- history

  /** What the latest fetch of a history gave. */
  function LastFetch(steps: seq<Step>): Option<Flight> {
    if steps == [] then None
    else
      var step := steps[|steps| - 1];
      if step.Fetch? then Some(step.flight) else LastFetch(steps[..|steps| - 1])
  }

  lemma {:induction false} RunUpTo(s: State, steps: seq<Step>, n: nat)
    requires IsRun(s, steps) && n < |steps|
    ensures IsRun(s, steps[..n]) && Enabled(End(s, steps[..n]), steps[n])
    ensures IsRun(s, steps[..n + 1]) && End(s, steps[..n + 1]) == Next(End(s, steps[..n]), steps[n])
    decreases |steps|
  {
    hide Enabled;
    hide Next;
    if n == 0 {
      OneStep(s, steps[0]);
      assert steps[..0] == [] && steps[..1] == [steps[0]];
    } else {
      RunUpTo(Next(s, steps[0]), steps[1..], n - 1);
      assert steps[..n][1..] == steps[1..][..n - 1];
      assert steps[..n + 1][1..] == steps[1..][..n];
    }
  }

  lemma OneStep(s: State, step: Step)
    requires Enabled(s, step)
    ensures IsRun(s, [step]) && End(s, [step]) == Next(s, step)
  {
    hide Enabled;
    hide Next;
    assert [step][1..] == [];
  }

  /** The run without its last step. */
  lemma RunInit(s: State, steps: seq<Step>)
    requires IsRun(s, steps) && steps != []
    ensures var n := |steps| - 1;
            && IsRun(s, steps[..n]) && Enabled(End(s, steps[..n]), steps[n])
            && End(s, steps) == Next(End(s, steps[..n]), steps[n])
  {
    hide Enabled;
    hide Next;
    RunUpTo(s, steps, |steps| - 1);
    assert steps[..|steps|] == steps;
  }

  /** How `key` was last landed: what the latest fetch had given when it was. */
  function LatestLanding(start: State, steps: seq<Step>, key: Key): Option<Flight>
    requires IsRun(start, steps)
    decreases |steps|
  {
    if steps == [] then None
    else
      var init, step := steps[..|steps| - 1], steps[|steps| - 1];
      RunInit(start, steps);
      if step.LandInsert? && Hand(End(start, init).fetcher) == [key] then LastFetch(init)
      else LatestLanding(start, init, key)
  }

  // ----- the records agree with the history

  ghost predicate FetchRemembered(s: State, steps: seq<Step>) {
    s.fetcher.Landing? || s.fetcher.Inserting? ==> LastFetch(steps) == Some(s.fetcher.flight)
  }

  predicate RecordAgrees(s: State, landing: Option<Flight>, key: Key) {
    && (key in s.flights && !s.flights[key].Queued? ==> landing == Some(s.flights[key]))
    && (landing.Some? ==> key in s.flights)
  }

  lemma FetchStaysRemembered(s: State, steps: seq<Step>, step: Step)
    requires Enabled(s, step) && FetchRemembered(s, steps)
    ensures FetchRemembered(Next(s, step), steps + [step])
  {
    assert (steps + [step])[..|steps|] == steps;
  }

  lemma RecordStaysAgreed(s: State, step: Step, before: Option<Flight>, fetched: Option<Flight>, key: Key)
    requires Enabled(s, step) && RecordAgrees(s, before, key)
    requires s.fetcher.Inserting? ==> fetched == Some(s.fetcher.flight)
    ensures RecordAgrees(Next(s, step), if step.LandInsert? && Hand(s.fetcher) == [key] then fetched else before, key)
  {}

  /** In every reachable state each record is queued, or says how its key was last landed. */
  lemma {:induction false} RecordsAgree(start: State, steps: seq<Step>, key: Key)
    requires start.flights == map[] && start.fetcher.Receiving? && IsRun(start, steps)
    ensures FetchRemembered(End(start, steps), steps)
    ensures RecordAgrees(End(start, steps), LatestLanding(start, steps, key), key)
    decreases |steps|
  {
    hide Enabled;
    hide Next;
    hide RecordAgrees;
    hide Hand;
    if steps == [] {
      NothingRecorded(start, key);
    } else {
      var init, step := steps[..|steps| - 1], steps[|steps| - 1];
      RunInit(start, steps);
      RecordsAgree(start, init, key);
      var s := End(start, init);
      assert init + [step] == steps;
      FetchStaysRemembered(s, init, step);
      RecordStaysAgreed(s, step, LatestLanding(start, init, key), LastFetch(init), key);
    }
  }

  lemma NothingRecorded(s: State, key: Key)
    requires s.flights == map[]
    ensures RecordAgrees(s, None, key)
  {}

  // ----- replies

  /** What a reply to a request for `key` says of the state it was given in, and of the key's history. */
  predicate True(reply: Reply, s: State, step: Step, key: Key, landing: Option<Flight>) {
    match reply
    case Served => landing == Some(Landed) && key !in Way(s)
    case Unfetched => landing.Some? && landing.value.Failed? && key !in Way(s)
    case Pending => key in Way(s) && step.Check? && step.expired
    case QueueFull => |s.queue| == s.capacity && key !in Way(s)
    case Launched => key in Way(s)
    case NoReply => false
    case VanishedRecord => false
  }

  /** Whoever checks or launches holds the lock, so that queued keys are exactly those on their way. */
  lemma QueuedIsOnItsWay(s: State, i: nat, key: Key)
    requires Inv(s) && i < |s.workers| && (s.workers[i].Launching? || s.workers[i].Checking?)
    ensures key in Way(s) <==> IsQueued(s, key)
  {
    hide WaitersSafe;
    hide Way;
    hide Single;
    hide IsQueued;
  }

  lemma SentIsOnItsWay(s: State, i: nat)
    requires Inv(s) && i < |s.workers| && s.workers[i].Sent?
    ensures s.workers[i].key in Way(s)
  {
    hide WaitersSafe;
    hide Way;
    hide Single;
    hide IsQueued;
    assert SentKey(s) == Some(s.workers[i].key);
  }

  lemma CheckedIsRecorded(s: State, i: nat)
    requires Inv(s) && i < |s.workers| && s.workers[i].Checking?
    ensures s.workers[i].key in s.flights
  {
    hide LockIsHeld;
    hide SingleFlight;
  }

  /** A check tells the history of its key, once the key is no longer on its way. */
  lemma CheckTells(s: State, i: nat, expired: bool, landing: Option<Flight>)
    requires Inv(s) && Enabled(s, Check(i, expired)) && RecordAgrees(s, landing, s.workers[i].key)
    ensures var key, w := s.workers[i].key, Next(s, Check(i, expired)).workers[i];
            && (key in Way(s) ==> w == if expired then Idle(Pending) else Sleeping(key))
            && (key !in Way(s) ==> landing.Some? && !landing.value.Queued?
                                   && w == Idle(if landing.value.Landed? then Served else Unfetched))
  {
    hide Inv;
    hide Way;
    QueuedIsOnItsWay(s, i, s.workers[i].key);
    CheckedIsRecorded(s, i);
  }

  /** A launch joins a flight on its way, refuses a recent failure, and otherwise queues the key if there is room. */
  lemma LaunchTells(s: State, i: nat, recent: bool, landing: Option<Flight>)
    requires Inv(s) && Enabled(s, Launch(i, recent)) && RecordAgrees(s, landing, s.workers[i].key)
    ensures var key, t := s.workers[i].key, Next(s, Launch(i, recent));
            if key in Way(s) then
              t.queue == s.queue && t.workers[i] == if s.workers[i].waits then Checking(key) else Idle(Launched)
            else if landing.Some? && landing.value.Failed? && recent then t.queue == s.queue && t.workers[i] == Idle(Unfetched)
            else if |s.queue| < s.capacity then t.queue == s.queue + [key] && t.workers[i] == Sent(key, s.workers[i].waits)
            else t.queue == s.queue && t.workers[i] == Idle(QueueFull)
  {
    hide Inv;
    hide Way;
    FailuresAreRecorded(s, i, landing);
    QueuedIsOnItsWay(s, i, s.workers[i].key);
  }

  lemma FailuresAreRecorded(s: State, i: nat, landing: Option<Flight>)
    requires Inv(s) && i < |s.workers| && s.workers[i].Launching? && RecordAgrees(s, landing, s.workers[i].key)
    ensures s.workers[i].key !in Way(s) && landing.Some? ==>
              s.workers[i].key in s.flights && landing == Some(s.flights[s.workers[i].key])
  {
    hide Inv;
    hide Way;
    QueuedIsOnItsWay(s, i, s.workers[i].key);
  }

  lemma QueueWithin(s: State)
    requires Inv(s)
    ensures |s.queue| <= s.capacity
  {
    hide LockIsHeld;
    hide SingleFlight;
    hide WaitersSafe;
  }

  /** The steps by which a worker can leave with a reply. */
  lemma LeavesBy(s: State, step: Step, i: nat)
    requires Enabled(s, step) && i < |s.workers| && !s.workers[i].Idle?
    ensures |Next(s, step).workers| == |s.workers|
    ensures Next(s, step).workers[i].Idle? ==>
              (step.Launch? && step.i == i) || (step.Check? && step.i == i)
              || (step.Record? && step.i == i && Next(s, step).workers[i] == Idle(Launched))
  {}

  lemma LeavingIsTrue(s: State, step: Step, i: nat, landing: Option<Flight>)
    requires Inv(s) && Enabled(s, step) && i < |s.workers| && !s.workers[i].Idle?
    requires RecordAgrees(s, landing, s.workers[i].key)
    ensures |Next(s, step).workers| == |s.workers|
    ensures Next(s, step).workers[i].Idle? ==> True(Next(s, step).workers[i].reply, s, step, s.workers[i].key, landing)
  {
    hide Inv;
    hide Way;
    hide Next;
    hide RecordAgrees;
    LeavesBy(s, step, i);
    QueueWithin(s);
    if Next(s, step).workers[i].Idle? {
      match step {
        case Launch(_, recent) => LaunchTells(s, i, recent, landing);
        case Check(_, expired) => CheckTells(s, i, expired, landing);
        case Record(_) => SentIsOnItsWay(s, i);
        case _ =>
      }
    }
  }

  lemma Reached(capacity: nat, workers: nat, steps: seq<Step>, key: Key)
    requires IsRun(Init(capacity, workers), steps)
    ensures Inv(End(Init(capacity, workers), steps))
    ensures RecordAgrees(End(Init(capacity, workers), steps), LatestLanding(Init(capacity, workers), steps, key), key)
    ensures End(Init(capacity, workers), steps).capacity == capacity
  {
    hide Inv;
    hide RecordAgrees;
    InitInv(capacity, workers);
    RunKeeps(Init(capacity, workers), steps);
    CapacityKept(Init(capacity, workers), steps);
    RecordsAgree(Init(capacity, workers), steps, key);
  }

  /**
   Over every run: a worker leaves with `Served` only if the latest landing of its key is a fetch that
   succeeded, with `Unfetched` only if it is one that failed, with `Pending` only while its key is on its way
   and its wait has run out, with `QueueFull` only while the queue is full and its key is not on its way, and
   with `Launched` only while its key is. No other reply is ever given.
   */
  lemma RepliesAreTrue(capacity: nat, workers: nat, steps: seq<Step>, step: Step, i: nat)
    requires IsRun(Init(capacity, workers), steps) && Enabled(End(Init(capacity, workers), steps), step)
    ensures var s := End(Init(capacity, workers), steps);
            var t := Next(s, step);
            i < |s.workers| && !s.workers[i].Idle? ==>
              && |t.workers| == |s.workers|
              && (t.workers[i].Idle? ==>
                    True(t.workers[i].reply, s, step, s.workers[i].key, LatestLanding(Init(capacity, workers), steps, s.workers[i].key)))
  {
    hide Inv;
    hide Enabled;
    hide Next;
    hide IsRun;
    hide True;
    hide RecordAgrees;
    hide LatestLanding;
    var s := End(Init(capacity, workers), steps);
    if i < |s.workers| && !s.workers[i].Idle? {
      Reached(capacity, workers, steps, s.workers[i].key);
      LeavingIsTrue(s, step, i, LatestLanding(Init(capacity, workers), steps, s.workers[i].key));
    }
  }

  /** Over every run, a worker that looks is told: still on its way, or what the latest fetch of its key gave. */
  lemma ChecksTell(capacity: nat, workers: nat, steps: seq<Step>, i: nat, expired: bool)
    requires IsRun(Init(capacity, workers), steps) && Enabled(End(Init(capacity, workers), steps), Check(i, expired))
    ensures var s := End(Init(capacity, workers), steps);
            var key, w := s.workers[i].key, Next(s, Check(i, expired)).workers[i];
            var landing := LatestLanding(Init(capacity, workers), steps, key);
            && (key in Way(s) ==> w == if expired then Idle(Pending) else Sleeping(key))
            && (key !in Way(s) ==> landing.Some? && !landing.value.Queued?
                                   && w == Idle(if landing.value.Landed? then Served else Unfetched))
  {
    hide Inv;
    hide Next;
    hide IsRun;
    hide RecordAgrees;
    hide LatestLanding;
    hide Way;
    var s := End(Init(capacity, workers), steps);
    Reached(capacity, workers, steps, s.workers[i].key);
    CheckTells(s, i, expired, LatestLanding(Init(capacity, workers), steps, s.workers[i].key));
  }

  /** Over every run, a launch joins, refuses or queues by the history of its key and the room in the queue. */
  lemma LaunchesTell(capacity: nat, workers: nat, steps: seq<Step>, i: nat, recent: bool)
    requires IsRun(Init(capacity, workers), steps) && Enabled(End(Init(capacity, workers), steps), Launch(i, recent))
    ensures var s := End(Init(capacity, workers), steps);
            var key, t := s.workers[i].key, Next(s, Launch(i, recent));
            var landing := LatestLanding(Init(capacity, workers), steps, key);
            if key in Way(s) then
              t.queue == s.queue && t.workers[i] == if s.workers[i].waits then Checking(key) else Idle(Launched)
            else if landing.Some? && landing.value.Failed? && recent then t.queue == s.queue && t.workers[i] == Idle(Unfetched)
            else if |s.queue| < s.capacity then t.queue == s.queue + [key] && t.workers[i] == Sent(key, s.workers[i].waits)
            else t.queue == s.queue && t.workers[i] == Idle(QueueFull)
  {
    hide Inv;
    hide Next;
    hide IsRun;
    hide RecordAgrees;
    hide LatestLanding;
    hide Way;
    var s := End(Init(capacity, workers), steps);
    Reached(capacity, workers, steps, s.workers[i].key);
    LaunchTells(s, i, recent, LatestLanding(Init(capacity, workers), steps, s.workers[i].key));
  }
}
