/**
 The parallel scanner (`scan_jobs`, `run_worker`, `scan` and `finish` in `scan_pool.rs`): workers claim
 object indices from a shared counter, count findings against a shared limit, and send their reports
 through a bounded channel to one receiver. Steps of different workers interleave in any order, and
 any worker may fail at any point. `log` and `progress` record history; nothing reads them.
 */
module ScanPool {
  import opened Bytes
  import opened ScanReader

  /** What scanning an object finds and how long it is: fixed, whoever scans it. */
  datatype Object = Object(findings: seq<Finding>, bytes: nat)

  /** The objects, and what was counted and read before the pool starts. */
  datatype Plan = Plan(objects: seq<Object>, counted: nat, bytes: nat)

  datatype Error = Limit | Overflow | Other

  datatype Worker =
    | Starting
    | Looping
    | Claiming                      // the cancel flag was clear
    | Scanning(index: nat, done: nat)
    | Sending(index: nat)
    | Closing
    | Failing(error: Error)         // before the cancel flag is set
    | Reporting(error: Error)       // before the error is sent
    | Finished

  datatype Message = Part(index: nat) | Failure(error: Error)

  datatype State = State(next: nat, cancelled: bool, counter: nat, progress: seq<nat>,
                         workers: seq<Worker>, channel: seq<Message>,
                         log: seq<nat>, objects: nat, bytes: nat, results: seq<(nat, seq<Finding>)>, errors: seq<Error>)

  datatype Step =
    | Begin(w: nat, ok: bool)
    | Poll(w: nat)
    | Claim(w: nat)
    | Find(w: nat)
    | Scanned(w: nat)
    | Break(w: nat)
    | Send(w: nat)
    | Close(w: nat, ok: bool)
    | Cancel(w: nat)
    | Report(w: nat)
    | Receive

  function Init(p: Plan, workers: nat): State {
    State(0, false, p.counted, seq(|p.objects|, _ => 0), seq(workers, _ => Starting), [], [], 0, p.bytes, [], [])
  }

  predicate Room(s: State) {
    |s.channel| < |s.workers|
  }

  predicate Enabled(p: Plan, s: State, step: Step) {
    match step
    case Begin(w, _) => w < |s.workers| && s.workers[w].Starting?
    case Poll(w) => w < |s.workers| && s.workers[w].Looping?
    case Claim(w) => w < |s.workers| && s.workers[w].Claiming?
    case Find(w) =>
      && w < |s.workers| && s.workers[w].Scanning? && s.workers[w].index < |p.objects| == |s.progress|
      && s.workers[w].done < |p.objects[s.workers[w].index].findings|
    case Scanned(w) =>
      && w < |s.workers| && s.workers[w].Scanning? && s.workers[w].index < |p.objects|
      && s.workers[w].done == |p.objects[s.workers[w].index].findings|
    case Break(w) => w < |s.workers| && s.workers[w].Scanning?
    case Send(w) => w < |s.workers| && s.workers[w].Sending? && Room(s)
    case Close(w, _) => w < |s.workers| && s.workers[w].Closing?
    case Cancel(w) => w < |s.workers| && s.workers[w].Failing?
    case Report(w) => w < |s.workers| && s.workers[w].Reporting? && Room(s)
    case Receive => s.channel != [] && (s.channel[0].Part? ==> s.channel[0].index < |p.objects|)
  }

  function Go(s: State, w: nat, to: Worker): State
    requires w < |s.workers|
  {
    s.(workers := s.workers[w := to])
  }

  /** One finding counted against the shared limit. */
  function DoFind(p: Plan, s: State, w: nat): State
    requires Enabled(p, s, Find(w))
  {
    var Scanning(i, d) := s.workers[w];
    var t := s.(counter := s.counter + 1, progress := s.progress[i := s.progress[i] + 1]);
    Go(t, w, if s.counter >= FINDINGS_LIMIT then Failing(Limit) else Scanning(i, d + 1))
  }

  function DoReceive(p: Plan, s: State): State
    requires Enabled(p, s, Receive)
  {
    var t := s.(channel := s.channel[1..]);
    match s.channel[0]
    case Failure(e) => t.(errors := t.errors + [e])
    case Part(i) =>
      var o := p.objects[i];
      var u := t.(log := t.log + [i], objects := t.objects + 1);
      if u.bytes + o.bytes >= U64 then u.(cancelled := true, errors := u.errors + [Overflow])
      else u.(bytes := u.bytes + o.bytes,
              results := if o.findings == [] then u.results else u.results + [(i, o.findings)])
  }

  function Next(p: Plan, s: State, step: Step): State
    requires Enabled(p, s, step)
  {
    match step
    case Begin(w, ok) => Go(s, w, if ok then Looping else Failing(Other))
    case Poll(w) => Go(s, w, if s.cancelled then Closing else Claiming)
    case Claim(w) => Go(s.(next := s.next + 1), w, if s.next < |p.objects| then Scanning(s.next, 0) else Closing)
    case Find(w) => DoFind(p, s, w)
    case Scanned(w) => Go(s, w, Sending(s.workers[w].index))
    case Break(w) => Go(s, w, Failing(Other))
    case Send(w) => Go(s.(channel := s.channel + [Part(s.workers[w].index)]), w, Looping)
    case Close(w, ok) => Go(s, w, if ok then Finished else Failing(Other))
    case Cancel(w) => Go(s.(cancelled := true), w, Reporting(s.workers[w].error))
    case Report(w) => Go(s.(channel := s.channel + [Failure(s.workers[w].error)]), w, Finished)
    case Receive => DoReceive(p, s)
  }

  /** The receiver's loop ends: no sender is left and nothing is in the channel. */
  predicate Terminal(s: State) {
    s.channel == [] && forall w :: 0 <= w < |s.workers| ==> s.workers[w].Finished?
  }

  // ----- what every reachable state keeps

  function Parts(channel: seq<Message>): seq<nat> {
    if channel == [] then []
    else (if channel[0].Part? then [channel[0].index] else []) + Parts(channel[1..])
  }

  /** Indices whose report was sent, in the order they are received. */
  function Sent(s: State): seq<nat> {
    s.log + Parts(s.channel)
  }

  predicate Busy(w: Worker) {
    w.Scanning? || w.Sending?
  }

  predicate Single(ks: seq<nat>) {
    forall i, j :: 0 <= i < j < |ks| ==> ks[i] != ks[j]
  }

  predicate Failed(w: Worker) {
    w.Failing? || w.Reporting?
  }

  /** Nothing has gone wrong so far. */
  predicate Clean(s: State) {
    && s.errors == []
    && (forall w :: 0 <= w < |s.workers| ==> !Failed(s.workers[w]))
    && (forall m :: 0 <= m < |s.channel| ==> s.channel[m].Part?)
  }

  /** Indices are claimed once: each is sent once, or held by one worker. */
  ghost predicate OnePlace(p: Plan, s: State) {
    && Single(Sent(s))
    && (forall i :: i in Sent(s) ==> i < s.next && i < |p.objects|)
    && HeldOnce(p, s)
  }

  ghost predicate HeldOnce(p: Plan, s: State) {
    && HeldUnsent(p, s)
    && HeldApart(s)
  }

  ghost predicate HeldUnsent(p: Plan, s: State) {
    forall w :: 0 <= w < |s.workers| && Busy(s.workers[w]) ==>
                  && s.workers[w].index < s.next && s.workers[w].index < |p.objects|
                  && s.workers[w].index !in Sent(s)
  }

  ghost predicate HeldApart(s: State) {
    && (forall v, w :: 0 <= v < w < |s.workers| && Busy(s.workers[v]) && Busy(s.workers[w]) ==>
                         s.workers[v].index != s.workers[w].index)
  }

  predicate Held(s: State, i: nat) {
    exists w :: 0 <= w < |s.workers| && Busy(s.workers[w]) && s.workers[w].index == i
  }

  /** While nothing has gone wrong, no claimed index is lost, and nobody stops early. */
  ghost predicate NoneLost(p: Plan, s: State) {
    Clean(s) ==>
      && !s.cancelled
      && (forall i: nat :: i < s.next && i < |p.objects| ==> i in Sent(s) || Held(s, i))
      && (forall w :: 0 <= w < |s.workers| && (s.workers[w].Closing? || s.workers[w].Finished?) ==> |p.objects| <= s.next)
  }

  lemma ReportsAreUnclean(p: Plan, s: State, w: nat)
    requires Enabled(p, s, Report(w))
    ensures !Clean(Next(p, s, Report(w)))
  {
    var t := Next(p, s, Report(w));
    assert t.channel[|s.channel|] == Failure(s.workers[w].error);
  }

  /** Once something has gone wrong, it stays so. */
  lemma CleanBefore(p: Plan, s: State, step: Step)
    requires Enabled(p, s, step) && Clean(Next(p, s, step))
    ensures Clean(s)
    ensures step.Begin? ==> step.ok
    ensures !step.Break? && !step.Cancel? && !step.Report? && (step.Close? ==> step.ok)
    ensures Next(p, s, step).cancelled == s.cancelled
  {
    var t := Next(p, s, step);
    if step.Receive? {
      assert s.workers == t.workers;
      forall m | 0 <= m < |s.channel|
        ensures s.channel[m].Part?
      {
        if m > 0 {
          assert s.channel[m] == t.channel[m - 1];
        }
      }
    } else {
      if step.Report? {
        ReportsAreUnclean(p, s, step.w);
      }
      assert !Failed(t.workers[step.w]);
      forall w | 0 <= w < |s.workers|
        ensures !Failed(s.workers[w])
      {
        assert w != step.w ==> s.workers[w] == t.workers[w];
      }
      forall m | 0 <= m < |s.channel|
        ensures s.channel[m].Part?
      {
        assert s.channel[m] == t.channel[m];
      }
    }
  }

  lemma {:induction false} PartsAppend(channel: seq<Message>, m: Message)
    ensures Parts(channel + [m]) == Parts(channel) + if m.Part? then [m.index] else []
  {
    hide Parts;
    PartsHead(channel + [m]);
    PartsNone();
    if channel == [] {
      assert channel + [m] == [m];
      assert [m][1..] == [];
    } else {
      assert (channel + [m])[1..] == channel[1..] + [m];
      PartsHead(channel);
      PartsAppend(channel[1..], m);
      var a, b, c := if channel[0].Part? then [channel[0].index] else [], Parts(channel[1..]), if m.Part? then [m.index] else [];
      assert a + (b + c) == a + b + c;
    }
  }

  lemma PartsNone()
    ensures Parts([]) == []
  {}

  /** Only `Send` sends an index; receiving moves it from the channel to the log. */
  lemma SentAfter(p: Plan, s: State, step: Step)
    requires Enabled(p, s, step)
    ensures Sent(Next(p, s, step)) == if step.Send? then Sent(s) + [s.workers[step.w].index] else Sent(s)
  {
    hide Parts;
    var t := Next(p, s, step);
    if step.Send? {
      PartsAppend(s.channel, Part(s.workers[step.w].index));
      assert s.log + (Parts(s.channel) + [s.workers[step.w].index]) == Sent(s) + [s.workers[step.w].index];
    } else if step.Report? {
      PartsAppend(s.channel, Failure(s.workers[step.w].error));
      assert Parts(s.channel) + [] == Parts(s.channel);
    } else if step.Receive? {
      PartsHead(s.channel);
      if s.channel[0].Part? {
        assert s.log + [s.channel[0].index] + Parts(t.channel) == s.log + Parts(s.channel);
      }
    }
  }

  lemma PartsHead(channel: seq<Message>)
    requires channel != []
    ensures Parts(channel) == (if channel[0].Part? then [channel[0].index] else []) + Parts(channel[1..])
  {}

  lemma OnePlaceKept(p: Plan, s: State, step: Step)
    requires OnePlace(p, s) && Enabled(p, s, step)
    ensures OnePlace(p, Next(p, s, step))
  {
    hide Sent;
    hide HeldOnce;
    hide Single;
    SentAfter(p, s, step);
    HeldOnceKept(p, s, step);
    if step.Send? {
      SendsOnce(p, s, step.w);
    }
  }

  lemma SendsOnce(p: Plan, s: State, w: nat)
    requires OnePlace(p, s) && Enabled(p, s, Send(w))
    ensures var i := s.workers[w].index;
            i < s.next && i < |p.objects| && i !in Sent(s) && Single(Sent(s) + [i])
  {
    hide Sent;
    assert Busy(s.workers[w]);
  }

  lemma HeldOnceKept(p: Plan, s: State, step: Step)
    requires OnePlace(p, s) && Enabled(p, s, step)
    ensures HeldOnce(p, Next(p, s, step))
  {
    hide Sent;
    hide Single;
    hide HeldApart;
    SentAfter(p, s, step);
    HeldApartKept(p, s, step);
    var t := Next(p, s, step);
    if step.Send? {
      var i := s.workers[step.w].index;
      assert forall k :: k in Sent(t) <==> k in Sent(s) || k == i;
      ApartFrom(s, step.w);
    }
  }

  lemma ApartFrom(s: State, w: nat)
    requires HeldApart(s) && w < |s.workers| && Busy(s.workers[w])
    ensures forall v :: 0 <= v < |s.workers| && v != w && Busy(s.workers[v]) ==> s.workers[v].index != s.workers[w].index
  {}

  lemma HeldApartKept(p: Plan, s: State, step: Step)
    requires OnePlace(p, s) && Enabled(p, s, step)
    ensures HeldApart(Next(p, s, step))
  {
    hide Sent;
    hide Single;
  }

  lemma NoneLostKept(p: Plan, s: State, step: Step)
    requires NoneLost(p, s) && Enabled(p, s, step)
    ensures NoneLost(p, Next(p, s, step))
  {
    hide Sent;
    hide Clean;
    var t := Next(p, s, step);
    if Clean(t) {
      CleanBefore(p, s, step);
      SentAfter(p, s, step);
      forall i: nat | i < t.next && i < |p.objects|
        ensures i in Sent(t) || Held(t, i)
      {
        StaysPlaced(p, s, step, i);
      }
    }
  }

  /** A clean step loses no index. */
  lemma StaysPlaced(p: Plan, s: State, step: Step, i: nat)
    requires Enabled(p, s, step) && Clean(Next(p, s, step))
    requires i < Next(p, s, step).next && i < |p.objects|
    requires i < s.next ==> i in Sent(s) || Held(s, i)
    ensures i in Sent(Next(p, s, step)) || Held(Next(p, s, step), i)
  {
    hide Sent;
    hide Clean;
    CleanBefore(p, s, step);
    SentAfter(p, s, step);
    var t := Next(p, s, step);
    if i == s.next && step.Claim? {
      assert Busy(t.workers[step.w]) && t.workers[step.w].index == i;
    } else if Held(s, i) {
      var w :| 0 <= w < |s.workers| && Busy(s.workers[w]) && s.workers[w].index == i;
      if step.Receive? || w != step.w {
        assert t.workers[w] == s.workers[w];
      } else if !step.Send? {
        StaysBusy(p, s, step);
        assert Busy(t.workers[w]) && t.workers[w].index == i;
      }
    }
  }

  lemma StaysBusy(p: Plan, s: State, step: Step)
    requires Enabled(p, s, step) && Clean(Next(p, s, step)) && !step.Receive? && !step.Send?
    requires Busy(s.workers[step.w])
    ensures Busy(Next(p, s, step).workers[step.w])
    ensures Next(p, s, step).workers[step.w].index == s.workers[step.w].index
  {
    assert !Failed(Next(p, s, step).workers[step.w]);
  }

  // ----- counting findings

  function Sum(ns: seq<nat>): nat {
    if ns == [] then 0 else Sum(ns[..|ns| - 1]) + ns[|ns| - 1]
  }

  lemma {:induction false} SumUpdate(ns: seq<nat>, i: nat, v: nat)
    requires i < |ns|
    ensures Sum(ns[i := v]) == Sum(ns) - ns[i] + v
  {
    var init := ns[..|ns| - 1];
    if i == |ns| - 1 {
      assert ns[i := v][..|ns| - 1] == init;
    } else {
      assert ns[i := v][..|ns| - 1] == init[i := v];
      SumUpdate(init, i, v);
    }
  }

  lemma {:induction false} SumLess(a: seq<nat>, b: seq<nat>)
    requires |a| == |b| && forall i :: 0 <= i < |a| ==> a[i] <= b[i]
    ensures Sum(a) <= Sum(b)
  {
    if a != [] {
      SumLess(a[..|a| - 1], b[..|b| - 1]);
    }
  }

  function Sizes(objects: seq<Object>): (r: seq<nat>)
    ensures |r| == |objects| && forall i :: 0 <= i < |objects| ==> r[i] == |objects[i].findings|
  {
    seq(|objects|, i requires 0 <= i < |objects| => |objects[i].findings|)
  }

  /** All findings there are, counting those before the pool started. */
  function Total(p: Plan): nat {
    p.counted + Sum(Sizes(p.objects))
  }

  predicate Limited(w: Worker) {
    Failed(w) && w.error == Limit
  }

  /** The limit has not stopped anyone so far. */
  predicate LimitFree(s: State) {
    && Limit !in s.errors
    && (forall w :: 0 <= w < |s.workers| ==> !Limited(s.workers[w]))
    && Failure(Limit) !in s.channel
  }

  predicate HitsLimit(s: State, step: Step) {
    step.Find? && s.counter >= FINDINGS_LIMIT
  }

  /** Findings are counted once each, however the workers interleave. */
  ghost predicate Progress(p: Plan, s: State) {
    && |s.progress| == |p.objects|
    && (forall i :: 0 <= i < |p.objects| ==> s.progress[i] <= |p.objects[i].findings|)
    && (forall i :: 0 <= i < |p.objects| && s.next <= i ==> s.progress[i] == 0)
    && (forall i :: i in Sent(s) && i < |p.objects| ==> s.progress[i] == |p.objects[i].findings|)
    && WorkersProgress(p, s)
  }

  ghost predicate WorkersProgress(p: Plan, s: State)
    requires |s.progress| == |p.objects|
  {
    forall w :: 0 <= w < |s.workers| && Busy(s.workers[w]) && s.workers[w].index < |p.objects| ==>
                  s.progress[s.workers[w].index]
                  == if s.workers[w].Scanning? then s.workers[w].done else |p.objects[s.workers[w].index].findings|
  }

  ghost predicate Counting(p: Plan, s: State) {
    && s.counter == p.counted + Sum(s.progress)
    && (if LimitFree(s) then s.counter <= FINDINGS_LIMIT || s.counter == p.counted else Total(p) > FINDINGS_LIMIT)
  }

  lemma LimitAfter(p: Plan, s: State, step: Step)
    requires Enabled(p, s, step)
    ensures LimitFree(Next(p, s, step)) <==> LimitFree(s) && !HitsLimit(s, step)
  {
    var t := Next(p, s, step);
    if step.Receive? {
      assert s.channel == [s.channel[0]] + t.channel;
    } else {
      var w := step.w;
      assert t.workers[w] == Next(p, s, step).workers[w];
      forall v | 0 <= v < |s.workers| && v != w
        ensures t.workers[v] == s.workers[v]
      {}
      LimitMoves(p, s, step);
    }
  }

  lemma LimitMoves(p: Plan, s: State, step: Step)
    requires Enabled(p, s, step) && !step.Receive?
    ensures var t := Next(p, s, step);
            (Limited(t.workers[step.w]) || Failure(Limit) in t.channel)
            <==> (Limited(s.workers[step.w]) || Failure(Limit) in s.channel || HitsLimit(s, step))
  {}

  lemma ProgressKept(p: Plan, s: State, step: Step)
    requires OnePlace(p, s) && Progress(p, s) && Enabled(p, s, step)
    ensures Progress(p, Next(p, s, step))
  {
    hide Sent;
    hide Single;
    hide HeldApart;
    SentAfter(p, s, step);
    WorkersProgressKept(p, s, step);
    var t := Next(p, s, step);
    if step.Send? {
      assert forall k :: k in Sent(t) <==> k in Sent(s) || k == s.workers[step.w].index;
    }
  }

  lemma WorkersProgressKept(p: Plan, s: State, step: Step)
    requires OnePlace(p, s) && Progress(p, s) && Enabled(p, s, step)
    ensures |Next(p, s, step).progress| == |p.objects| && WorkersProgress(p, Next(p, s, step))
  {
    hide Sent;
    hide Single;
    hide HeldApart;
    if step.Find? {
      ApartFrom(s, step.w);
    }
  }

  lemma FindCounts(p: Plan, s: State, w: nat)
    requires OnePlace(p, s) && Progress(p, s) && Enabled(p, s, Find(w))
    ensures Sum(Next(p, s, Find(w)).progress) == Sum(s.progress) + 1
    ensures p.counted + Sum(Next(p, s, Find(w)).progress) <= Total(p)
  {
    hide Sum;
    hide OnePlace;
    hide Sent;
    var i := s.workers[w].index;
    SumUpdate(s.progress, i, s.progress[i] + 1);
    ProgressKept(p, s, Find(w));
    SumLess(Next(p, s, Find(w)).progress, Sizes(p.objects));
  }

  lemma CountingKept(p: Plan, s: State, step: Step)
    requires OnePlace(p, s) && Progress(p, s) && Counting(p, s) && Enabled(p, s, step)
    ensures Counting(p, Next(p, s, step))
  {
    hide LimitFree;
    hide OnePlace;
    hide Progress;
    hide Sum;
    hide Total;
    LimitAfter(p, s, step);
    if step.Find? {
      FindCounts(p, s, step.w);
    }
  }

  // ----- what the receiver has put together

  function BytesOf(p: Plan, log: seq<nat>): nat {
    if log == [] then 0
    else
      var i := log[|log| - 1];
      BytesOf(p, log[..|log| - 1]) + if i < |p.objects| then p.objects[i].bytes else 0
  }

  function ResultsOf(p: Plan, log: seq<nat>): seq<(nat, seq<Finding>)> {
    if log == [] then []
    else
      var init, i := ResultsOf(p, log[..|log| - 1]), log[|log| - 1];
      if i < |p.objects| && p.objects[i].findings != [] then init + [(i, p.objects[i].findings)] else init
  }

  ghost predicate Receiving(p: Plan, s: State) {
    && s.objects == |s.log|
    && (Clean(s) ==> s.bytes == p.bytes + BytesOf(p, s.log) && s.bytes < U64 && s.results == ResultsOf(p, s.log))
  }

  lemma ReceivingKept(p: Plan, s: State, step: Step)
    requires Receiving(p, s) && Enabled(p, s, step)
    ensures Receiving(p, Next(p, s, step))
  {
    hide Clean;
    hide BytesOf;
    hide ResultsOf;
    var t := Next(p, s, step);
    if Clean(t) {
      CleanBefore(p, s, step);
      CleanErrors(t);
    }
    if step.Receive? && s.channel[0].Part? {
      LogGrows(p, s.log, s.channel[0].index);
    }
  }

  lemma LogGrows(p: Plan, log: seq<nat>, i: nat)
    requires i < |p.objects|
    ensures BytesOf(p, log + [i]) == BytesOf(p, log) + p.objects[i].bytes
    ensures ResultsOf(p, log + [i])
         == if p.objects[i].findings == [] then ResultsOf(p, log) else ResultsOf(p, log) + [(i, p.objects[i].findings)]
  {
    assert (log + [i])[..|log|] == log;
  }

  lemma CleanErrors(s: State)
    requires Clean(s)
    ensures s.errors == []
  {}

  ghost predicate Inv(p: Plan, s: State) {
    OnePlace(p, s) && NoneLost(p, s) && Progress(p, s) && Counting(p, s) && Receiving(p, s)
  }

  lemma InvKept(p: Plan, s: State, step: Step)
    requires Inv(p, s) && Enabled(p, s, step)
    ensures Inv(p, Next(p, s, step))
    ensures |Next(p, s, step).workers| == |s.workers|
  {
    hide OnePlace;
    hide NoneLost;
    hide Progress;
    hide Counting;
    hide Receiving;
    OnePlaceKept(p, s, step);
    NoneLostKept(p, s, step);
    ProgressKept(p, s, step);
    CountingKept(p, s, step);
    ReceivingKept(p, s, step);
  }

  lemma InitInv(p: Plan, workers: nat)
    requires p.bytes < U64
    ensures Inv(p, Init(p, workers))
  {
    SumZero(|p.objects|);
  }

  lemma {:induction false} SumZero(n: nat)
    ensures Sum(seq(n, _ => 0)) == 0
  {
    if n > 0 {
      assert seq(n, _ => 0)[..n - 1] == seq(n - 1, _ => 0);
      SumZero(n - 1);
    }
  }

  // ----- the verdict

  /** Insertion by key, as a stable sort would place it. */
  function Insert(rs: seq<(nat, seq<Finding>)>, r: (nat, seq<Finding>)): seq<(nat, seq<Finding>)> {
    if rs == [] || rs[|rs| - 1].0 <= r.0 then rs + [r]
    else Insert(rs[..|rs| - 1], r) + [rs[|rs| - 1]]
  }

  function SortByIndex(rs: seq<(nat, seq<Finding>)>): seq<(nat, seq<Finding>)> {
    if rs == [] then [] else Insert(SortByIndex(rs[..|rs| - 1]), rs[|rs| - 1])
  }

  function Flatten(rs: seq<(nat, seq<Finding>)>): seq<Finding> {
    if rs == [] then [] else Flatten(rs[..|rs| - 1]) + rs[|rs| - 1].1
  }

  datatype Verdict = Complete(objects: nat, bytes: nat, findings: seq<Finding>) | Refused

  /** The end of `scan`, and `finish`. */
  function FinishOf(p: Plan, s: State): Verdict {
    if s.errors != [] || s.objects != |p.objects| then Refused
    else Complete(s.objects, s.bytes, Flatten(SortByIndex(s.results)))
  }

  /** What a scan of the first `n` objects, one after another, finds. */
  function InOrder(p: Plan, n: nat): seq<Finding>
    requires n <= |p.objects|
  {
    if n == 0 then [] else InOrder(p, n - 1) + p.objects[n - 1].findings
  }

  function BytesInOrder(p: Plan, n: nat): nat
    requires n <= |p.objects|
  {
    if n == 0 then 0 else BytesInOrder(p, n - 1) + p.objects[n - 1].bytes
  }

  /** The results for the indices below `n` that are in `log`, in index order. */
  function Expected(p: Plan, log: seq<nat>, n: nat): seq<(nat, seq<Finding>)>
    requires n <= |p.objects|
  {
    if n == 0 then []
    else
      var init := Expected(p, log, n - 1);
      if n - 1 in log && p.objects[n - 1].findings != [] then init + [(n - 1, p.objects[n - 1].findings)] else init
  }

  lemma {:induction false} ExpectedBounded(p: Plan, log: seq<nat>, n: nat)
    requires n <= |p.objects|
    ensures forall r :: r in Expected(p, log, n) ==> r.0 < n
  {
    if n > 0 {
      ExpectedBounded(p, log, n - 1);
    }
  }

  lemma {:induction false} ExpectedSame(p: Plan, log: seq<nat>, x: nat, n: nat)
    requires n <= |p.objects| && n <= x
    ensures Expected(p, log + [x], n) == Expected(p, log, n)
  {
    if n > 0 {
      ExpectedSame(p, log, x, n - 1);
    }
  }

  /** One more index in the log: its result is inserted in its place. */
  lemma {:induction false} ExpectedInsert(p: Plan, log: seq<nat>, x: nat, n: nat)
    requires x < n <= |p.objects| && x !in log
    ensures Expected(p, log + [x], n)
         == if p.objects[x].findings == [] then Expected(p, log, n)
            else Insert(Expected(p, log, n), (x, p.objects[x].findings))
  {
    hide Insert;
    var init, r := Expected(p, log, n - 1), (x, p.objects[x].findings);
    if x == n - 1 {
      ExpectedSame(p, log, x, n - 1);
      ExpectedBounded(p, log, n - 1);
      InsertLast(init, r);
    } else {
      ExpectedInsert(p, log, x, n - 1);
      InsertBefore(init, r, (n - 1, p.objects[n - 1].findings));
    }
  }

  lemma InsertLast(rs: seq<(nat, seq<Finding>)>, r: (nat, seq<Finding>))
    requires forall q :: q in rs ==> q.0 < r.0
    ensures Insert(rs, r) == rs + [r]
  {
    assert rs != [] ==> rs[|rs| - 1] in rs;
  }

  lemma InsertBefore(rs: seq<(nat, seq<Finding>)>, r: (nat, seq<Finding>), last: (nat, seq<Finding>))
    requires r.0 < last.0
    ensures Insert(rs + [last], r) == Insert(rs, r) + [last]
  {
    assert (rs + [last])[..|rs|] == rs;
  }

  /** Whatever order the reports arrived in, sorting puts them in index order. */
  lemma {:induction false} SortedResults(p: Plan, log: seq<nat>)
    requires Single(log) && forall i :: i in log ==> i < |p.objects|
    ensures SortByIndex(ResultsOf(p, log)) == Expected(p, log, |p.objects|)
  {
    if log == [] {
      ExpectedNone(p, |p.objects|);
    } else {
      var init, x := log[..|log| - 1], log[|log| - 1];
      assert log == init + [x];
      assert forall i :: i in init ==> i in log;
      SortedResults(p, init);
      assert x in log && x !in init;
      ExpectedInsert(p, init, x, |p.objects|);
      var rs := ResultsOf(p, init);
      if p.objects[x].findings != [] {
        assert (rs + [(x, p.objects[x].findings)])[..|rs|] == rs;
      }
    }
  }

  lemma {:induction false} ExpectedNone(p: Plan, n: nat)
    requires n <= |p.objects|
    ensures Expected(p, [], n) == []
  {
    if n > 0 {
      ExpectedNone(p, n - 1);
    }
  }

  lemma {:induction false} ExpectedIsInOrder(p: Plan, log: seq<nat>, n: nat)
    requires n <= |p.objects| && forall i: nat :: i < n ==> i in log
    ensures Flatten(Expected(p, log, n)) == InOrder(p, n)
  {
    if n > 0 {
      ExpectedIsInOrder(p, log, n - 1);
      var init := Expected(p, log, n - 1);
      var last := (n - 1, p.objects[n - 1].findings);
      assert (init + [last])[..|init|] == init;
    }
  }

  // A log that holds every index once is as long, and weighs as much, as the objects in order.

  function Remove(ks: seq<nat>, j: nat): seq<nat>
    requires j < |ks|
  {
    ks[..j] + ks[j + 1..]
  }

  lemma {:induction false} BytesRemove(p: Plan, log: seq<nat>, j: nat)
    requires j < |log| && log[j] < |p.objects|
    ensures BytesOf(p, log) == BytesOf(p, Remove(log, j)) + p.objects[log[j]].bytes
  {
    var n := |log| - 1;
    if j == n {
      assert Remove(log, j) == log[..n];
    } else {
      BytesRemove(p, log[..n], j);
      var r := Remove(log, j);
      assert r[..|r| - 1] == Remove(log[..n], j);
    }
  }

  lemma HasElement(log: seq<nat>)
    requires log != []
    ensures exists i :: i in log
  {
    assert log[0] in log;
  }

  lemma {:induction false} FullLog(p: Plan, log: seq<nat>, n: nat)
    requires n <= |p.objects| && Single(log)
    requires forall i :: i in log <==> 0 <= i < n
    ensures |log| == n && BytesOf(p, log) == BytesInOrder(p, n)
  {
    if n == 0 {
      if log != [] {
        HasElement(log);
      }
    } else {
      assert n - 1 in log;
      var j :| 0 <= j < |log| && log[j] == n - 1;
      RemoveFull(log, j, n);
      FullLog(p, Remove(log, j), n - 1);
      BytesRemove(p, log, j);
    }
  }

  lemma RemoveFull(log: seq<nat>, j: nat, n: nat)
    requires Single(log) && j < |log| && log[j] == n - 1
    requires forall i :: i in log <==> 0 <= i < n
    ensures Single(Remove(log, j)) && forall i :: i in Remove(log, j) <==> 0 <= i < n - 1
  {
    var r := Remove(log, j);
    forall i ensures i in r <==> i in log && i != n - 1 {
      if i in log && i != n - 1 {
        var k :| 0 <= k < |log| && log[k] == i;
        assert r[if k < j then k else k - 1] == i;
      }
      if i in r {
        var k :| 0 <= k < |r| && r[k] == i;
        assert log[if k < j then k else k + 1] == i;
      }
    }
    forall a, b | 0 <= a < b < |r|
      ensures r[a] != r[b]
    {
      assert r[a] == log[if a < j then a else a + 1] && r[b] == log[if b < j then b else b + 1];
    }
  }

  // ----- all runs

  predicate IsRun(p: Plan, s: State, steps: seq<Step>)
    decreases |steps|
  {
    steps == [] || (Enabled(p, s, steps[0]) && IsRun(p, Next(p, s, steps[0]), steps[1..]))
  }

  function End(p: Plan, s: State, steps: seq<Step>): State
    requires IsRun(p, s, steps)
    decreases |steps|
  {
    if steps == [] then s else End(p, Next(p, s, steps[0]), steps[1..])
  }

  lemma {:induction false} RunKeeps(p: Plan, s: State, steps: seq<Step>)
    requires Inv(p, s) && IsRun(p, s, steps)
    ensures Inv(p, End(p, s, steps)) && |End(p, s, steps).workers| == |s.workers|
    decreases |steps|
  {
    hide Inv;
    hide Enabled;
    hide Next;
    if steps != [] {
      InvKept(p, s, steps[0]);
      RunKeeps(p, Next(p, s, steps[0]), steps[1..]);
    }
  }

  lemma EndIsClean(p: Plan, s: State)
    requires NoneLost(p, s) && OnePlace(p, s) && Terminal(s) && s.errors == [] && s.workers != []
    ensures Clean(s) && !s.cancelled && Sent(s) == s.log
    ensures Single(s.log) && forall i :: i in s.log <==> 0 <= i < |p.objects|
  {
    assert Sent(s) == s.log;
    assert Clean(s);
    assert s.workers[0].Finished?;
    forall i: nat | i < |p.objects|
      ensures i in s.log
    {
      assert i in Sent(s) || Held(s, i);
    }
  }

  lemma AllCounted(p: Plan, s: State)
    requires Progress(p, s) && Counting(p, s) && Clean(s) && Sent(s) == s.log
    requires forall i :: i in s.log <==> 0 <= i < |p.objects|
    ensures s.counter == Total(p) && (Total(p) <= FINDINGS_LIMIT || Total(p) == p.counted)
  {
    hide Sum;
    hide Clean;
    assert s.progress == Sizes(p.objects) by {
      forall i | 0 <= i < |p.objects|
        ensures s.progress[i] == Sizes(p.objects)[i]
      {
        assert i in s.log;
      }
    }
    assert LimitFree(s) by { CleanIsLimitFree(s); }
  }

  lemma CleanIsLimitFree(s: State)
    requires Clean(s)
    ensures LimitFree(s)
  {}

  /**
   Every run that ends without errors gives what a scan in order gives: each object once, the same
   findings in the same order, the same byte count. A run that was cancelled has an error to show.
   Whether the finding limit stops the scan depends on the number of findings alone.
   */
  lemma ScheduleDoesNotMatter(p: Plan, workers: nat, steps: seq<Step>)
    requires workers > 0 && p.bytes < U64 && p.counted <= FINDINGS_LIMIT
    requires IsRun(p, Init(p, workers), steps) && Terminal(End(p, Init(p, workers), steps))
    ensures var s := End(p, Init(p, workers), steps);
            && (s.errors == [] ==>
                  FinishOf(p, s) == Complete(|p.objects|, p.bytes + BytesInOrder(p, |p.objects|), InOrder(p, |p.objects|)))
            && (s.errors == [] ==> p.bytes + BytesInOrder(p, |p.objects|) < U64)
            && (s.cancelled ==> s.errors != [])
            && (Total(p) <= FINDINGS_LIMIT ==> Limit !in s.errors)
            && (Total(p) > FINDINGS_LIMIT ==> s.errors != [])
  {
    hide Enabled;
    hide Next;
    hide OnePlace;
    hide NoneLost;
    hide Progress;
    hide Single;
    hide Sum;
    hide Total;
    var s := End(p, Init(p, workers), steps);
    InitInv(p, workers);
    RunKeeps(p, Init(p, workers), steps);
    if s.errors == [] {
      EndIsClean(p, s);
      AllCounted(p, s);
      FullLog(p, s.log, |p.objects|);
      SortedResults(p, s.log);
      ExpectedIsInOrder(p, s.log, |p.objects|);
    }
  }

  /** A step that is not a failure of the world outside. */
  predicate Works(step: Step) {
    match step
    case Begin(_, ok) => ok
    case Close(_, ok) => ok
    case Break(_) => false
    case _ => true
  }

  /** Until the end, somebody can always take a step that works. */
  lemma NoDeadlock(p: Plan, s: State)
    requires Inv(p, s) && s.workers != [] && !Terminal(s)
    ensures exists step :: Works(step) && Enabled(p, s, step)
  {
    hide NoneLost;
    hide Counting;
    hide Receiving;
    hide Sum;
    if s.channel != [] {
      FirstPart(s);
      assert Works(Receive) && Enabled(p, s, Receive);
    } else {
      var w :| 0 <= w < |s.workers| && !s.workers[w].Finished?;
      WorkerCanGo(p, s, w);
    }
  }

  lemma FirstPart(s: State)
    requires s.channel != []
    ensures s.channel[0].Part? ==> s.channel[0].index in Sent(s)
  {
    if s.channel[0].Part? {
      assert Parts(s.channel)[0] == s.channel[0].index;
      assert Sent(s)[|s.log|] == s.channel[0].index;
    }
  }

  lemma WorkerCanGo(p: Plan, s: State, w: nat)
    requires OnePlace(p, s) && Progress(p, s)
    requires w < |s.workers| && !s.workers[w].Finished? && s.channel == []
    ensures exists step :: Works(step) && Enabled(p, s, step)
  {
    hide Single;
    hide Sent;
    var v := s.workers[w];
    var step := match v
      case Starting => Begin(w, true)
      case Looping => Poll(w)
      case Claiming => Claim(w)
      case Scanning(i, d) => if i < |p.objects| && d < |p.objects[i].findings| then Find(w) else Step.Scanned(w)
      case Sending(_) => Send(w)
      case Closing => Close(w, true)
      case Failing(_) => Cancel(w)
      case Reporting(_) => Report(w)
      case Finished => Receive;
    assert v.Scanning? ==> s.progress[v.index] == v.done <= |p.objects[v.index].findings|;
    assert Works(step) && Enabled(p, s, step);
  }

  // ----- every run ends

  function Rank(p: Plan, w: Worker): nat {
    match w
    case Finished => 0
    case Reporting(_) => 2
    case Failing(_) => 3
    case Closing => 4
    case Claiming => 5
    case Looping => 6
    case Starting => 7
    case Sending(_) => 8
    case Scanning(i, d) => 9 + if i < |p.objects| && d < |p.objects[i].findings| then |p.objects[i].findings| - d else 0
  }

  function Ranks(p: Plan, workers: seq<Worker>): (r: seq<nat>)
    ensures |r| == |workers| && forall w :: 0 <= w < |workers| ==> r[w] == Rank(p, workers[w])
  {
    seq(|workers|, w requires 0 <= w < |workers| => Rank(p, workers[w]))
  }

  /** The work in objects not yet claimed. */
  function Unclaimed(p: Plan, next: nat): nat
    decreases |p.objects| - next
  {
    if next >= |p.objects| then 0 else |p.objects[next].findings| + 5 + Unclaimed(p, next + 1)
  }

  function Left(p: Plan, s: State): nat {
    Unclaimed(p, s.next) + Sum(Ranks(p, s.workers)) + |s.channel|
  }

  /** What one step takes off the stepping worker's rank. */
  lemma RankAfter(p: Plan, s: State, step: Step)
    requires Enabled(p, s, step) && !step.Receive?
    ensures var t := Next(p, s, step);
            Unclaimed(p, t.next) + Rank(p, t.workers[step.w]) + |t.channel|
            < Unclaimed(p, s.next) + Rank(p, s.workers[step.w]) + |s.channel|
  {}

  lemma StepsUseUp(p: Plan, s: State, step: Step)
    requires Enabled(p, s, step)
    ensures Left(p, Next(p, s, step)) < Left(p, s)
  {
    hide Sum;
    hide Unclaimed;
    hide Rank;
    var t := Next(p, s, step);
    if step.Receive? {
      assert t.workers == s.workers;
    } else {
      RankAfter(p, s, step);
      SumUpdate(Ranks(p, s.workers), step.w, Rank(p, t.workers[step.w]));
      assert Ranks(p, t.workers) == Ranks(p, s.workers)[step.w := Rank(p, t.workers[step.w])];
    }
  }

  /** No run is longer than the work there is at its start. */
  lemma {:induction false} RunsAreFinite(p: Plan, s: State, steps: seq<Step>)
    requires IsRun(p, s, steps)
    ensures |steps| <= Left(p, s)
    decreases |steps|
  {
    hide Enabled;
    hide Next;
    hide Left;
    if steps != [] {
      StepsUseUp(p, s, steps[0]);
      RunsAreFinite(p, Next(p, s, steps[0]), steps[1..]);
    }
  }
}
