/**
 The work queue under any number of concurrent callers. Every critical section
 is one step; a caller that waits on the condition variable is asleep until a
 signal or broadcast wakes it, and then has to take the lock again. Steps name
 the waiter a signal picks, so a run covers every choice the runtime may make.
 */
module QueueProtocol {
  import opened WorkQueue
  import M = QueueMetrics

  datatype Waiter = Nobody | Getter(caller: nat) | Drainer(caller: nat)

  datatype Step<+T> =
    | Add(item: T, now: int, wakes: Waiter)
    | Get(caller: nat, now: int)
    | GetAgain(caller: nat, now: int)
    | Done(item: T, wakes: Waiter)
    | ShutDown
    | Drain(caller: nat)
    | DrainAgain(caller: nat)

  /** The queue, its waiters, its metrics, and the history of the run. */
  datatype Sys<T(==)> = Sys(
    q: State<T>,
    getAsleep: set<nat>,
    getWoken: set<nat>,
    drainAsleep: set<nat>,
    drainWoken: set<nat>,
    metrics: M.Metrics<T>,
    accepted: seq<T>,
    delivered: seq<T>,
    reported: bool)
  {
    /** `c` is not inside a call that has had to wait. */
    predicate Idle(c: nat) {
      c !in getAsleep && c !in getWoken && c !in drainAsleep && c !in drainWoken
    }
  }

  function Init<T(==)>(): Sys<T> {
    Sys(Empty(), {}, {}, {}, {}, M.NoMetrics(), [], [], false)
  }

  /** `Signal` wakes some sleeper if there is one. */
  predicate MayWake<T(==)>(s: Sys<T>, w: Waiter) {
    match w
    case Nobody => s.getAsleep == {} && s.drainAsleep == {}
    case Getter(c) => c in s.getAsleep
    case Drainer(c) => c in s.drainAsleep
  }

  function Signalled<T(==)>(s: Sys<T>, w: Waiter): Sys<T> {
    match w
    case Nobody => s
    case Getter(c) => s.(getAsleep := s.getAsleep - {c}, getWoken := s.getWoken + {c})
    case Drainer(c) => s.(drainAsleep := s.drainAsleep - {c}, drainWoken := s.drainWoken + {c})
  }

  function Broadcast<T(==)>(s: Sys<T>): Sys<T> {
    s.(getAsleep := {}, getWoken := s.getWoken + s.getAsleep,
       drainAsleep := {}, drainWoken := s.drainWoken + s.drainAsleep)
  }

  function Woken<T(==)>(s: Sys<T>, wake: Wake, w: Waiter): Sys<T> {
    match wake
    case WakeNobody => s
    case WakeOne => Signalled(s, w)
    case WakeAll => Broadcast(s)
  }

  predicate Enabled<T(==)>(key: T -> T, s: Sys<T>, step: Step<T>) {
    match step
    case Add(item, _, w) => WakeOfAdd(key, s.q, item) == WakeOne ==> MayWake(s, w)
    case Get(c, _) => s.Idle(c)
    case GetAgain(c, _) => c in s.getWoken
    case Done(item, w) => WakeOfDone(key, s.q, item) == WakeOne ==> MayWake(s, w)
    case ShutDown => true
    case Drain(c) => s.Idle(c)
    case DrainAgain(c) => c in s.drainWoken
  }

  /** One pass of `Get` by a caller that holds the lock. */
  function GetPass<T(==)>(key: T -> T, s: Sys<T>, c: nat, now: int): Sys<T> {
    match Outcome(s.q)
    case Item(item) =>
      s.(q := AfterGet(key, s.q),
         metrics := M.AfterGet(s.metrics, item, now),
         delivered := s.delivered + [item])
    case Terminated => s.(reported := true)
    case MustWait => s.(getAsleep := s.getAsleep + {c})
  }

  function DrainPass<T(==)>(s: Sys<T>, c: nat): Sys<T> {
    if DrainMustWait(s.q) then s.(drainAsleep := s.drainAsleep + {c}) else s
  }

  function Next<T(==)>(key: T -> T, s: Sys<T>, step: Step<T>): Sys<T> {
    match step
    case Add(item, now, w) =>
      if Accepts(key, s.q, item) then
        Woken(s.(q := AfterAdd(key, s.q, item),
                 metrics := M.AfterAdd(s.metrics, item, now),
                 accepted := s.accepted + [item]), WakeOfAdd(key, s.q, item), w)
      else s
    case Get(c, now) => GetPass(key, s, c, now)
    case GetAgain(c, now) => GetPass(key, s.(getWoken := s.getWoken - {c}), c, now)
    case Done(item, w) =>
      Woken(s.(q := AfterDone(key, s.q, item), metrics := M.AfterDone(s.metrics, item)),
            WakeOfDone(key, s.q, item), w)
    case ShutDown => Broadcast(s.(q := AfterShutDown(s.q)))
    case Drain(c) => DrainPass(Broadcast(s.(q := AfterDrainCall(s.q))), c)
    case DrainAgain(c) => DrainPass(s.(drainWoken := s.drainWoken - {c}), c)
  }

  function Run<T(==)>(key: T -> T, s: Sys<T>, steps: seq<Step<T>>): Sys<T>
    decreases |steps|
  {
    if steps == [] then s else Run(key, Next(key, s, steps[0]), steps[1..])
  }

  predicate Legal<T(==)>(key: T -> T, s: Sys<T>, steps: seq<Step<T>>)
    decreases |steps|
  {
    steps != [] ==>
      Enabled(key, s, steps[0]) && Legal(key, Next(key, s, steps[0]), steps[1..])
  }

  lemma {:induction false} RunConcat<T>(key: T -> T, s: Sys<T>, a: seq<Step<T>>, b: seq<Step<T>>)
    ensures Run(key, s, a + b) == Run(key, Run(key, s, a), b)
    ensures Legal(key, s, a + b) <==> Legal(key, s, a) && Legal(key, Run(key, s, a), b)
    decreases |a|
  {
    if a == [] {
      assert a + b == b;
    } else {
      assert (a + b)[1..] == a[1..] + b;
      RunConcat(key, Next(key, s, a[0]), a[1..], b);
    }
  }

  // ----- What every step keeps -----

  /** Nobody sleeps through work: queued items never outnumber the consumers already on their way. */
  ghost predicate NoLostWakeup<T>(s: Sys<T>) {
    s.getAsleep != {} ==> !s.q.shuttingDown && |s.q.queue| <= |s.getWoken|
  }

  ghost predicate History<T>(key: T -> T, s: Sys<T>) {
    && s.delivered + s.q.queue == s.accepted
    && s.q.processing <= Keys(key, s.delivered)
    && (s.reported ==> s.q.shuttingDown && s.q.queue == [])
  }

  ghost predicate Safe<T>(key: T -> T, s: Sys<T>) {
    && Consistent(key, s.q)
    && History(key, s)
    && NoLostWakeup(s)
    && s.getAsleep !! s.getWoken
    && (s.drainAsleep + s.drainWoken != {} ==> s.q.shuttingDown)
  }

  lemma KeysGrow<T>(key: T -> T, items: seq<T>, item: T)
    ensures Keys(key, items + [item]) == Keys(key, items) + {key(item)}
  {
    var more := items + [item];
    forall k | k in Keys(key, items) ensures k in Keys(key, more) {
      var i :| 0 <= i < |items| && key(items[i]) == k;
      assert key(more[i]) == k;
    }
    assert key(more[|items|]) == key(item);
  }

  lemma AddKeepsSafe<T>(key: T -> T, s: Sys<T>, item: T, now: int, w: Waiter)
    requires Safe(key, s) && Enabled(key, s, Add(item, now, w))
    ensures Safe(key, Next(key, s, Add(item, now, w)))
  {
    AddKeepsConsistent(key, s.q, item);
    if Accepts(key, s.q, item) {
      assert s.delivered + (s.q.queue + [item]) == s.accepted + [item];
    }
  }

  lemma GetPassKeepsSafe<T>(key: T -> T, s: Sys<T>, c: nat, now: int)
    requires Consistent(key, s.q) && History(key, s)
    requires s.getAsleep != {} ==> !s.q.shuttingDown && |s.q.queue| <= |s.getWoken| + 1
    requires s.getAsleep !! s.getWoken && c !in s.getAsleep && c !in s.getWoken
    requires s.drainAsleep + s.drainWoken != {} ==> s.q.shuttingDown
    ensures Safe(key, GetPass(key, s, c, now))
  {
    match Outcome(s.q)
    case Item(item) =>
      GetKeepsConsistent(key, s.q);
      KeysGrow(key, s.delivered, item);
      assert s.delivered + [item] + s.q.queue[1..] == s.accepted;
    case Terminated =>
    case MustWait =>
  }

  lemma DoneKeepsSafe<T>(key: T -> T, s: Sys<T>, item: T, w: Waiter)
    requires Safe(key, s) && Enabled(key, s, Done(item, w))
    ensures Safe(key, Next(key, s, Done(item, w)))
  {
  }

  lemma GetKeepsSafe<T>(key: T -> T, s: Sys<T>, step: Step<T>)
    requires Safe(key, s) && Enabled(key, s, step) && (step.Get? || step.GetAgain?)
    ensures Safe(key, Next(key, s, step))
  {
    if step.Get? {
      GetPassKeepsSafe(key, s, step.caller, step.now);
    } else {
      GetPassKeepsSafe(key, s.(getWoken := s.getWoken - {step.caller}), step.caller, step.now);
    }
  }

  lemma ShutDownKeepsSafe<T>(key: T -> T, s: Sys<T>, step: Step<T>)
    requires Safe(key, s) && Enabled(key, s, step) && (step.ShutDown? || step.Drain? || step.DrainAgain?)
    ensures Safe(key, Next(key, s, step))
  {
  }

  lemma NextKeepsSafe<T>(key: T -> T, s: Sys<T>, step: Step<T>)
    requires Safe(key, s) && Enabled(key, s, step)
    ensures Safe(key, Next(key, s, step))
  {
    if step.Add? {
      AddKeepsSafe(key, s, step.item, step.now, step.wakes);
    } else if step.Done? {
      DoneKeepsSafe(key, s, step.item, step.wakes);
    } else if step.Get? || step.GetAgain? {
      GetKeepsSafe(key, s, step);
    } else {
      ShutDownKeepsSafe(key, s, step);
    }
  }

  lemma {:induction false} RunKeepsSafe<T>(key: T -> T, s: Sys<T>, steps: seq<Step<T>>)
    requires Safe(key, s) && Legal(key, s, steps)
    ensures Safe(key, Run(key, s, steps))
    decreases |steps|
  {
    if steps != [] {
      NextKeepsSafe(key, s, steps[0]);
      RunKeepsSafe(key, Next(key, s, steps[0]), steps[1..]);
    }
  }

  /** What a caller of `Get` gets when it holds the lock, and that this is what the history records. */
  lemma GetRecordsItsOutcome<T>(key: T -> T, s: Sys<T>, step: Step<T>)
    requires step.Get? || step.GetAgain?
    ensures var s' := Next(key, s, step);
            if s.q.queue != [] then
              s'.delivered == s.delivered + [s.q.queue[0]] && s'.q.queue == s.q.queue[1..] && s'.reported == s.reported
            else
              && s'.delivered == s.delivered && s'.q == s.q
              && s'.reported == (s.reported || s.q.shuttingDown)
              && (step.caller in s'.getAsleep <==> !s.q.shuttingDown || step.caller in s.getAsleep)
  {
  }

  // ----- Results over every run -----

  /** Wakeups are never lost, and items leave in the order they were accepted, each once. */
  lemma EveryRunIsSafe<T>(key: T -> T, steps: seq<Step<T>>)
    requires Legal(key, Init(), steps)
    ensures var s := Run(key, Init(), steps);
            && Safe(key, s)
            && (s.getAsleep != {} ==> !s.q.shuttingDown && |s.q.queue| <= |s.getWoken|)
            && s.delivered + s.q.queue == s.accepted
            && |s.q.dirty| == |s.q.queue|
  {
    assert Safe(key, Init<T>());
    RunKeepsSafe(key, Init(), steps);
    LenIsDirtyCount(key, Run(key, Init(), steps).q.queue);
  }

  lemma StepAfterShutDown<T>(key: T -> T, s: Sys<T>, step: Step<T>)
    requires s.q.shuttingDown
    ensures var s' := Next(key, s, step);
            && s'.q.shuttingDown
            && s'.accepted == s.accepted
            && |s'.q.queue| <= |s.q.queue|
            && (s.reported ==> s'.reported)
  {
  }

  /** After shutdown nothing is accepted any more, and the flag never goes back. */
  lemma {:induction false} ShutDownIsFinal<T>(key: T -> T, s: Sys<T>, steps: seq<Step<T>>)
    requires s.q.shuttingDown && Legal(key, s, steps)
    ensures var f := Run(key, s, steps);
            && f.q.shuttingDown
            && f.accepted == s.accepted
            && |f.q.queue| <= |s.q.queue|
            && (s.reported ==> f.reported)
    decreases |steps|
  {
    if steps != [] {
      StepAfterShutDown(key, s, steps[0]);
      ShutDownIsFinal(key, Next(key, s, steps[0]), steps[1..]);
    }
  }

  /**
   The first time any Get reports shutdown, every item ever accepted has been
   delivered; from then on nothing is accepted or delivered, and every Get
   reports shutdown at once.
   */
  lemma ShutDownIsLossless<T>(key: T -> T, before: seq<Step<T>>, after: seq<Step<T>>)
    requires Legal(key, Init(), before + after)
    requires Run(key, Init(), before).reported
    ensures var s := Run(key, Init(), before);
            var f := Run(key, Init(), before + after);
            && s.delivered == s.accepted
            && f.delivered == s.delivered == f.accepted
            && Outcome(f.q) == Terminated
  {
    RunConcat(key, Init(), before, after);
    EveryRunIsSafe(key, before);
    EveryRunIsSafe(key, before + after);
    ShutDownIsFinal(key, Run(key, Init(), before), after);
  }

  function Sleepers<T(==)>(s: Sys<T>): nat {
    |s.getAsleep| + |s.drainAsleep|
  }

  lemma SignalWakesOne<T>(s: Sys<T>, w: Waiter)
    requires MayWake(s, w)
    ensures Sleepers(Signalled(s, w)) == if Sleepers(s) > 0 then Sleepers(s) - 1 else 0
  {
    match w
    case Nobody =>
    case Getter(c) => assert |s.getAsleep - {c}| == |s.getAsleep| - 1;
    case Drainer(c) => assert |s.drainAsleep - {c}| == |s.drainAsleep| - 1;
  }

  /**
   Adding and finishing wake one sleeper at most: an accepted add and a Done
   that leaves nothing in processing wake exactly one, if anybody sleeps, and
   all others wake nobody.
   */
  lemma AddAndDoneSignal<T>(key: T -> T, s: Sys<T>, step: Step<T>)
    requires Enabled(key, s, step) && (step.Add? || step.Done?)
    ensures var signals := if step.Add? then Accepts(key, s.q, step.item) else s.q.processing <= {key(step.item)};
            Sleepers(Next(key, s, step)) == if signals && Sleepers(s) > 0 then Sleepers(s) - 1 else Sleepers(s)
  {
    var signals := if step.Add? then Accepts(key, s.q, step.item) else s.q.processing <= {key(step.item)};
    if step.Done? {
      assert s.q.processing - {key(step.item)} == {} <==> s.q.processing <= {key(step.item)};
    }
    if signals {
      SignalWakesOne(s, step.wakes);
    }
  }

  // ----- Draining -----

  /** Some drain call has not returned. */
  predicate Draining<T(==)>(s: Sys<T>) {
    s.drainAsleep + s.drainWoken != {}
  }

  /** The step is a drain call that has to wait beside another one. */
  predicate Overlaps<T(==)>(s: Sys<T>, step: Step<T>) {
    step.Drain? && Draining(s) && s.q.processing != {}
  }

  predicate NeverOverlaps<T(==)>(key: T -> T, s: Sys<T>, steps: seq<Step<T>>)
    decreases |steps|
  {
    steps != [] ==> !Overlaps(s, steps[0]) && NeverOverlaps(key, Next(key, s, steps[0]), steps[1..])
  }

  ghost predicate DrainNotStranded<T>(s: Sys<T>) {
    && |s.drainAsleep| + |s.drainWoken| <= 1
    && (s.drainAsleep != {} ==> DrainMustWait(s.q))
  }

  lemma DoneKeepsDrain<T>(key: T -> T, s: Sys<T>, item: T, w: Waiter)
    requires Safe(key, s) && Enabled(key, s, Done(item, w)) && DrainNotStranded(s)
    ensures DrainNotStranded(Next(key, s, Done(item, w)))
  {
    if AfterDone(key, s.q, item).processing == {} && s.drainAsleep != {} {
      assert w.Drainer? && |s.drainAsleep - {w.caller}| == |s.drainAsleep| - 1;
    }
  }

  lemma DrainCallKeepsDrain<T>(key: T -> T, s: Sys<T>, c: nat)
    requires DrainNotStranded(s) && !Overlaps(s, Drain(c))
    ensures DrainNotStranded(Next(key, s, Drain(c)))
  {
    assert |s.drainWoken + s.drainAsleep| <= |s.drainAsleep| + |s.drainWoken|;
    if !Draining(s) {
      assert s.drainWoken + s.drainAsleep == {};
    }
  }

  lemma DrainAgainKeepsDrain<T>(key: T -> T, s: Sys<T>, c: nat)
    requires DrainNotStranded(s) && c in s.drainWoken
    ensures DrainNotStranded(Next(key, s, DrainAgain(c)))
  {
    assert |s.drainWoken - {c}| == |s.drainWoken| - 1;
  }

  lemma OthersKeepDrain<T>(key: T -> T, s: Sys<T>, step: Step<T>)
    requires Safe(key, s) && Enabled(key, s, step) && DrainNotStranded(s)
    requires step.Add? || step.Get? || step.GetAgain? || step.ShutDown?
    ensures DrainNotStranded(Next(key, s, step))
  {
  }

  lemma NextKeepsDrain<T>(key: T -> T, s: Sys<T>, step: Step<T>)
    requires Safe(key, s) && Enabled(key, s, step) && DrainNotStranded(s)
    requires !Overlaps(s, step)
    ensures DrainNotStranded(Next(key, s, step))
  {
    if step.Done? {
      DoneKeepsDrain(key, s, step.item, step.wakes);
    } else if step.Drain? {
      DrainCallKeepsDrain(key, s, step.caller);
    } else if step.DrainAgain? {
      DrainAgainKeepsDrain(key, s, step.caller);
    } else {
      OthersKeepDrain(key, s, step);
    }
  }

  lemma {:induction false} RunKeepsDrain<T>(key: T -> T, s: Sys<T>, steps: seq<Step<T>>)
    requires Safe(key, s) && Legal(key, s, steps) && DrainNotStranded(s) && NeverOverlaps(key, s, steps)
    ensures DrainNotStranded(Run(key, s, steps))
    decreases |steps|
  {
    if steps != [] {
      NextKeepsSafe(key, s, steps[0]);
      NextKeepsDrain(key, s, steps[0]);
      RunKeepsDrain(key, Next(key, s, steps[0]), steps[1..]);
    }
  }

  /** If no drain call has to wait beside another one, a sleeping drainer always has something to wait for. */
  lemma DrainIsNeverStranded<T>(key: T -> T, steps: seq<Step<T>>)
    requires Legal(key, Init(), steps) && NeverOverlaps(key, Init(), steps)
    ensures var s := Run(key, Init(), steps);
            s.drainAsleep != {} ==> s.q.processing != {} && s.q.drain
  {
    RunKeepsDrain(key, Init(), steps);
  }

  lemma Extend<T>(key: T -> T, s: Sys<T>, steps: seq<Step<T>>, step: Step<T>)
    requires Legal(key, s, steps) && Enabled(key, Run(key, s, steps), step)
    ensures Legal(key, s, steps + [step])
    ensures Run(key, s, steps + [step]) == Next(key, Run(key, s, steps), step)
  {
    RunConcat(key, s, steps, [step]);
    var f := Run(key, s, steps);
    assert [step][1..] == [];
    assert Run(key, f, [step]) == Run(key, Next(key, f, step), []);
  }

  /** Finish everything that is being processed; the last Done wakes drainer `c`. */
  lemma {:induction false} FinishAll<T>(key: T -> T, s: Sys<T>, c: nat) returns (steps: seq<Step<T>>)
    requires Safe(key, s) && c in s.drainAsleep && DrainMustWait(s.q)
    ensures steps != [] && Legal(key, s, steps) && forall i :: 0 <= i < |steps| ==> steps[i].Done?
    ensures var f := Run(key, s, steps);
            f.q == s.q.(processing := {}) && c in f.drainWoken && f.drainAsleep == s.drainAsleep - {c}
    decreases |s.q.processing|
  {
    var p :| p in s.q.processing;
    var i :| 0 <= i < |s.delivered| && key(s.delivered[i]) == p;
    var item := s.delivered[i];
    var step := Done(item, if s.q.processing == {p} then Drainer(c) else Nobody);
    var s' := Next(key, s, step);
    if s.q.processing == {p} {
      assert AfterDone(key, s.q, item).processing == {};
      steps := [step];
      assert Run(key, s, steps) == Run(key, s', steps[1..]) == s';
    } else {
      assert s.q.processing == {p} + (s.q.processing - {p});
      NextKeepsSafe(key, s, step);
      var rest := FinishAll(key, s', c);
      steps := [step] + rest;
      assert steps[1..] == rest;
    }
  }

  /** A drainer sleeps with nothing to wait for: only some later call can wake it. */
  ghost predicate Stranded<T>(s: Sys<T>) {
    s.drainAsleep != {} && !DrainMustWait(s.q)
  }

  lemma {:induction false} NoDrainNoOverlap<T>(key: T -> T, s: Sys<T>, steps: seq<Step<T>>)
    requires forall i :: 0 <= i < |steps| ==> !steps[i].Drain?
    ensures NeverOverlaps(key, s, steps)
    decreases |steps|
  {
    if steps != [] {
      NoDrainNoOverlap(key, Next(key, s, steps[0]), steps[1..]);
    }
  }

  /** A drain call that has to wait beside another one can leave one of the two stranded, from any state. */
  lemma OverlapCanStrand<T>(key: T -> T, s: Sys<T>, c: nat) returns (steps: seq<Step<T>>)
    requires Safe(key, s) && s.Idle(c) && Overlaps(s, Drain(c))
    ensures Legal(key, s, [Drain(c)] + steps) && Stranded(Run(key, s, [Drain(c)] + steps))
    ensures NeverOverlaps(key, Next(key, s, Drain(c)), steps)
  {
    var d :| d in s.drainAsleep + s.drainWoken;
    var s1 := Next(key, s, Drain(c));
    assert c in s1.drainAsleep && d in s1.drainWoken;
    NextKeepsSafe(key, s, Drain(c));
    var s2 := Next(key, s1, DrainAgain(d));
    assert c in s2.drainAsleep && d in s2.drainAsleep && c != d;
    NextKeepsSafe(key, s1, DrainAgain(d));
    var rest := FinishAll(key, s2, c);
    steps := [DrainAgain(d)] + rest;
    assert ([Drain(c)] + steps)[1..] == steps && steps[1..] == rest;
    assert Legal(key, s1, steps) && Run(key, s1, steps) == Run(key, s2, rest);
    assert d in Run(key, s2, rest).drainAsleep;
    NoDrainNoOverlap(key, s1, steps);
  }

  /**
   So it is exactly the overlap that strands: a drain call made while nobody is
   stranded and at most one drain is outstanding can lead to a stranded drainer,
   without any later overlap, if and only if another drain is outstanding and
   something is being processed at the call.
   */
  lemma DrainCanStrandIffOverlapping<T(!new)>(key: T -> T, s: Sys<T>, c: nat)
    requires Safe(key, s) && s.Idle(c) && DrainNotStranded(s)
    ensures (exists steps :: Legal(key, s, [Drain(c)] + steps)
                             && NeverOverlaps(key, Next(key, s, Drain(c)), steps)
                             && Stranded(Run(key, s, [Drain(c)] + steps)))
            <==> Overlaps(s, Drain(c))
  {
    var s1 := Next(key, s, Drain(c));
    if Overlaps(s, Drain(c)) {
      var steps := OverlapCanStrand(key, s, c);
    } else {
      NextKeepsSafe(key, s, Drain(c));
      NextKeepsDrain(key, s, Drain(c));
      forall steps | Legal(key, s, [Drain(c)] + steps) && NeverOverlaps(key, s1, steps)
        ensures !Stranded(Run(key, s, [Drain(c)] + steps))
      {
        assert ([Drain(c)] + steps)[1..] == steps;
        RunKeepsDrain(key, s1, steps);
      }
    }
  }

  /** Such a state is reached with any key function and item: fetch the item, then ask for a drain. */
  lemma OverlapIsReachable<T>(key: T -> T, item: T) returns (steps: seq<Step<T>>)
    ensures Legal(key, Init(), steps)
    ensures var s := Run(key, Init(), steps); Safe(key, s) && s.Idle(3) && Overlaps(s, Drain(3))
  {
    var s0 := Init<T>();
    Extend(key, s0, [], Add(item, 0, Nobody));
    steps := [] + [Add(item, 0, Nobody)];
    var s1 := Run(key, s0, steps);
    Extend(key, s0, steps, Get(1, 0));
    steps := steps + [Get(1, 0)];
    assert s1.q.queue == [item] && s1.q.queue[1..] == [];
    assert Run(key, s0, steps).q == State([], {}, {key(item)}, false, false);
    Extend(key, s0, steps, Drain(2));
    steps := steps + [Drain(2)];
    assert Run(key, s0, steps).drainAsleep == {2};
    EveryRunIsSafe(key, steps);
  }

  lemma StepsStayReleased<T>(key: T -> T, s: Sys<T>, step: Step<T>)
    requires Enabled(key, s, step) && !s.q.drain && s.drainAsleep == {} && !step.Drain?
    ensures !Next(key, s, step).q.drain && Next(key, s, step).drainAsleep == {}
    ensures Next(key, s, step).drainWoken <= s.drainWoken
  {
  }

  lemma {:induction false} ReleasedStayReleased<T>(key: T -> T, s: Sys<T>, steps: seq<Step<T>>)
    requires Legal(key, s, steps) && !s.q.drain && s.drainAsleep == {}
    requires forall i :: 0 <= i < |steps| ==> !steps[i].Drain?
    ensures Run(key, s, steps).drainAsleep == {} && Run(key, s, steps).drainWoken <= s.drainWoken
    decreases |steps|
  {
    if steps != [] {
      StepsStayReleased(key, s, steps[0]);
      ReleasedStayReleased(key, Next(key, s, steps[0]), steps[1..]);
    }
  }

  /** `ShutDown` after a drain call forces it to end: every drainer is on its way out and none sleeps again. */
  lemma ShutDownReleasesDrainers<T>(key: T -> T, s: Sys<T>, steps: seq<Step<T>>)
    requires Legal(key, s, [ShutDown] + steps) && forall i :: 0 <= i < |steps| ==> !steps[i].Drain?
    ensures var f := Run(key, s, [ShutDown] + steps);
            f.drainAsleep == {} && f.drainWoken <= s.drainAsleep + s.drainWoken
  {
    assert ([ShutDown] + steps)[1..] == steps;
    ReleasedStayReleased(key, Next(key, s, ShutDown), steps);
  }

  // ----- Work left after shutdown -----

  function WorkLeft<T(==)>(q: State<T>): nat {
    2 * |q.queue| + |q.processing|
  }

  /** A Get that delivers, or a Done that finishes something. */
  predicate Effective<T(==)>(key: T -> T, s: Sys<T>, step: Step<T>) {
    match step
    case Get(_, _) => s.q.queue != []
    case GetAgain(_, _) => s.q.queue != []
    case Done(item, _) => key(item) in s.q.processing
    case _ => false
  }

  function EffectiveSteps<T(==)>(key: T -> T, s: Sys<T>, steps: seq<Step<T>>): nat
    decreases |steps|
  {
    if steps == [] then 0
    else (if Effective(key, s, steps[0]) then 1 else 0) + EffectiveSteps(key, Next(key, s, steps[0]), steps[1..])
  }

  lemma GetUsesWork<T>(key: T -> T, s: Sys<T>, c: nat, now: int)
    requires Consistent(key, s.q) && s.q.shuttingDown
    ensures WorkLeft(GetPass(key, s, c, now).q) + (if s.q.queue != [] then 1 else 0) == WorkLeft(s.q)
  {
    if s.q.queue != [] {
      GetKeepsConsistent(key, s.q);
    }
  }

  lemma DoneUsesWork<T>(key: T -> T, q: State<T>, item: T)
    ensures WorkLeft(AfterDone(key, q, item)) + (if key(item) in q.processing then 1 else 0) == WorkLeft(q)
  {
    if key(item) !in q.processing {
      assert q.processing - {key(item)} == q.processing;
    }
  }

  lemma StepUsesWork<T>(key: T -> T, s: Sys<T>, step: Step<T>)
    requires Consistent(key, s.q) && s.q.shuttingDown
    ensures var s' := Next(key, s, step);
            WorkLeft(s'.q) + (if Effective(key, s, step) then 1 else 0) == WorkLeft(s.q)
  {
    if step.Get? {
      GetUsesWork(key, s, step.caller, step.now);
    } else if step.GetAgain? {
      GetUsesWork(key, s.(getWoken := s.getWoken - {step.caller}), step.caller, step.now);
    } else if step.Done? {
      DoneUsesWork(key, s.q, step.item);
    } else {
      OthersUseNoWork(key, s, step);
    }
  }

  lemma OthersUseNoWork<T>(key: T -> T, s: Sys<T>, step: Step<T>)
    requires s.q.shuttingDown && (step.Add? || step.ShutDown? || step.Drain? || step.DrainAgain?)
    ensures Next(key, s, step).q.queue == s.q.queue && Next(key, s, step).q.processing == s.q.processing
  {
  }

  /** Once shut down, every effective step uses up exactly one unit of the work left, so there are only so many. */
  lemma {:induction false} DrainIsBounded<T>(key: T -> T, s: Sys<T>, steps: seq<Step<T>>)
    requires Safe(key, s) && s.q.shuttingDown && Legal(key, s, steps)
    ensures EffectiveSteps(key, s, steps) + WorkLeft(Run(key, s, steps).q) == WorkLeft(s.q)
    decreases |steps|
  {
    if steps == [] {
      assert Run(key, s, steps) == s;
    } else {
      var s' := Next(key, s, steps[0]);
      StepUsesWork(key, s, steps[0]);
      assert Safe(key, s') && s'.q.shuttingDown by {
        NextKeepsSafe(key, s, steps[0]);
        StepAfterShutDown(key, s, steps[0]);
      }
      DrainIsBounded(key, s', steps[1..]);
      assert Run(key, s, steps) == Run(key, s', steps[1..]);
    }
  }

  // ----- What a drain promises -----

  /** After `steps`, the drain call that `c` made in `s` is about to return because nothing is being processed. */
  ghost predicate ReturnsDrained<T>(key: T -> T, s: Sys<T>, c: nat, steps: seq<Step<T>>) {
    && Legal(key, s, [Drain(c)] + steps)
    && var f := Run(key, s, [Drain(c)] + steps);
       && f.q.drain && f.q.processing == {}
       && (steps == [] || c in f.drainWoken)
  }

  lemma {:induction false} EmptyStaysEmpty<T>(key: T -> T, s: Sys<T>, steps: seq<Step<T>>)
    requires s.q.shuttingDown && s.q.queue == [] && Legal(key, s, steps)
    ensures Run(key, s, steps).q.queue == []
  {
    ShutDownIsFinal(key, s, steps);
  }

  /**
   The documentation has a drain wait for every queued item. It waits for the
   items being processed only: whichever way the callers interleave, a drain
   that returns has emptied the queue exactly when the queue was already empty
   at the call.
   */
  lemma DrainEmptiesQueueIffCalledOnEmptyQueue<T(!new)>(key: T -> T, s: Sys<T>, c: nat)
    requires Safe(key, s) && s.Idle(c)
    ensures (forall steps :: ReturnsDrained(key, s, c, steps) ==>
                               Run(key, s, [Drain(c)] + steps).q.queue == [])
            <==> s.q.queue == []
  {
    var s1 := Next(key, s, Drain(c));
    assert Enabled(key, s, Drain(c));
    NextKeepsSafe(key, s, Drain(c));
    forall steps | s.q.queue == [] && ReturnsDrained(key, s, c, steps)
      ensures Run(key, s, [Drain(c)] + steps).q.queue == []
    {
      assert ([Drain(c)] + steps)[1..] == steps;
      EmptyStaysEmpty(key, s1, steps);
    }
    if s.q.queue != [] {
      var steps: seq<Step<T>> := [];
      if s.q.processing != {} {
        steps := FinishAll(key, s1, c);
      }
      assert ([Drain(c)] + steps)[1..] == steps;
      assert Run(key, s, [Drain(c)] + steps) == Run(key, s1, steps);
      assert ReturnsDrained(key, s, c, steps);
      assert Run(key, s, [Drain(c)] + steps).q.queue == s.q.queue;
    }
  }

  // ----- Metrics -----

  /** The gauge, the counter and the add-time map describe the queue. */
  ghost predicate MetricsAgree<T(!new)>(s: Sys<T>) {
    && s.metrics.depth == |s.q.queue|
    && s.metrics.adds == |s.accepted|
    && (forall x :: x in s.metrics.addTimes <==> x in s.q.queue)
  }

  lemma NextKeepsMetrics<T(!new)>(key: T -> T, s: Sys<T>, step: Step<T>)
    requires Safe(key, s) && MetricsAgree(s)
    ensures MetricsAgree(Next(key, s, step))
  {
    if step.Add? {
      AddKeepsMetrics(key, s, step.item, step.now, step.wakes);
    } else if step.Get? {
      GetPassKeepsMetrics(key, s, step.caller, step.now);
    } else if step.GetAgain? {
      GetPassKeepsMetrics(key, s.(getWoken := s.getWoken - {step.caller}), step.caller, step.now);
    } else {
      OthersKeepMetrics(key, s, step);
    }
  }

  lemma AddKeepsMetrics<T(!new)>(key: T -> T, s: Sys<T>, item: T, now: int, w: Waiter)
    requires MetricsAgree(s)
    ensures MetricsAgree(Next(key, s, Add(item, now, w)))
  {
  }

  lemma OthersKeepMetrics<T(!new)>(key: T -> T, s: Sys<T>, step: Step<T>)
    requires MetricsAgree(s) && (step.Done? || step.ShutDown? || step.Drain? || step.DrainAgain?)
    ensures MetricsAgree(Next(key, s, step))
  {
    assert Next(key, s, step).q.queue == s.q.queue;
  }

  lemma GetPassKeepsMetrics<T(!new)>(key: T -> T, s: Sys<T>, c: nat, now: int)
    requires Consistent(key, s.q) && MetricsAgree(s)
    ensures MetricsAgree(GetPass(key, s, c, now))
  {
    var s' := GetPass(key, s, c, now);
    if s.q.queue != [] {
      forall x ensures x in s'.metrics.addTimes <==> x in s.q.queue[1..] {
        if x in s.q.queue && x != s.q.queue[0] {
          var i :| 0 <= i < |s.q.queue| && s.q.queue[i] == x;
          assert s.q.queue[1..][i - 1] == x;
        }
      }
    }
  }

  lemma {:induction false} MetricsAgreeInEveryRun<T(!new)>(key: T -> T, s: Sys<T>, steps: seq<Step<T>>)
    requires Safe(key, s) && MetricsAgree(s) && Legal(key, s, steps)
    ensures MetricsAgree(Run(key, s, steps))
    decreases |steps|
  {
    if steps != [] {
      NextKeepsSafe(key, s, steps[0]);
      NextKeepsMetrics(key, s, steps[0]);
      MetricsAgreeInEveryRun(key, Next(key, s, steps[0]), steps[1..]);
    }
  }

  /** An accepted item is stamped with the time of its add, a delivered one with the time of its delivery; no stamp moves. */
  lemma StampsAreTaken<T(!new)>(key: T -> T, s: Sys<T>, step: Step<T>)
    requires Safe(key, s) && MetricsAgree(s)
    ensures var m, m' := s.metrics, Next(key, s, step).metrics;
            match step
            case Add(item, now, _) =>
              && m'.processingStartTimes == m.processingStartTimes
              && m'.addTimes == if Accepts(key, s.q, item) then m.addTimes[item := now] else m.addTimes
            case Done(item, _) =>
              m'.addTimes == m.addTimes && m'.processingStartTimes == m.processingStartTimes - {item}
            case Get(_, now) => Delivered(s, m', now)
            case GetAgain(_, now) => Delivered(s, m', now)
            case _ => m' == m
  {
    if step.Add? {
      AddStamps(key, s, step.item, step.now, step.wakes);
    } else if step.Get? {
      GetStamps(key, s, step.caller, step.now);
    } else if step.GetAgain? {
      GetStamps(key, s.(getWoken := s.getWoken - {step.caller}), step.caller, step.now);
    } else {
      OtherStamps(key, s, step);
    }
  }

  lemma OtherStamps<T(!new)>(key: T -> T, s: Sys<T>, step: Step<T>)
    requires !step.Add? && !step.Get? && !step.GetAgain?
    ensures Next(key, s, step).metrics == if step.Done? then M.AfterDone(s.metrics, step.item) else s.metrics
  {
  }

  lemma AddStamps<T(!new)>(key: T -> T, s: Sys<T>, item: T, now: int, w: Waiter)
    requires Consistent(key, s.q) && MetricsAgree(s)
    ensures var m := Next(key, s, Add(item, now, w)).metrics;
            && m.processingStartTimes == s.metrics.processingStartTimes
            && m.addTimes == if Accepts(key, s.q, item) then s.metrics.addTimes[item := now] else s.metrics.addTimes
  {
    QueuedKeys(key, s.q.queue);
  }

  lemma GetStamps<T(!new)>(key: T -> T, s: Sys<T>, c: nat, now: int)
    ensures Delivered(s, GetPass(key, s, c, now).metrics, now)
  {
  }

  lemma QueuedKeys<T(!new)>(key: T -> T, items: seq<T>)
    ensures forall item :: item in items ==> key(item) in Keys(key, items)
  {
    forall item | item in items ensures key(item) in Keys(key, items) {
      var i :| 0 <= i < |items| && items[i] == item;
      assert key(items[i]) in Keys(key, items);
    }
  }

  ghost predicate Delivered<T(!new)>(s: Sys<T>, m: M.Metrics<T>, now: int) {
    if s.q.queue == [] then m == s.metrics
    else
      && m.addTimes == s.metrics.addTimes - {s.q.queue[0]}
      && m.processingStartTimes == s.metrics.processingStartTimes[s.q.queue[0] := now]
  }

  /** The processing-start map names exactly the keys being processed. */
  ghost predicate StartsAgree<T>(s: Sys<T>) {
    s.metrics.processingStartTimes.Keys == s.q.processing
  }

  /** What a step has to respect for that to stay true: the maps are indexed by items, the sets by keys. */
  predicate UsesItemsAsKeys<T(==)>(key: T -> T, s: Sys<T>, step: Step<T>) {
    match step
    case Get(_, _) => s.q.queue != [] ==> key(s.q.queue[0]) == s.q.queue[0]
    case GetAgain(_, _) => s.q.queue != [] ==> key(s.q.queue[0]) == s.q.queue[0]
    case Done(item, _) => key(item) == item || (key(item) !in s.q.processing && item !in s.q.processing)
    case _ => true
  }

  /**
   The start times keep agreeing with the processing set exactly when items are
   their own keys. A queue of changes finished by key alone breaks this: its
   start times are never removed.
   */
  lemma StartsAgreeIffItemsAreKeys<T>(key: T -> T, s: Sys<T>, step: Step<T>)
    requires Safe(key, s) && Enabled(key, s, step) && StartsAgree(s)
    ensures StartsAgree(Next(key, s, step)) <==> UsesItemsAsKeys(key, s, step)
  {
    if step.Get? {
      GetStarts(key, s, step.caller, step.now);
    } else if step.GetAgain? {
      GetStarts(key, s.(getWoken := s.getWoken - {step.caller}), step.caller, step.now);
    } else if step.Done? {
      DoneStarts(key, s, step.item);
    }
  }

  lemma GetStarts<T>(key: T -> T, s: Sys<T>, c: nat, now: int)
    requires Consistent(key, s.q) && StartsAgree(s)
    ensures StartsAgree(GetPass(key, s, c, now)) <==> (s.q.queue != [] ==> key(s.q.queue[0]) == s.q.queue[0])
  {
    if s.q.queue != [] {
      var item := s.q.queue[0];
      var s' := GetPass(key, s, c, now);
      GetKeepsConsistent(key, s.q);
      assert s'.metrics.processingStartTimes.Keys == s.q.processing + {item};
      assert key(item) in s'.q.processing;
    }
  }

  lemma DoneStarts<T>(key: T -> T, s: Sys<T>, item: T)
    requires StartsAgree(s)
    ensures M.AfterDone(s.metrics, item).processingStartTimes.Keys == AfterDone(key, s.q, item).processing
            <==> key(item) == item || (key(item) !in s.q.processing && item !in s.q.processing)
  {
    var starts := M.AfterDone(s.metrics, item).processingStartTimes.Keys;
    assert starts == s.q.processing - {item};
    if key(item) != item {
      assert item in s.q.processing ==> item !in starts && item in AfterDone(key, s.q, item).processing;
      assert key(item) in s.q.processing ==> key(item) in starts && key(item) !in AfterDone(key, s.q, item).processing;
    }
  }

  lemma {:induction false} StartsAgreeInEveryRun<T(!new)>(key: T -> T, s: Sys<T>, steps: seq<Step<T>>)
    requires forall x :: key(x) == x
    requires Safe(key, s) && StartsAgree(s) && Legal(key, s, steps)
    ensures StartsAgree(Run(key, s, steps))
    decreases |steps|
  {
    if steps != [] {
      NextKeepsSafe(key, s, steps[0]);
      StartsAgreeIffItemsAreKeys(key, s, steps[0]);
      StartsAgreeInEveryRun(key, Next(key, s, steps[0]), steps[1..]);
    }
  }

  /** A step of a user that adds full items and finishes them by their key. */
  predicate FinishesByKey<T(==)>(key: T -> T, step: Step<T>) {
    match step
    case Add(item, _, _) => key(item) != item
    case Done(item, _) => key(item) == item
    case _ => true
  }

  ghost predicate StartsPileUp<T(!new)>(key: T -> T, s: Sys<T>) {
    && (forall x :: x in s.q.queue || x in s.delivered ==> key(x) != x)
    && (forall x :: x in s.metrics.processingStartTimes <==> x in s.delivered)
  }

  lemma NextKeepsStarts<T(!new)>(key: T -> T, s: Sys<T>, step: Step<T>)
    requires StartsPileUp(key, s) && FinishesByKey(key, step)
    ensures StartsPileUp(key, Next(key, s, step))
  {
    match step
    case Add(item, now, w) =>
    case Get(c, now) =>
    case GetAgain(c, now) =>
    case Done(item, w) =>
      assert item !in s.delivered;
    case ShutDown =>
    case Drain(c) =>
    case DrainAgain(c) =>
  }

  /** Used that way, the map keeps an entry for every item ever delivered, whatever has been finished. */
  lemma {:induction false} StartTimesAreNeverRemoved<T(!new)>(key: T -> T, s: Sys<T>, steps: seq<Step<T>>)
    requires StartsPileUp(key, s)
    requires forall i :: 0 <= i < |steps| ==> FinishesByKey(key, steps[i])
    ensures StartsPileUp(key, Run(key, s, steps))
    decreases |steps|
  {
    if steps != [] {
      NextKeepsStarts(key, s, steps[0]);
      StartTimesAreNeverRemoved(key, Next(key, s, steps[0]), steps[1..]);
    }
  }
}
