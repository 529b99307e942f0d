/**
 The goroutine executor's run of one task: the loop that polls its capacity-one
 control channels and calls the business logic, the goroutine around it that
 waits for the loop or for a forced exit, and the caller that reports the start.
 */
module RunLoop {
  import opened TaskModel

  datatype Event = Emit(status: TaskStatus) | Call

  /** Where the loop is: polling, waiting inside a pause, returned, or gone through a panic. */
  datatype Loop = Polling | Held | Returned | Crashed

  datatype Outcome = More | Finish | Fail | Panic

  /** Which of the control channels hold a token. */
  datatype Tokens = Tokens(stop: bool, pause: bool, resume: bool, exit: bool)

  datatype Executor = Executor(
    tokens: Tokens,
    loop: Loop,
    watching: bool,             // the surrounding goroutine has not ended
    exited: bool,               // it ended through a forced exit
    start: Option<nat>,         // which result on the channel is the Running that `Run` itself reports
    listed: Option<TaskStatus>, // the executor's status map
    events: seq<Event>,         // what the loop itself did
    results: seq<TaskStatus>)   // everything on the result channel

  datatype Step =
    | SendStop | SendPause | SendResume | SendExit
    | TakeStop | TakePause | TakeResume
    | CallLogic(outcome: Outcome)
    | LoopEnded
    | ForceExit
    | ReportStart

  function Init(): Executor {
    Executor(Tokens(false, false, false, false), Polling, true, false, None, Some(Running), [], [])
  }

  predicate Enabled(e: Executor, step: Step) {
    match step
    case SendStop => !e.tokens.stop
    case SendPause => !e.tokens.stop && !e.tokens.pause
    case SendResume => !e.tokens.resume
    case SendExit => !e.tokens.stop && !e.tokens.exit
    case TakeStop => e.tokens.stop && e.loop in {Polling, Held}
    case TakePause => e.tokens.pause && e.loop == Polling
    case TakeResume => e.tokens.resume && e.loop == Held
    case CallLogic(_) => e.loop == Polling && !e.tokens.stop && !e.tokens.pause
    case LoopEnded => e.watching && e.loop in {Returned, Crashed}
    case ForceExit => e.watching && e.tokens.exit
    case ReportStart => e.start.None?
  }

  /** Record the status, dropping final ones, and put it on the result channel. */
  function Publish(e: Executor, s: TaskStatus): Executor {
    e.(listed := if s.IsFinal() then None else Some(s), results := e.results + [s])
  }

  /** The loop reports a result and goes on as `to`. */
  function LoopResult(e: Executor, s: TaskStatus, to: Loop): Executor {
    Publish(e.(events := e.events + [Emit(s)], loop := to), s)
  }

  function Called(e: Executor): Executor {
    e.(events := e.events + [Call])
  }

  function AfterCall(e: Executor, outcome: Outcome): Executor {
    match outcome
    case More => Called(e)
    case Finish => LoopResult(Called(e), Success, Returned)
    case Fail => LoopResult(Called(e), Failed, Returned)
    case Panic => Called(e).(loop := Crashed)
  }

  function WithTokens(e: Executor, tokens: Tokens): Executor {
    e.(tokens := tokens)
  }

  function Next(e: Executor, step: Step): Executor
    requires Enabled(e, step)
  {
    match step
    case SendStop => WithTokens(e, e.tokens.(stop := true))
    case SendPause => WithTokens(e, e.tokens.(pause := true))
    case SendResume => WithTokens(e, e.tokens.(resume := true))
    case SendExit => WithTokens(e, e.tokens.(exit := true))
    case TakeStop => LoopResult(WithTokens(e, e.tokens.(stop := false)), Stop, Returned)
    case TakePause => LoopResult(WithTokens(e, e.tokens.(pause := false)), Paused, Held)
    case TakeResume => LoopResult(WithTokens(e, e.tokens.(resume := false)), Running, Polling)
    case CallLogic(outcome) => AfterCall(e, outcome)
    case LoopEnded =>
      if e.loop == Crashed then Publish(e.(watching := false), Failed) else e.(watching := false)
    case ForceExit =>
      Publish(WithTokens(e, e.tokens.(exit := false)).(watching := false, exited := true), Failed)
    case ReportStart => Publish(e.(start := Some(|e.results|)), Running)
  }

  predicate Legal(e: Executor, steps: seq<Step>)
    decreases |steps|
  {
    steps != [] ==> Enabled(e, steps[0]) && Legal(Next(e, steps[0]), steps[1..])
  }

  function Run(e: Executor, steps: seq<Step>): Executor
    requires Legal(e, steps)
    decreases |steps|
  {
    if steps == [] then e else Run(Next(e, steps[0]), steps[1..])
  }

  lemma {:induction false} Extend(e: Executor, steps: seq<Step>, step: Step)
    requires Legal(e, steps) && Enabled(Run(e, steps), step)
    ensures Legal(e, steps + [step]) && Run(e, steps + [step]) == Next(Run(e, steps), step)
    decreases |steps|
  {
    if steps == [] {
      assert [] + [step] == [step] && [step][1..] == [];
      assert Legal(Next(e, step), []) && Run(Next(e, step), []) == Next(e, step);
      assert Run(e, [step]) == Run(Next(e, step), [step][1..]);
    } else {
      assert (steps + [step])[1..] == steps[1..] + [step];
      Extend(Next(e, steps[0]), steps[1..], step);
    }
  }

  function Finals(results: seq<TaskStatus>): nat {
    if results == [] then 0
    else Finals(results[..|results| - 1]) + One(results[|results| - 1].IsFinal())
  }

  function One(b: bool): nat {
    if b then 1 else 0
  }

  /** The statuses the loop emitted. */
  function Emitted(events: seq<Event>): seq<TaskStatus> {
    if events == [] then []
    else
      var before := Emitted(events[..|events| - 1]);
      var last := events[|events| - 1];
      if last.Emit? then before + [last.status] else before
  }

  // ----- The shape of what the loop emits -----

  function Cycles(n: nat): seq<TaskStatus> {
    if n == 0 then [] else Cycles(n - 1) + [Paused, Running]
  }

  /** Some pause-resume cycles followed by `tail`. */
  ghost predicate CyclesThen(emitted: seq<TaskStatus>, tail: seq<TaskStatus>) {
    exists n: nat :: emitted == Cycles(n) + tail
  }

  ghost predicate Shape(loop: Loop, emitted: seq<TaskStatus>) {
    match loop
    case Polling => CyclesThen(emitted, [])
    case Held => CyclesThen(emitted, [Paused])
    case Crashed => CyclesThen(emitted, [])
    case Returned =>
      || CyclesThen(emitted, [Stop]) || CyclesThen(emitted, [Paused, Stop])
      || CyclesThen(emitted, [Success]) || CyclesThen(emitted, [Failed])
  }

  lemma CyclesGrow(emitted: seq<TaskStatus>, tail: seq<TaskStatus>, s: TaskStatus)
    requires CyclesThen(emitted, tail)
    ensures CyclesThen(emitted + [s], tail + [s])
    ensures tail == [Paused] && s == Running ==> CyclesThen(emitted + [s], [])
  {
    var n: nat :| emitted == Cycles(n) + tail;
    assert emitted + [s] == Cycles(n) + (tail + [s]);
    if tail == [Paused] && s == Running {
      assert Cycles(n + 1) == Cycles(n) + [Paused, Running];
      assert emitted + [s] == Cycles(n + 1) + [];
    }
  }

  /** No business logic runs between a Paused and the next Running. */
  ghost predicate NoCallWhilePaused(events: seq<Event>) {
    forall i, j :: 0 <= i < j < |events| && events[i] == Emit(Paused) && events[j] == Call ==>
                     Emit(Running) in events[i..j]
  }

  ghost predicate EveryPauseResumed(events: seq<Event>) {
    forall i :: 0 <= i < |events| && events[i] == Emit(Paused) ==> Emit(Running) in events[i..]
  }

  ghost predicate Calls(loop: Loop, events: seq<Event>) {
    && NoCallWhilePaused(events)
    && (loop == Polling ==> EveryPauseResumed(events))
  }

  lemma AppendEvent(events: seq<Event>, x: Event)
    requires NoCallWhilePaused(events) && (x == Call ==> EveryPauseResumed(events))
    ensures NoCallWhilePaused(events + [x])
    ensures x != Emit(Paused) && (EveryPauseResumed(events) || x == Emit(Running)) ==> EveryPauseResumed(events + [x])
  {
    var more := events + [x];
    forall i, j | 0 <= i < j < |more| && more[i] == Emit(Paused) && more[j] == Call
      ensures Emit(Running) in more[i..j]
    {
      if j < |events| {
        assert more[i..j] == events[i..j];
      } else {
        assert events[i] == Emit(Paused) && more[i..j] == events[i..];
      }
    }
    if x != Emit(Paused) && (EveryPauseResumed(events) || x == Emit(Running)) {
      forall i | 0 <= i < |more| && more[i] == Emit(Paused) ensures Emit(Running) in more[i..] {
        assert events[i] == Emit(Paused) && more[i..] == events[i..] + [x];
      }
    }
  }

  /** The moves of the loop that come with a result. */
  predicate Moves(from: Loop, s: TaskStatus, to: Loop) {
    || (from in {Polling, Held} && s == Stop && to == Returned)
    || (from == Polling && s in {Success, Failed} && to == Returned)
    || (from == Polling && s == Paused && to == Held)
    || (from == Held && s == Running && to == Polling)
  }

  lemma MoveKeepsShape(from: Loop, emitted: seq<TaskStatus>, s: TaskStatus, to: Loop)
    requires Shape(from, emitted) && Moves(from, s, to)
    ensures Shape(to, emitted + [s])
  {
    CyclesGrow(emitted, if from == Held then [Paused] else [], s);
    assert [] + [s] == [s] && [Paused] + [Stop] == [Paused, Stop];
  }

  lemma EmittedGrows(events: seq<Event>, x: Event)
    ensures Emitted(events + [x]) == if x.Emit? then Emitted(events) + [x.status] else Emitted(events)
  {
    assert (events + [x])[..|events|] == events;
  }

  // ----- What is on the result channel -----

  /** The loop reports one final result when it returns; the goroutine around it reports a crash or an exit. */
  ghost predicate FinalsCounted(loop: Loop, watching: bool, exited: bool, finals: nat) {
    && finals == One(loop == Returned) + One(exited) + One(loop == Crashed && !watching && !exited)
    && (exited ==> !watching)
    && (!watching && !exited ==> loop in {Returned, Crashed})
  }

  /** The status map holds the last result that is not final. */
  function ListedAfter(results: seq<TaskStatus>): Option<TaskStatus> {
    if results == [] then Some(Running)
    else if results[|results| - 1].IsFinal() then None
    else Some(results[|results| - 1])
  }

  ghost predicate StartInRange(start: Option<nat>, results: seq<TaskStatus>) {
    start.Some? ==> start.value < |results| && results[start.value] == Running
  }

  /** A final result was on the channel before the start was reported. */
  predicate StartedLate(start: Option<nat>, results: seq<TaskStatus>) {
    start.Some? && start.value <= |results| && Finals(results[..start.value]) > 0
  }

  /** Nothing comes after a final result but a late start report. */
  ghost predicate FinalIsLast(start: Option<nat>, results: seq<TaskStatus>) {
    if StartedLate(start, results) then start.value + 1 == |results|
    else Finals(results) > 0 ==> results[|results| - 1].IsFinal()
  }

  /** The channel without the start report. */
  function WithoutStart(start: Option<nat>, results: seq<TaskStatus>): seq<TaskStatus> {
    if start.Some? && start.value < |results| then results[..start.value] + results[start.value + 1..] else results
  }

  /** What the loop emitted, in order, then Failed if it crashed and that has been noticed. */
  function LoopReports(loop: Loop, watching: bool, events: seq<Event>): seq<TaskStatus> {
    Emitted(events) + (if loop == Crashed && !watching then [Failed] else [])
  }

  lemma FinalsGrow(results: seq<TaskStatus>, s: TaskStatus)
    ensures Finals(results + [s]) == Finals(results) + One(s.IsFinal())
  {
    assert (results + [s])[..|results|] == results;
  }

  lemma {:induction false} FinalsOfPrefix(results: seq<TaskStatus>, k: nat)
    requires k <= |results|
    ensures Finals(results[..k]) <= Finals(results)
  {
    if k == |results| {
      assert results[..k] == results;
    } else {
      var init := results[..|results| - 1];
      assert init[..k] == results[..k];
      FinalsOfPrefix(init, k);
    }
  }

  lemma ResultKeepsFinalLast(start: Option<nat>, results: seq<TaskStatus>, s: TaskStatus)
    requires StartInRange(start, results) && Finals(results) == 0
    ensures FinalIsLast(start, results + [s])
  {
    FinalsGrow(results, s);
    if start.Some? {
      assert (results + [s])[..start.value] == results[..start.value];
      FinalsOfPrefix(results, start.value);
    }
  }

  lemma ResultKeepsOrder(start: Option<nat>, results: seq<TaskStatus>, s: TaskStatus)
    requires StartInRange(start, results)
    ensures StartInRange(start, results + [s])
    ensures WithoutStart(start, results + [s]) == WithoutStart(start, results) + [s]
  {
    if start.Some? {
      var k := start.value;
      assert (results + [s])[..k] == results[..k];
      assert (results + [s])[k + 1..] == results[k + 1..] + [s];
    }
  }

  lemma StartMeaning(results: seq<TaskStatus>)
    ensures var more := results + [Running];
            var start := Some(|results|);
            StartInRange(start, more) && FinalIsLast(start, more) && WithoutStart(start, more) == results
  {
    var more := results + [Running];
    FinalsGrow(results, Running);
    assert more[..|results|] == results && more[|results| + 1..] == [];
  }

  // ----- The invariant -----

  ghost predicate LoopInv(loop: Loop, events: seq<Event>) {
    Shape(loop, Emitted(events)) && Calls(loop, events)
  }

  /** Until a forced exit, the channel carries the loop's reports and the start. */
  ghost predicate Merged(loop: Loop, watching: bool, start: Option<nat>, events: seq<Event>, results: seq<TaskStatus>) {
    && FinalIsLast(start, results)
    && WithoutStart(start, results) == LoopReports(loop, watching, events)
  }

  ghost predicate Inv(e: Executor) {
    && LoopInv(e.loop, e.events)
    && FinalsCounted(e.loop, e.watching, e.exited, Finals(e.results))
    && e.listed == ListedAfter(e.results)
    && StartInRange(e.start, e.results)
    && (!e.exited ==> Merged(e.loop, e.watching, e.start, e.events, e.results))
  }

  lemma InitHolds()
    ensures Inv(Init())
  {
    assert Emitted([]) == Cycles(0) + [];
    assert Init().events == [];
    assert Finals([]) == 0;
  }

  lemma TokensKeepInv(e: Executor, tokens: Tokens)
    requires Inv(e)
    ensures Inv(WithTokens(e, tokens))
  {
  }

  lemma MoveKeepsLoop(from: Loop, events: seq<Event>, s: TaskStatus, to: Loop)
    requires LoopInv(from, events) && Moves(from, s, to)
    ensures LoopInv(to, events + [Emit(s)])
  {
    EmittedGrows(events, Emit(s));
    MoveKeepsShape(from, Emitted(events), s, to);
    AppendEvent(events, Emit(s));
  }

  lemma MoveKeepsMerged(
    from: Loop, watching: bool, start: Option<nat>, events: seq<Event>, results: seq<TaskStatus>, s: TaskStatus, to: Loop)
    requires from in {Polling, Held} && to != Crashed && Finals(results) == 0
    requires StartInRange(start, results) && Merged(from, watching, start, events, results)
    ensures Merged(to, watching, start, events + [Emit(s)], results + [s])
  {
    ResultKeepsFinalLast(start, results, s);
    ResultKeepsOrder(start, results, s);
    EmittedGrows(events, Emit(s));
    assert LoopReports(from, watching, events) == Emitted(events);
    assert LoopReports(to, watching, events + [Emit(s)]) == Emitted(events + [Emit(s)]);
  }

  lemma MoveKeepsCount(
    from: Loop, watching: bool, exited: bool, start: Option<nat>, results: seq<TaskStatus>, s: TaskStatus, to: Loop)
    requires FinalsCounted(from, watching, exited, Finals(results)) && StartInRange(start, results) && Moves(from, s, to)
    ensures FinalsCounted(to, watching, exited, Finals(results + [s])) && StartInRange(start, results + [s])
    ensures from in {Polling, Held} && to != Crashed && (!exited ==> Finals(results) == 0)
  {
    FinalsGrow(results, s);
    ResultKeepsOrder(start, results, s);
  }

  lemma LoopResultKeepsInv(e: Executor, s: TaskStatus, to: Loop)
    requires Inv(e) && Moves(e.loop, s, to)
    ensures Inv(LoopResult(e, s, to))
  {
    var e' := LoopResult(e, s, to);
    assert e' == Executor(e.tokens, to, e.watching, e.exited, e.start, e'.listed, e.events + [Emit(s)], e.results + [s]);
    assert LoopInv(to, e.events + [Emit(s)]) by {
      MoveKeepsLoop(e.loop, e.events, s, to);
    }
    MoveKeepsCount(e.loop, e.watching, e.exited, e.start, e.results, s, to);
    assert !e.exited ==> Merged(to, e.watching, e.start, e.events + [Emit(s)], e.results + [s]) by {
      if !e.exited {
        MoveKeepsMerged(e.loop, e.watching, e.start, e.events, e.results, s, to);
      }
    }
    assert e'.listed == ListedAfter(e.results + [s]);
  }

  lemma CallKeepsLoop(events: seq<Event>)
    requires LoopInv(Polling, events)
    ensures LoopInv(Polling, events + [Call]) && Emitted(events + [Call]) == Emitted(events)
    ensures LoopInv(Crashed, events + [Call])
  {
    EmittedGrows(events, Call);
    AppendEvent(events, Call);
  }

  lemma CalledKeepsInv(e: Executor)
    requires Inv(e) && e.loop == Polling
    ensures Inv(Called(e)) && Inv(Called(e).(loop := Crashed))
  {
    CallKeepsLoop(e.events);
  }

  lemma CallKeepsInv(e: Executor, outcome: Outcome)
    requires Inv(e) && e.loop == Polling
    ensures Inv(AfterCall(e, outcome))
  {
    CalledKeepsInv(e);
    match outcome
    case More =>
    case Finish => LoopResultKeepsInv(Called(e), Success, Returned);
    case Fail => LoopResultKeepsInv(Called(e), Failed, Returned);
    case Panic =>
  }

  lemma CrashKeepsMerged(start: Option<nat>, events: seq<Event>, results: seq<TaskStatus>)
    requires Finals(results) == 0 && StartInRange(start, results) && Merged(Crashed, true, start, events, results)
    ensures Merged(Crashed, false, start, events, results + [Failed])
  {
    ResultKeepsFinalLast(start, results, Failed);
    ResultKeepsOrder(start, results, Failed);
    assert LoopReports(Crashed, true, events) == Emitted(events);
  }

  lemma CrashKeepsInv(e: Executor)
    requires Inv(e) && e.watching && e.loop == Crashed
    ensures Inv(Publish(e.(watching := false), Failed))
  {
    FinalsGrow(e.results, Failed);
    ResultKeepsOrder(e.start, e.results, Failed);
    CrashKeepsMerged(e.start, e.events, e.results);
  }

  lemma ReturnKeepsInv(e: Executor)
    requires Inv(e) && e.watching && e.loop == Returned
    ensures Inv(e.(watching := false))
  {
  }

  lemma ExitKeepsInv(e: Executor)
    requires Inv(e) && e.watching
    ensures Inv(Publish(e.(watching := false, exited := true), Failed))
  {
    FinalsGrow(e.results, Failed);
    ResultKeepsOrder(e.start, e.results, Failed);
  }

  lemma StartKeepsInv(e: Executor)
    requires Inv(e) && e.start.None?
    ensures Inv(Publish(e.(start := Some(|e.results|)), Running))
  {
    FinalsGrow(e.results, Running);
    StartMeaning(e.results);
  }

  lemma TakeKeepsInv(e: Executor, step: Step)
    requires Inv(e) && Enabled(e, step) && (step.TakeStop? || step.TakePause? || step.TakeResume?)
    ensures Inv(Next(e, step))
  {
    match step {
      case TakeStop =>
        TokensKeepInv(e, e.tokens.(stop := false));
        LoopResultKeepsInv(WithTokens(e, e.tokens.(stop := false)), Stop, Returned);
      case TakePause =>
        TokensKeepInv(e, e.tokens.(pause := false));
        LoopResultKeepsInv(WithTokens(e, e.tokens.(pause := false)), Paused, Held);
      case TakeResume =>
        TokensKeepInv(e, e.tokens.(resume := false));
        LoopResultKeepsInv(WithTokens(e, e.tokens.(resume := false)), Running, Polling);
    }
  }

  lemma SendKeepsInv(e: Executor, step: Step)
    requires Inv(e) && Enabled(e, step) && (step.SendStop? || step.SendPause? || step.SendResume? || step.SendExit?)
    ensures Inv(Next(e, step))
  {
    TokensKeepInv(e, Next(e, step).tokens);
  }

  lemma OutsideKeepsInv(e: Executor, step: Step)
    requires Inv(e) && Enabled(e, step) && (step.LoopEnded? || step.ForceExit? || step.ReportStart?)
    ensures Inv(Next(e, step))
  {
    match step {
      case LoopEnded =>
        if e.loop == Crashed {
          CrashKeepsInv(e);
        } else {
          ReturnKeepsInv(e);
        }
      case ForceExit =>
        TokensKeepInv(e, e.tokens.(exit := false));
        ExitKeepsInv(WithTokens(e, e.tokens.(exit := false)));
      case ReportStart => StartKeepsInv(e);
    }
  }

  lemma NextKeepsInv(e: Executor, step: Step)
    requires Inv(e) && Enabled(e, step)
    ensures Inv(Next(e, step))
  {
    if step.TakeStop? || step.TakePause? || step.TakeResume? {
      TakeKeepsInv(e, step);
    } else if step.LoopEnded? || step.ForceExit? || step.ReportStart? {
      OutsideKeepsInv(e, step);
    } else if step.CallLogic? {
      CallKeepsInv(e, step.outcome);
    } else {
      SendKeepsInv(e, step);
    }
  }

  lemma {:induction false} RunKeepsInv(e: Executor, steps: seq<Step>)
    requires Inv(e) && Legal(e, steps)
    ensures Inv(Run(e, steps))
    decreases |steps|
  {
    if steps != [] {
      NextKeepsInv(e, steps[0]);
      RunKeepsInv(Next(e, steps[0]), steps[1..]);
    }
  }

  // ----- Results over every run -----

  /** The loop emits pause-resume cycles and then exactly one ending, and never works while paused. */
  lemma LoopEmitsCyclesThenOneEnding(steps: seq<Step>)
    requires Legal(Init(), steps)
    ensures var e := Run(Init(), steps);
            && NoCallWhilePaused(e.events)
            && (e.loop in {Polling, Crashed} ==> CyclesThen(Emitted(e.events), []))
            && (e.loop == Held ==> CyclesThen(Emitted(e.events), [Paused]))
            && (e.loop == Returned ==>
                  || CyclesThen(Emitted(e.events), [Stop]) || CyclesThen(Emitted(e.events), [Paused, Stop])
                  || CyclesThen(Emitted(e.events), [Success]) || CyclesThen(Emitted(e.events), [Failed]))
  {
    InitHolds();
    RunKeepsInv(Init(), steps);
  }

  /** One final result when the run is over; two exactly when a forced exit left the loop behind to finish on its own. */
  lemma OneFinalResultUnlessExited(steps: seq<Step>)
    requires Legal(Init(), steps)
    ensures var e := Run(Init(), steps);
            && Finals(e.results) <= 2
            && (Finals(e.results) == 2 <==> e.exited && e.loop == Returned)
            && (e.loop in {Returned, Crashed} && !e.watching && !e.exited ==> Finals(e.results) == 1)
            && (e.loop in {Polling, Held} && !e.exited ==> Finals(e.results) == 0)
  {
    InitHolds();
    RunKeepsInv(Init(), steps);
  }

  /** Without a forced exit, the result channel is the loop's own results in order, with the start report inserted. */
  lemma ChannelCarriesLoopResults(steps: seq<Step>)
    requires Legal(Init(), steps)
    ensures var e := Run(Init(), steps);
            && (e.start.Some? ==> e.start.value < |e.results| && e.results[e.start.value] == Running)
            && (!e.exited ==>
                  WithoutStart(e.start, e.results) ==
                  Emitted(e.events) + (if e.loop == Crashed && !e.watching then [Failed] else []))
  {
    InitHolds();
    RunKeepsInv(Init(), steps);
  }

  /** The run is over without a forced exit, and `Run` has returned to its caller. */
  predicate Over(e: Executor) {
    e.loop in {Returned, Crashed} && !e.watching && !e.exited && e.start.Some?
  }

  /**
   When a run without forced exit is over, the last result the worker sees is
   the final one, and the executor has forgotten the task, exactly when no final
   result came before the start was reported; otherwise the finished task is
   listed as running.
   */
  lemma FinalResultComesLastIffStartWasInTime(steps: seq<Step>)
    requires Legal(Init(), steps) && Over(Run(Init(), steps))
    ensures var e := Run(Init(), steps);
            && e.results != [] && e.start.value < |e.results|
            && (e.results[|e.results| - 1].IsFinal() <==> Finals(e.results[..e.start.value]) == 0)
            && (e.results[|e.results| - 1].IsFinal() || e.results[|e.results| - 1] == Running)
            && e.listed == if Finals(e.results[..e.start.value]) == 0 then None else Some(Running)
  {
    InitHolds();
    RunKeepsInv(Init(), steps);
  }

  ghost predicate AllReportable(results: seq<TaskStatus>) {
    forall i :: 0 <= i < |results| ==> results[i] in {Running, Paused, Stop, Success, Failed}
  }

  lemma {:induction false} ResultsStayReportable(e: Executor, steps: seq<Step>)
    requires AllReportable(e.results) && Legal(e, steps)
    ensures AllReportable(Run(e, steps).results)
    decreases |steps|
  {
    if steps != [] {
      ResultsStayReportable(Next(e, steps[0]), steps[1..]);
    }
  }

  /** An executor reports nothing but running, paused and final statuses. */
  lemma OnlyReportableResults(steps: seq<Step>)
    requires Legal(Init(), steps)
    ensures forall i :: 0 <= i < |Run(Init(), steps).results| ==>
              Run(Init(), steps).results[i] in {Running, Paused, Stop, Success, Failed}
  {
    ResultsStayReportable(Init(), steps);
  }

  // ----- Which result comes from which step -----

  /** The result a step of the loop reports. */
  function LoopResultOf(step: Step): seq<TaskStatus> {
    match step
    case TakeStop => [Stop]
    case TakePause => [Paused]
    case TakeResume => [Running]
    case CallLogic(Finish) => [Success]
    case CallLogic(Fail) => [Failed]
    case _ => []
  }

  function LoopResultsOf(steps: seq<Step>): seq<TaskStatus> {
    if steps == [] then [] else LoopResultsOf(steps[..|steps| - 1]) + LoopResultOf(steps[|steps| - 1])
  }

  /** What a step of the loop does, its call of the business logic included. */
  function LoopEventsOf(step: Step): seq<Event> {
    match step
    case TakeStop => [Emit(Stop)]
    case TakePause => [Emit(Paused)]
    case TakeResume => [Emit(Running)]
    case CallLogic(Finish) => [Call, Emit(Success)]
    case CallLogic(Fail) => [Call, Emit(Failed)]
    case CallLogic(_) => [Call]
    case _ => []
  }

  function EventsOf(steps: seq<Step>): seq<Event> {
    if steps == [] then [] else EventsOf(steps[..|steps| - 1]) + LoopEventsOf(steps[|steps| - 1])
  }

  predicate Panicked(steps: seq<Step>) {
    CallLogic(Panic) in steps
  }

  /** Everything that reaches the channel: the loop's results, the start, a forced exit, and a panic once it is noticed. */
  function ChannelOf(steps: seq<Step>): seq<TaskStatus> {
    if steps == [] then []
    else
      var init, last := steps[..|steps| - 1], steps[|steps| - 1];
      ChannelOf(init) +
      match last
      case ReportStart => [Running]
      case ForceExit => [Failed]
      case LoopEnded => if Panicked(init) then [Failed] else []
      case _ => LoopResultOf(last)
  }

  lemma {:induction false} SplitLast(e: Executor, steps: seq<Step>)
    requires steps != [] && Legal(e, steps)
    ensures var init, last := steps[..|steps| - 1], steps[|steps| - 1];
            Legal(e, init) && Enabled(Run(e, init), last) && Run(e, steps) == Next(Run(e, init), last)
    decreases |steps|
  {
    var init, last := steps[..|steps| - 1], steps[|steps| - 1];
    if |steps| == 1 {
      assert init == [] && steps[1..] == [];
      assert Run(Next(e, steps[0]), steps[1..]) == Next(e, steps[0]);
    } else {
      SplitLast(Next(e, steps[0]), steps[1..]);
      assert steps[1..][..|steps| - 2] == init[1..];
      assert init[0] == steps[0] && steps[1..][|steps| - 2] == last;
    }
  }

  /** The events and the channel are exactly those of the steps taken, and the loop has crashed when a call panicked. */
  ghost predicate Follows(e: Executor, steps: seq<Step>) {
    && e.events == EventsOf(steps)
    && Emitted(e.events) == LoopResultsOf(steps)
    && e.results == ChannelOf(steps)
    && (e.loop == Crashed <==> Panicked(steps))
  }

  lemma {:induction false} RunFollowsSteps(steps: seq<Step>)
    requires Legal(Init(), steps)
    ensures Follows(Run(Init(), steps), steps)
  {
    if steps == [] {
      assert Init().events == [];
    } else {
      var init, last := steps[..|steps| - 1], steps[|steps| - 1];
      SplitLast(Init(), steps);
      RunFollowsSteps(init);
      assert steps == init + [last];
      NextFollows(Run(Init(), init), init, last);
    }
  }

  lemma NextFollows(e: Executor, steps: seq<Step>, step: Step)
    requires Follows(e, steps) && Enabled(e, step)
    ensures Follows(Next(e, step), steps + [step])
  {
    var more := steps + [step];
    assert more[..|more| - 1] == steps && more[|more| - 1] == step;
    assert Panicked(more) <==> Panicked(steps) || step == CallLogic(Panic);
    if step.CallLogic? {
      CallFollows(e, step.outcome);
    } else if step.TakeStop? || step.TakePause? || step.TakeResume? {
      TakeFollows(e, step);
    } else {
      OutsideFollows(e, step);
    }
  }

  lemma TakeFollows(e: Executor, step: Step)
    requires Enabled(e, step) && (step.TakeStop? || step.TakePause? || step.TakeResume?)
    ensures var e' := Next(e, step);
            && e'.events == e.events + LoopEventsOf(step)
            && Emitted(e'.events) == Emitted(e.events) + LoopResultOf(step)
            && e'.results == e.results + LoopResultOf(step)
            && e.loop != Crashed && e'.loop != Crashed
  {
    EmittedGrows(e.events, Emit(LoopResultOf(step)[0]));
  }

  lemma OutsideFollows(e: Executor, step: Step)
    requires Enabled(e, step) && !(step.CallLogic? || step.TakeStop? || step.TakePause? || step.TakeResume?)
    ensures var e' := Next(e, step);
            && e'.events == e.events && e'.loop == e.loop
            && e'.results ==
               e.results +
               match step
               case ReportStart => [Running]
               case ForceExit => [Failed]
               case LoopEnded => if e.loop == Crashed then [Failed] else []
               case _ => []
  {
  }

  lemma CallFollows(e: Executor, outcome: Outcome)
    requires e.loop == Polling
    ensures var e' := AfterCall(e, outcome);
            && e'.events == e.events + LoopEventsOf(CallLogic(outcome))
            && Emitted(e'.events) == Emitted(e.events) + LoopResultOf(CallLogic(outcome))
            && e'.results == e.results + LoopResultOf(CallLogic(outcome))
            && (e'.loop == Crashed <==> outcome == Panic)
  {
    EmittedGrows(e.events, Call);
    match outcome
    case More =>
    case Finish => EmittedGrows(e.events + [Call], Emit(Success));
    case Fail => EmittedGrows(e.events + [Call], Emit(Failed));
    case Panic =>
  }

  /** `s` is what `step`, and no other step of the loop, reports. */
  ghost predicate Names(s: TaskStatus, step: Step) {
    forall x: Step :: s in LoopResultOf(x) <==> x == step
  }

  lemma {:induction false} ResultNamesStep(steps: seq<Step>, s: TaskStatus, step: Step)
    requires Names(s, step)
    ensures s in LoopResultsOf(steps) <==> step in steps
  {
    if steps != [] {
      var init, last := steps[..|steps| - 1], steps[|steps| - 1];
      ResultNamesStep(init, s, step);
      assert steps == init + [last];
    }
  }

  lemma {:induction false} ChannelNamesStep(steps: seq<Step>, s: TaskStatus, step: Step)
    requires Names(s, step) && s != Running && (step.TakeStop? || step.TakePause? || step.CallLogic?)
    ensures s == Failed || (s in ChannelOf(steps) <==> step in steps)
    ensures step in steps ==> s in ChannelOf(steps)
  {
    if steps != [] {
      var init, last := steps[..|steps| - 1], steps[|steps| - 1];
      ChannelNamesStep(init, s, step);
      assert steps == init + [last];
    }
  }

  lemma {:induction false} ForcedExitFails(steps: seq<Step>)
    ensures ForceExit in steps ==> Failed in ChannelOf(steps)
  {
    if steps != [] {
      var init, last := steps[..|steps| - 1], steps[|steps| - 1];
      ForcedExitFails(init);
      assert steps == init + [last];
    }
  }

  /**
   Each result of the loop comes from its own step: Success from a call that
   finished, Failed from one that returned an error, Stop, Paused and Running
   from the token taken; and a panic that has been noticed is reported as Failed.
   */
  lemma ResultsMatchOutcomes(steps: seq<Step>)
    requires Legal(Init(), steps)
    ensures var e := Run(Init(), steps);
            && e.events == EventsOf(steps)
            && Emitted(e.events) == LoopResultsOf(steps) && e.results == ChannelOf(steps)
            && (Success in Emitted(e.events) <==> CallLogic(Finish) in steps)
            && (Failed in Emitted(e.events) <==> CallLogic(Fail) in steps)
            && (Stop in Emitted(e.events) <==> TakeStop in steps)
            && (Paused in Emitted(e.events) <==> TakePause in steps)
            && (Running in Emitted(e.events) <==> TakeResume in steps)
            && (Success in e.results <==> CallLogic(Finish) in steps)
            && (Stop in e.results <==> TakeStop in steps)
            && (CallLogic(Fail) in steps || ForceExit in steps ==> Failed in e.results)
            && (CallLogic(Panic) in steps && !e.watching && !e.exited ==>
                  Failed in e.results && Success !in e.results && Stop !in e.results)
  {
    var e := Run(Init(), steps);
    RunFollowsSteps(steps);
    ResultNamesStep(steps, Success, CallLogic(Finish));
    ResultNamesStep(steps, Failed, CallLogic(Fail));
    ResultNamesStep(steps, Stop, TakeStop);
    ResultNamesStep(steps, Paused, TakePause);
    ResultNamesStep(steps, Running, TakeResume);
    ChannelNamesStep(steps, Success, CallLogic(Finish));
    ChannelNamesStep(steps, Stop, TakeStop);
    ChannelNamesStep(steps, Failed, CallLogic(Fail));
    ForcedExitFails(steps);
    if CallLogic(Panic) in steps && !e.watching && !e.exited {
      InitHolds();
      RunKeepsInv(Init(), steps);
      CrashedLoopHasNoEnding(e);
      FinalIsThere(e.results);
    }
  }

  lemma CrashedLoopHasNoEnding(e: Executor)
    requires LoopInv(e.loop, e.events) && e.loop == Crashed
    ensures Success !in Emitted(e.events) && Stop !in Emitted(e.events)
  {
    var n: nat :| Emitted(e.events) == Cycles(n) + [];
    CyclesOnly(n);
  }

  lemma {:induction false} FinalIsThere(results: seq<TaskStatus>)
    requires Finals(results) > 0
    ensures Success in results || Failed in results || Stop in results
  {
    var init, last := results[..|results| - 1], results[|results| - 1];
    assert results == init + [last];
    if !last.IsFinal() {
      FinalIsThere(init);
    }
  }

  /** A loop that has reported Failed has not reported Success. */
  lemma FailureIsNoSuccess(e: Executor)
    requires LoopInv(e.loop, e.events)
    ensures !(Failed in Emitted(e.events) && Success in Emitted(e.events))
  {
    var emitted := Emitted(e.events);
    var n: nat, tail :| emitted == Cycles(n) + tail
                        && tail in {[], [Paused], [Stop], [Paused, Stop], [Success], [Failed]};
    CyclesOnly(n);
  }

  lemma {:induction false} CyclesOnly(n: nat)
    ensures forall s :: s in Cycles(n) ==> s in {Paused, Running}
  {
    if n > 0 {
      CyclesOnly(n - 1);
    }
  }

  // ----- Commands and their effects -----

  function Times(steps: seq<Step>, step: Step): nat {
    if steps == [] then 0 else Times(steps[..|steps| - 1], step) + One(steps[|steps| - 1] == step)
  }

  /** Every command that was sent has been taken, but for the one that may be pending. */
  ghost predicate Conserved(tokens: Tokens, steps: seq<Step>) {
    && Times(steps, SendStop) == Times(steps, TakeStop) + One(tokens.stop)
    && Times(steps, SendPause) == Times(steps, TakePause) + One(tokens.pause)
    && Times(steps, SendResume) == Times(steps, TakeResume) + One(tokens.resume)
    && Times(steps, SendExit) == Times(steps, ForceExit) + One(tokens.exit)
  }

  lemma TimesGrow(steps: seq<Step>, last: Step, step: Step)
    ensures Times(steps + [last], step) == Times(steps, step) + One(last == step)
  {
    assert (steps + [last])[..|steps|] == steps;
  }

  lemma NextConserves(e: Executor, steps: seq<Step>, step: Step)
    requires Conserved(e.tokens, steps) && Enabled(e, step)
    ensures Conserved(Next(e, step).tokens, steps + [step])
  {
    TimesGrow(steps, step, SendStop);
    TimesGrow(steps, step, TakeStop);
    TimesGrow(steps, step, SendPause);
    TimesGrow(steps, step, TakePause);
    TimesGrow(steps, step, SendResume);
    TimesGrow(steps, step, TakeResume);
    TimesGrow(steps, step, SendExit);
    TimesGrow(steps, step, ForceExit);
    if step.CallLogic? {
      CallKeepsTokens(e, step.outcome);
    }
  }

  lemma CallKeepsTokens(e: Executor, outcome: Outcome)
    ensures AfterCall(e, outcome).tokens == e.tokens
  {
  }

  /** In every run no command is lost, invented or carried out twice. */
  lemma {:induction false} CommandsAreConserved(steps: seq<Step>)
    requires Legal(Init(), steps)
    ensures Conserved(Run(Init(), steps).tokens, steps)
  {
    if steps != [] {
      var init, last := steps[..|steps| - 1], steps[|steps| - 1];
      SplitLast(Init(), steps);
      CommandsAreConserved(init);
      assert steps == init + [last];
      NextConserves(Run(Init(), init), init, last);
    }
  }

  lemma {:induction false} PrefixIsLegal(e: Executor, steps: seq<Step>, i: nat)
    requires Legal(e, steps) && i <= |steps|
    ensures Legal(e, steps[..i]) && (i < |steps| ==> Enabled(Run(e, steps[..i]), steps[i]))
    decreases |steps|
  {
    if i < |steps| {
      SplitLast(e, steps);
      var init := steps[..|steps| - 1];
      if i < |init| {
        PrefixIsLegal(e, init, i);
        assert init[..i] == steps[..i];
      } else {
        assert init == steps[..i];
      }
    } else {
      assert steps[..i] == steps;
    }
  }

  /** The business logic is called only when every stop and pause sent so far has been taken. */
  lemma CallsWaitForCommands(steps: seq<Step>, i: nat)
    requires Legal(Init(), steps) && i < |steps| && steps[i].CallLogic?
    ensures Times(steps[..i], SendStop) == Times(steps[..i], TakeStop)
    ensures Times(steps[..i], SendPause) == Times(steps[..i], TakePause)
  {
    PrefixIsLegal(Init(), steps, i);
    CommandsAreConserved(steps[..i]);
  }

  // ----- Both hazards occur -----

  lemma ThreeSteps(e: Executor, a: Step, b: Step, c: Step)
    requires Enabled(e, a) && Enabled(Next(e, a), b) && Enabled(Next(Next(e, a), b), c)
    ensures Legal(e, [a, b, c]) && Run(e, [a, b, c]) == Next(Next(Next(e, a), b), c)
  {
    Extend(e, [], a);
    Extend(e, [a], b);
    Extend(e, [a, b], c);
    assert [] + [a] == [a] && [a] + [b] == [a, b] && [a, b] + [c] == [a, b, c];
  }

  /** A short task ends before `Run` reports it. */
  lemma LateStartHappens()
    ensures var steps := [CallLogic(Finish), LoopEnded, ReportStart];
            && Legal(Init(), steps) && Over(Run(Init(), steps))
            && Run(Init(), steps).results == [Success, Running] && Run(Init(), steps).start == Some(1)
  {
    var e1 := Next(Init(), CallLogic(Finish));
    assert e1.results == [Success];
    var e2 := Next(e1, LoopEnded);
    assert e2.results == [Success];
    var e3 := Next(e2, ReportStart);
    assert e3.results == [Success, Running];
    ThreeSteps(Init(), CallLogic(Finish), LoopEnded, ReportStart);
  }

  /** An exited task ends twice. */
  lemma TwoFinalsHappen()
    ensures var steps := [SendExit, ForceExit, CallLogic(Finish)];
            Legal(Init(), steps) && Run(Init(), steps).results == [Failed, Success]
  {
    var e1 := Next(Init(), SendExit);
    var e2 := Next(e1, ForceExit);
    assert e2.results == [Failed] && e2.loop == Polling && e2.tokens == Tokens(false, false, false, false);
    var e3 := Next(e2, CallLogic(Finish));
    assert e3.results == [Failed, Success];
    ThreeSteps(Init(), SendExit, ForceExit, CallLogic(Finish));
  }

  // ----- The executor object -----

  datatype Reply = Error | Ignored | Sent | WouldBlock

  /** The run of one key takes a step, which goes into its history, and no other run is touched. */
  ghost predicate Advanced(
    before: map<string, Executor>, past: map<string, seq<Step>>,
    after: map<string, Executor>, now: map<string, seq<Step>>, key: string, step: Step)
  {
    && key in before && key in past && Enabled(before[key], step)
    && after == before[key := Next(before[key], step)]
    && now == past[key := past[key] + [step]]
  }

  /**
   The executor with its control map. Each method is one call or one turn of a
   goroutine. The histories are the steps each run has taken since its `Run`.
   */
  class Executors {
    var runs: map<string, Executor>
    ghost var histories: map<string, seq<Step>>

    /** Every run is a legal run of the step system. */
    ghost predicate Valid()
      reads this
    {
      && runs.Keys == histories.Keys
      && forall k :: k in runs ==> Legal(Init(), histories[k]) && Run(Init(), histories[k]) == runs[k]
    }

    /** The key has an entry in the control map: its surrounding goroutine has not ended. */
    predicate Controlled(key: string)
      reads this
    {
      key in runs && runs[key].watching
    }

    constructor ()
      ensures Valid() && runs == map[]
    {
      runs, histories := map[], map[];
    }

    /** Whatever has been called and whichever turns were taken, the run of every key has the properties above. */
    lemma EveryRunEndsOnce(key: string)
      requires Valid() && key in runs
      ensures NoCallWhilePaused(runs[key].events)
      ensures Finals(runs[key].results) == 2 <==> runs[key].exited && runs[key].loop == Returned
      ensures !Controlled(key) && !runs[key].exited ==>
                && Finals(runs[key].results) == 1
                && WithoutStart(runs[key].start, runs[key].results) ==
                   Emitted(runs[key].events) + (if runs[key].loop == Crashed then [Failed] else [])
      ensures runs[key].results == ChannelOf(histories[key]) && Conserved(runs[key].tokens, histories[key])
      ensures runs[key].events == EventsOf(histories[key])
      ensures Success in runs[key].results <==> CallLogic(Finish) in histories[key]
      ensures CallLogic(Fail) in histories[key] ==> Failed in runs[key].results && Success !in Emitted(runs[key].events)
      ensures CallLogic(Panic) in histories[key] && !Controlled(key) && !runs[key].exited ==>
                Failed in runs[key].results && Success !in runs[key].results
    {
      ResultsMatchOutcomes(histories[key]);
      CommandsAreConserved(histories[key]);
      LoopEmitsCyclesThenOneEnding(histories[key]);
      OneFinalResultUnlessExited(histories[key]);
      ChannelCarriesLoopResults(histories[key]);
      InitHolds();
      RunKeepsInv(Init(), histories[key]);
      FailureIsNoSuccess(runs[key]);
    }

    /** Record a step that has just been taken. */
    ghost method Record(before: map<string, Executor>, key: string, step: Step)
      requires key in before && key in histories && before.Keys == histories.Keys
      requires forall k :: k in before ==> Legal(Init(), histories[k]) && Run(Init(), histories[k]) == before[k]
      requires Enabled(before[key], step) && runs == before[key := Next(before[key], step)]
      modifies this`histories
      ensures Valid() && Advanced(before, old(histories), runs, histories, key, step)
    {
      Extend(Init(), histories[key], step);
      histories := histories[key := histories[key] + [step]];
    }

    /** `Run` up to the start of the goroutine; `Report` is the rest of it. */
    method Start(key: string) returns (reply: Reply)
      requires Valid()
      modifies this
      ensures Valid()
      ensures reply == if old(Controlled(key)) then Error else Sent
      ensures runs == if reply == Error then old(runs) else old(runs)[key := Init()]
      ensures histories == if reply == Error then old(histories) else old(histories)[key := []]
    {
      if Controlled(key) {
        return Error;
      }
      runs := runs[key := Init()];
      histories := histories[key := []];
      return Sent;
    }

    method Report(key: string)
      requires Valid() && key in runs && runs[key].start.None?
      modifies this
      ensures Valid() && Advanced(old(runs), old(histories), runs, histories, key, ReportStart)
    {
      ghost var before := runs;
      var e := runs[key];
      runs := runs[key := Publish(e.(start := Some(|e.results|)), Running)];
      Record(before, key, ReportStart);
    }

    method Stop(key: string) returns (reply: Reply)
      requires Valid()
      modifies this
      ensures Valid()
      ensures reply == if !old(Controlled(key)) then Error else if old(runs)[key].tokens.stop then Ignored else Sent
      ensures if reply == Sent then Advanced(old(runs), old(histories), runs, histories, key, SendStop)
              else runs == old(runs) && histories == old(histories)
    {
      if !Controlled(key) {
        return Error;
      }
      var tokens := runs[key].tokens;
      if tokens.stop {
        return Ignored;
      }
      ghost var before := runs;
      runs := runs[key := WithTokens(runs[key], tokens.(stop := true))];
      Record(before, key, SendStop);
      return Sent;
    }

    /** Looks at the stop channel, not at its own: with a pause already pending the call blocks. */
    method Pause(key: string) returns (reply: Reply)
      requires Valid()
      modifies this
      ensures Valid()
      ensures reply == if !old(Controlled(key)) then Error
                       else if old(runs)[key].tokens.stop then Ignored
                       else if old(runs)[key].tokens.pause then WouldBlock else Sent
      ensures if reply == Sent then Advanced(old(runs), old(histories), runs, histories, key, SendPause)
              else runs == old(runs) && histories == old(histories)
    {
      if !Controlled(key) {
        return Error;
      }
      var tokens := runs[key].tokens;
      if tokens.stop {
        return Ignored;
      }
      if tokens.pause {
        return WouldBlock;
      }
      ghost var before := runs;
      runs := runs[key := WithTokens(runs[key], tokens.(pause := true))];
      Record(before, key, SendPause);
      return Sent;
    }

    method Resume(key: string) returns (reply: Reply)
      requires Valid()
      modifies this
      ensures Valid()
      ensures reply == if !old(Controlled(key)) then Error else if old(runs)[key].tokens.resume then Ignored else Sent
      ensures if reply == Sent then Advanced(old(runs), old(histories), runs, histories, key, SendResume)
              else runs == old(runs) && histories == old(histories)
    {
      if !Controlled(key) {
        return Error;
      }
      var tokens := runs[key].tokens;
      if tokens.resume {
        return Ignored;
      }
      ghost var before := runs;
      runs := runs[key := WithTokens(runs[key], tokens.(resume := true))];
      Record(before, key, SendResume);
      return Sent;
    }

    method Exit(key: string) returns (reply: Reply)
      requires Valid()
      modifies this
      ensures Valid()
      ensures reply == if !old(Controlled(key)) then Error
                       else if old(runs)[key].tokens.stop then Ignored
                       else if old(runs)[key].tokens.exit then WouldBlock else Sent
      ensures if reply == Sent then Advanced(old(runs), old(histories), runs, histories, key, SendExit)
              else runs == old(runs) && histories == old(histories)
    {
      if !Controlled(key) {
        return Error;
      }
      var tokens := runs[key].tokens;
      if tokens.stop {
        return Ignored;
      }
      if tokens.exit {
        return WouldBlock;
      }
      ghost var before := runs;
      runs := runs[key := WithTokens(runs[key], tokens.(exit := true))];
      Record(before, key, SendExit);
      return Sent;
    }

    /** One turn of the polling select: a ready channel if there is one, the business logic otherwise. */
    method Poll(key: string, preferStop: bool, outcome: Outcome) returns (step: Step)
      requires Valid() && key in runs && runs[key].loop == Polling
      modifies this
      ensures Valid() && Advanced(old(runs), old(histories), runs, histories, key, step)
      ensures step in {TakeStop, TakePause, CallLogic(outcome)}
      ensures step == CallLogic(outcome) <==> !old(runs)[key].tokens.stop && !old(runs)[key].tokens.pause
    {
      ghost var before := runs;
      var e := runs[key];
      if e.tokens.stop && (preferStop || !e.tokens.pause) {
        runs := runs[key := LoopResult(WithTokens(e, e.tokens.(stop := false)), TaskStatus.Stop, Returned)];
        step := TakeStop;
      } else if e.tokens.pause {
        runs := runs[key := LoopResult(WithTokens(e, e.tokens.(pause := false)), Paused, Held)];
        step := TakePause;
      } else {
        runs := runs[key := AfterCall(e, outcome)];
        step := CallLogic(outcome);
      }
      Record(before, key, step);
    }

    /** One turn of the select inside a pause; `None` while it blocks. */
    method WaitInPause(key: string, preferStop: bool) returns (step: Option<Step>)
      requires Valid() && key in runs && runs[key].loop == Held
      modifies this
      ensures Valid()
      ensures step == None <==> !old(runs)[key].tokens.stop && !old(runs)[key].tokens.resume
      ensures step == None ==> runs == old(runs) && histories == old(histories)
      ensures step.Some? ==>
                && step.value in {TakeStop, TakeResume}
                && Advanced(old(runs), old(histories), runs, histories, key, step.value)
    {
      ghost var before := runs;
      var e := runs[key];
      if e.tokens.stop && (preferStop || !e.tokens.resume) {
        runs := runs[key := LoopResult(WithTokens(e, e.tokens.(stop := false)), TaskStatus.Stop, Returned)];
        step := Some(TakeStop);
      } else if e.tokens.resume {
        runs := runs[key := LoopResult(WithTokens(e, e.tokens.(resume := false)), Running, Polling)];
        step := Some(TakeResume);
      } else {
        return None;
      }
      Record(before, key, step.value);
    }

    /** The surrounding goroutine's select and its deferred part; `None` while it blocks. Afterwards the key can be run again. */
    method Watch(key: string, preferExit: bool) returns (step: Option<Step>)
      requires Valid() && Controlled(key)
      modifies this
      ensures Valid()
      ensures step == None <==> !old(runs)[key].tokens.exit && old(runs)[key].loop in {Polling, Held}
      ensures step == None ==> runs == old(runs) && histories == old(histories)
      ensures step.Some? ==>
                && step.value in {ForceExit, LoopEnded} && !Controlled(key)
                && Advanced(old(runs), old(histories), runs, histories, key, step.value)
    {
      ghost var before := runs;
      var e := runs[key];
      if e.tokens.exit && (preferExit || e.loop in {Polling, Held}) {
        var ended := WithTokens(e, e.tokens.(exit := false)).(watching := false, exited := true);
        runs := runs[key := Publish(ended, Failed)];
        step := Some(ForceExit);
      } else if e.loop == Crashed {
        runs := runs[key := Publish(e.(watching := false), Failed)];
        step := Some(LoopEnded);
      } else if e.loop == Returned {
        runs := runs[key := e.(watching := false)];
        step := Some(LoopEnded);
      } else {
        return None;
      }
      Record(before, key, step.value);
    }
  }
}
