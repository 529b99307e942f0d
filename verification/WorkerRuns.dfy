/**
 Whole runs of a worker: the producer that enqueues changes, any number of
 consumers that fetch a change and call the executor, and the monitor that
 processes results and marks the task done. Every interleaving of these steps
 is a run. Waiting is left to `QueueProtocol`: it changes none of this state.
 */
module WorkerRuns {
  import opened TaskModel
  import opened WorkQueue

  datatype Event =
    | Delivered(task: string)
    | Commanded(task: string)
    | Finished(task: string)

  datatype Worker = Worker(
    q: State<Change>,
    pending: map<nat, Change>, // fetched by a consumer that has not called the executor yet
    failed: map<nat, Change>,  // refused by the executor, to be marked done by its consumer
    log: seq<Event>)

  datatype Step =
    | Enqueue(change: Change)
    | Fetch(consumer: nat)
    | Command(consumer: nat, ok: bool)
    | Jump(consumer: nat)
    | Result(task: string)
    | ShutDown

  function Init(): Worker {
    Worker(Empty(), map[], map[], [])
  }

  predicate Enabled(w: Worker, step: Step) {
    match step
    case Enqueue(_) => true
    case Fetch(c) => c !in w.pending && c !in w.failed && w.q.queue != []
    case Command(c, _) => c in w.pending
    case Jump(c) => c in w.failed
    case Result(_) => true
    case ShutDown => true
  }

  function Next(w: Worker, step: Step): Worker
    requires Enabled(w, step)
  {
    match step
    case Enqueue(change) => w.(q := AfterAdd(UniKey, w.q, change))
    case Fetch(c) =>
      var change := w.q.queue[0];
      w.(q := AfterGet(UniKey, w.q), pending := w.pending[c := change], log := w.log + [Delivered(change.taskKey)])
    case Command(c, ok) =>
      var change := w.pending[c];
      w.(pending := w.pending - {c},
         failed := if ok then w.failed else w.failed[c := change],
         log := w.log + [Commanded(change.taskKey)])
    case Jump(c) =>
      var change := w.failed[c];
      w.(q := AfterDone(UniKey, w.q, change), failed := w.failed - {c}, log := w.log + [Finished(change.taskKey)])
    case Result(task) =>
      w.(q := AfterDone(UniKey, w.q, KeyOnly(task)), log := w.log + [Finished(task)])
    case ShutDown => w.(q := AfterShutDown(w.q))
  }

  predicate Legal(w: Worker, steps: seq<Step>)
    decreases |steps|
  {
    steps != [] ==> Enabled(w, steps[0]) && Legal(Next(w, steps[0]), steps[1..])
  }

  function Run(w: Worker, steps: seq<Step>): Worker
    requires Legal(w, steps)
    decreases |steps|
  {
    if steps == [] then w else Run(Next(w, steps[0]), steps[1..])
  }

  lemma {:induction false} RunConcat(w: Worker, a: seq<Step>, b: seq<Step>)
    requires Legal(w, a) && Legal(Run(w, a), b)
    ensures Legal(w, a + b) && Run(w, a + b) == Run(Run(w, a), b)
    decreases |a|
  {
    if a == [] {
      assert a + b == b;
    } else {
      assert (a + b)[1..] == a[1..] + b;
      RunConcat(Next(w, a[0]), a[1..], b);
    }
  }

  // ----- Events separated by a Done -----

  /** Some `e` is not yet followed by an `end`. */
  ghost predicate Open(log: seq<Event>, e: Event, end: Event) {
    exists i :: 0 <= i < |log| && log[i] == e && end !in log[i..]
  }

  /** Between any two `e` there is an `end`. */
  ghost predicate Separated(log: seq<Event>, e: Event, end: Event) {
    forall i, j :: 0 <= i < j < |log| && log[i] == e && log[j] == e ==> end in log[i..j]
  }

  lemma AppendOpen(log: seq<Event>, x: Event, e: Event, end: Event)
    requires e != end
    ensures Open(log + [x], e, end) <==> x != end && (x == e || Open(log, e, end))
  {
    var more := log + [x];
    if Open(more, e, end) {
      var i :| 0 <= i < |more| && more[i] == e && end !in more[i..];
      assert more[i..][|log| - i] == x;
      if i < |log| {
        assert more[i..] == log[i..] + [x];
        assert log[i] == e && end !in log[i..];
      }
    }
    if x != end && x == e {
      assert more[|log|] == e && more[|log|..] == [x];
    } else if x != end && Open(log, e, end) {
      var i :| 0 <= i < |log| && log[i] == e && end !in log[i..];
      assert more[i] == e && more[i..] == log[i..] + [x];
    }
  }

  lemma AppendSeparated(log: seq<Event>, x: Event, e: Event, end: Event)
    requires Separated(log, e, end)
    ensures Separated(log + [x], e, end) <==> !(x == e && Open(log, e, end))
  {
    var more := log + [x];
    if x == e && Open(log, e, end) {
      var i :| 0 <= i < |log| && log[i] == e && end !in log[i..];
      assert more[i] == e && more[|log|] == e && more[i..|log|] == log[i..];
    } else {
      forall i, j | 0 <= i < j < |more| && more[i] == e && more[j] == e ensures end in more[i..j] {
        if j < |log| {
          assert more[i..j] == log[i..j];
        } else {
          assert log[i] == e && more[i..j] == log[i..];
        }
      }
    }
  }

  lemma Append(log: seq<Event>, x: Event, e: Event, end: Event)
    requires Separated(log, e, end) && e != end
    ensures Open(log + [x], e, end) <==> x != end && (x == e || Open(log, e, end))
    ensures Separated(log + [x], e, end) <==> !(x == e && Open(log, e, end))
  {
    AppendOpen(log, x, e, end);
    AppendSeparated(log, x, e, end);
  }

  // ----- Deliveries -----

  ghost predicate DeliveryInv(w: Worker, task: string) {
    && Consistent(UniKey, w.q)
    && Separated(w.log, Delivered(task), Finished(task))
    && (Open(w.log, Delivered(task), Finished(task)) ==> KeyOnly(task) in w.q.processing)
  }

  lemma NextKeepsDelivery(w: Worker, step: Step, task: string)
    requires Enabled(w, step) && DeliveryInv(w, task)
    ensures DeliveryInv(Next(w, step), task)
  {
    var w' := Next(w, step);
    match step
    case Enqueue(change) => AddKeepsConsistent(UniKey, w.q, change);
    case Fetch(c) =>
      GetKeepsConsistent(UniKey, w.q);
      Append(w.log, Delivered(w.q.queue[0].taskKey), Delivered(task), Finished(task));
    case Command(c, ok) =>
      Append(w.log, Commanded(w.pending[c].taskKey), Delivered(task), Finished(task));
    case Jump(c) =>
      Append(w.log, Finished(w.failed[c].taskKey), Delivered(task), Finished(task));
    case Result(t) =>
      Append(w.log, Finished(t), Delivered(task), Finished(task));
    case ShutDown =>
  }

  /** In every run, two deliveries of the same task are separated by a Done for that task. */
  lemma {:induction false} DeliveriesAreSerial(w: Worker, steps: seq<Step>, task: string)
    requires DeliveryInv(w, task) && Legal(w, steps)
    ensures DeliveryInv(Run(w, steps), task)
    decreases |steps|
  {
    if steps != [] {
      NextKeepsDelivery(w, steps[0], task);
      DeliveriesAreSerial(Next(w, steps[0]), steps[1..], task);
    }
  }

  // ----- Executor commands -----

  /** The step marks `task` done while some consumer still holds a change for it that it has not carried out. */
  predicate FinishesEarly(w: Worker, step: Step) {
    match step
    case Result(task) => exists c :: c in w.pending && w.pending[c].taskKey == task
    case Jump(c) =>
      c in w.failed && exists d :: d in w.pending && w.pending[d].taskKey == w.failed[c].taskKey
    case _ => false
  }

  /** It does so while the queue still accepts changes, so that another change for the task can get in. */
  predicate Overtakes(w: Worker, step: Step) {
    FinishesEarly(w, step) && !w.q.shuttingDown
  }

  predicate NeverOvertakes(w: Worker, steps: seq<Step>)
    requires Legal(w, steps)
    decreases |steps|
  {
    steps != [] ==> !Overtakes(w, steps[0]) && NeverOvertakes(Next(w, steps[0]), steps[1..])
  }

  /** Every fetched change holds its key, and no two hold the same one. */
  ghost predicate Claimed(w: Worker) {
    && Consistent(UniKey, w.q)
    && (forall c :: c in w.pending ==> c !in w.failed && UniKey(w.pending[c]) in w.q.processing)
    && (forall c, d :: c in w.pending && d in w.pending && w.pending[c].taskKey == w.pending[d].taskKey ==> c == d)
  }

  ghost predicate CommandInv(w: Worker, task: string) {
    && Separated(w.log, Commanded(task), Finished(task))
    && (Open(w.log, Commanded(task), Finished(task)) ==>
          && KeyOnly(task) in w.q.processing
          && forall c :: c in w.pending ==> w.pending[c].taskKey != task)
  }

  lemma NextKeepsClaims(w: Worker, step: Step)
    requires Enabled(w, step) && Claimed(w) && !FinishesEarly(w, step)
    ensures Claimed(Next(w, step))
  {
    match step
    case Enqueue(change) => AddKeepsConsistent(UniKey, w.q, change);
    case Fetch(c) => GetKeepsConsistent(UniKey, w.q);
    case Command(c, ok) =>
    case Jump(c) =>
    case Result(t) =>
    case ShutDown =>
  }

  lemma NextKeepsCommand(w: Worker, step: Step, task: string)
    requires Enabled(w, step) && Claimed(w) && CommandInv(w, task) && !FinishesEarly(w, step)
    ensures CommandInv(Next(w, step), task)
  {
    match step
    case Enqueue(change) =>
    case Fetch(c) =>
      GetKeepsConsistent(UniKey, w.q);
      Append(w.log, Delivered(w.q.queue[0].taskKey), Commanded(task), Finished(task));
    case Command(c, ok) =>
      Append(w.log, Commanded(w.pending[c].taskKey), Commanded(task), Finished(task));
    case Jump(c) =>
      Append(w.log, Finished(w.failed[c].taskKey), Commanded(task), Finished(task));
    case Result(t) =>
      Append(w.log, Finished(t), Commanded(task), Finished(task));
    case ShutDown =>
  }

  /** No key is held twice, and a task with an unfinished command is held by nobody. */
  ghost predicate LastRound(w: Worker, task: string) {
    && w.q.shuttingDown
    && Consistent(UniKey, w.q)
    && (forall c :: c in w.pending ==> UniKey(w.pending[c]) !in w.q.dirty)
    && (forall c, d :: c in w.pending && d in w.pending && w.pending[c].taskKey == w.pending[d].taskKey ==> c == d)
    && Separated(w.log, Commanded(task), Finished(task))
    && (Open(w.log, Commanded(task), Finished(task)) ==>
          && KeyOnly(task) !in w.q.dirty
          && forall c :: c in w.pending ==> w.pending[c].taskKey != task)
  }

  lemma NextKeepsLastRound(w: Worker, step: Step, task: string)
    requires Enabled(w, step) && LastRound(w, task)
    ensures LastRound(Next(w, step), task)
  {
    match step
    case Enqueue(change) =>
    case Fetch(c) =>
      GetKeepsConsistent(UniKey, w.q);
      Append(w.log, Delivered(w.q.queue[0].taskKey), Commanded(task), Finished(task));
    case Command(c, ok) =>
      Append(w.log, Commanded(w.pending[c].taskKey), Commanded(task), Finished(task));
    case Jump(c) =>
      Append(w.log, Finished(w.failed[c].taskKey), Commanded(task), Finished(task));
    case Result(t) =>
      Append(w.log, Finished(t), Commanded(task), Finished(task));
    case ShutDown =>
  }

  lemma {:induction false} LastRoundLasts(w: Worker, steps: seq<Step>, task: string)
    requires LastRound(w, task) && Legal(w, steps)
    ensures LastRound(Run(w, steps), task)
    decreases |steps|
  {
    if steps != [] {
      NextKeepsLastRound(w, steps[0], task);
      LastRoundLasts(Next(w, steps[0]), steps[1..], task);
    }
  }

  /** After shutdown, commands stay serial however early tasks are finished. */
  lemma CommandsStaySerialAfterShutDown(w: Worker, steps: seq<Step>)
    requires SerialSoFar(w) && w.q.shuttingDown && Legal(w, steps)
    ensures SerialCommands(Run(w, steps))
  {
    forall task ensures Separated(Run(w, steps).log, Commanded(task), Finished(task)) {
      assert CommandInv(w, task);
      LastRoundLasts(w, steps, task);
    }
  }

  ghost predicate SerialCommands(w: Worker) {
    forall task :: Separated(w.log, Commanded(task), Finished(task))
  }

  ghost predicate SerialSoFar(w: Worker) {
    Claimed(w) && forall task :: CommandInv(w, task)
  }

  /** If no Done overtakes a command, two executor commands for a task are separated by a Done for it. */
  lemma {:induction false} CommandsAreSerial(w: Worker, steps: seq<Step>)
    requires SerialSoFar(w) && Legal(w, steps) && NeverOvertakes(w, steps)
    ensures SerialCommands(Run(w, steps))
    decreases |steps|
  {
    if w.q.shuttingDown {
      CommandsStaySerialAfterShutDown(w, steps);
    } else if steps != [] {
      NextKeepsSerial(w, steps[0]);
      CommandsAreSerial(Next(w, steps[0]), steps[1..]);
    } else {
      assert forall task :: CommandInv(w, task) ==> Separated(w.log, Commanded(task), Finished(task));
    }
  }

  lemma NextKeepsSerial(w: Worker, step: Step)
    requires Enabled(w, step) && SerialSoFar(w) && !FinishesEarly(w, step)
    ensures SerialSoFar(Next(w, step))
  {
    NextKeepsClaims(w, step);
    forall task ensures CommandInv(Next(w, step), task) {
      NextKeepsCommand(w, step, task);
    }
  }

  // ----- What an overtaking Done can lead to -----

  lemma FirstStep(w: Worker, step: Step, rest: seq<Step>)
    requires Enabled(w, step)
    ensures Legal(w, [step] + rest) <==> Legal(Next(w, step), rest)
    ensures Legal(Next(w, step), rest) ==> Run(w, [step] + rest) == Run(Next(w, step), rest)
  {
    assert ([step] + rest)[1..] == rest;
  }

  /** Consumer `c` fetches the head of the queue and carries it out. */
  function Served(w: Worker, c: nat): Worker
    requires w.q.queue != [] && c !in w.pending && c !in w.failed
  {
    Next(Next(w, Fetch(c)), Command(c, true))
  }

  lemma ServedMeaning(w: Worker, c: nat)
    requires w.q.queue != [] && c !in w.pending && c !in w.failed
    ensures var w2 := Served(w, c);
            var head := w.q.queue[0].taskKey;
            && w2.q == AfterGet(UniKey, w.q) && w2.pending == w.pending && w2.failed == w.failed
            && w2.log == w.log + [Delivered(head)] + [Commanded(head)]
  {
    assert w.pending[c := w.q.queue[0]] - {c} == w.pending;
  }

  lemma ServeFirst(w: Worker, c: nat, rest: seq<Step>)
    requires w.q.queue != [] && c !in w.pending && c !in w.failed
    requires Legal(Served(w, c), rest)
    ensures Legal(w, [Fetch(c)] + ([Command(c, true)] + rest))
    ensures Run(w, [Fetch(c)] + ([Command(c, true)] + rest)) == Run(Served(w, c), rest)
  {
    FirstStep(Next(w, Fetch(c)), Command(c, true), rest);
    FirstStep(w, Fetch(c), [Command(c, true)] + rest);
  }

  predicate MarksDone(step: Step) {
    step.Result? || step.Jump?
  }

  /** Consumer `c` fetches and carries out changes until it has carried out one for `task`, which is in the queue. */
  lemma {:induction false} ServeUntil(w: Worker, c: nat, task: string) returns (steps: seq<Step>)
    requires Consistent(UniKey, w.q) && KeyOnly(task) in w.q.dirty
    requires c !in w.pending && c !in w.failed
    requires Separated(w.log, Commanded(task), Finished(task))
    requires Open(w.log, Commanded(task), Finished(task))
    ensures Legal(w, steps) && forall i :: 0 <= i < |steps| ==> !MarksDone(steps[i])
    ensures !Separated(Run(w, steps).log, Commanded(task), Finished(task))
    decreases |w.q.queue|
  {
    var head := w.q.queue[0].taskKey;
    var w2 := Served(w, c);
    ServedMeaning(w, c);
    GetKeepsConsistent(UniKey, w.q);
    Append(w.log, Delivered(head), Commanded(task), Finished(task));
    Append(w.log + [Delivered(head)], Commanded(head), Commanded(task), Finished(task));
    var rest := [];
    if head != task {
      rest := ServeUntil(w2, c, task);
    }
    ServeFirst(w, c, rest);
    steps := [Fetch(c)] + ([Command(c, true)] + rest);
  }

  lemma {:induction false} NothingOvertakes(w: Worker, steps: seq<Step>)
    requires Legal(w, steps) && forall i :: 0 <= i < |steps| ==> !MarksDone(steps[i])
    ensures NeverOvertakes(w, steps)
    decreases |steps|
  {
    if steps != [] {
      NothingOvertakes(Next(w, steps[0]), steps[1..]);
    }
  }

  /** `task` has just been marked done under consumer `c`: it carries out its change, which is then asked for and served again. */
  lemma CommandTwice(w: Worker, c: nat) returns (steps: seq<Step>)
    requires Consistent(UniKey, w.q) && !w.q.shuttingDown
    requires c in w.pending && c !in w.failed && UniKey(w.pending[c]) !in w.q.processing
    requires var task := w.pending[c].taskKey;
             Separated(w.log, Commanded(task), Finished(task)) && !Open(w.log, Commanded(task), Finished(task))
    ensures Legal(w, steps) && forall i :: 0 <= i < |steps| ==> !MarksDone(steps[i])
    ensures !SerialCommands(Run(w, steps))
  {
    var change := w.pending[c];
    var task := change.taskKey;
    var w1 := Next(w, Command(c, true));
    var w2 := Next(w1, Enqueue(change));
    Append(w.log, Commanded(task), Commanded(task), Finished(task));
    AddKeepsConsistent(UniKey, w1.q, change);
    var rest := ServeUntil(w2, c, task);
    FirstStep(w1, Enqueue(change), rest);
    FirstStep(w, Command(c, true), [Enqueue(change)] + rest);
    steps := [Command(c, true)] + ([Enqueue(change)] + rest);
  }

  /** A Done that overtakes the command of consumer `c` can be followed by two commands with no Done between. */
  lemma OvertakingBreaksSerialCommands(w: Worker, step: Step) returns (steps: seq<Step>)
    requires SerialSoFar(w) && Enabled(w, step) && Overtakes(w, step)
    ensures Legal(w, [step] + steps) && NeverOvertakes(Next(w, step), steps)
    ensures !SerialCommands(Run(w, [step] + steps))
  {
    var task := if step.Result? then step.task else w.failed[step.consumer].taskKey;
    var c :| c in w.pending && w.pending[c].taskKey == task;
    var w1 := Next(w, step);
    assert CommandInv(w, task);
    Append(w.log, Finished(task), Commanded(task), Finished(task));
    assert w1.pending == w.pending && w1.log == w.log + [Finished(task)];
    steps := CommandTwice(w1, c);
    NothingOvertakes(w1, steps);
    FirstStep(w, step, steps);
  }

  /**
   The exact condition: after a step from a state that is serial so far, every
   continuation without an overtaking Done has serial commands if and only if
   the step itself is none.
   */
  lemma StepKeepsCommandsSerialIff(w: Worker, step: Step)
    requires SerialSoFar(w) && Enabled(w, step)
    ensures (forall steps :: Legal(w, [step] + steps) && NeverOvertakes(Next(w, step), steps) ==>
                               SerialCommands(Run(w, [step] + steps)))
            <==> !Overtakes(w, step)
  {
    if Overtakes(w, step) {
      var steps := OvertakingBreaksSerialCommands(w, step);
      assert Legal(w, [step] + steps) && !SerialCommands(Run(w, [step] + steps));
    } else {
      forall steps | Legal(w, [step] + steps) && NeverOvertakes(Next(w, step), steps)
        ensures SerialCommands(Run(w, [step] + steps))
      {
        FirstStep(w, step, steps);
        if w.q.shuttingDown {
          CommandsStaySerialAfterShutDown(w, [step] + steps);
        } else {
          NextKeepsSerial(w, step);
          CommandsAreSerial(Next(w, step), steps);
        }
      }
    }
  }

  lemma SerialStep(w: Worker, step: Step) returns (w': Worker)
    requires Enabled(w, step) && SerialSoFar(w) && !FinishesEarly(w, step)
    ensures w' == Next(w, step) && SerialSoFar(w')
  {
    w' := Next(w, step);
    NextKeepsSerial(w, step);
  }

  /** A change is added to an idle queue and fetched. */
  lemma FetchOne(w: Worker, change: Change, c: nat) returns (w': Worker)
    requires SerialSoFar(w) && w.q.queue == [] && Accepts(UniKey, w.q, change)
    requires c !in w.pending && c !in w.failed
    ensures Legal(w, [Enqueue(change), Fetch(c)]) && Run(w, [Enqueue(change), Fetch(c)]) == w'
    ensures SerialSoFar(w') && w'.q == w.q.(processing := w.q.processing + {UniKey(change)})
    ensures w'.pending == w.pending[c := change] && w'.failed == w.failed
  {
    var w1 := SerialStep(w, Enqueue(change));
    assert w1.q.queue == [change] && [change][1..] == [];
    assert UniKey(change) !in w.q.dirty;
    w' := SerialStep(w1, Fetch(c));
    FirstStep(w1, Fetch(c), []);
    FirstStep(w, Enqueue(change), [Fetch(c)]);
  }

  /** A fetched task is overtaken by a result for it: a run that is serial so far gets there. */
  lemma ResultCanOvertake(change: Change) returns (w: Worker)
    ensures Legal(Init(), [Enqueue(change), Fetch(0)]) && w == Run(Init(), [Enqueue(change), Fetch(0)])
    ensures SerialSoFar(w) && Overtakes(w, Result(change.taskKey))
    ensures w == Worker(w.q, map[0 := change], map[], w.log)
    ensures w.q.queue == [] && !w.q.shuttingDown && w.q.processing == {UniKey(change)} && w.q.dirty == {}
  {
    assert SerialSoFar(Init());
    w := FetchOne(Init(), change, 0);
  }

  /**
   The command is refused, a result releases the task, and it is fetched again:
   now giving up the refused change overtakes the new one.
   */
  lemma JumpCanOvertake(change: Change) returns (w: Worker, steps: seq<Step>)
    ensures Legal(Init(), steps) && w == Run(Init(), steps)
    ensures SerialSoFar(w) && Overtakes(w, Jump(0))
  {
    var w2 := ResultCanOvertake(change);
    var w3 := SerialStep(w2, Command(0, false));
    var w4 := SerialStep(w3, Result(change.taskKey));
    w := FetchOne(w4, change, 1);
    assert w.pending[1] == change && w.failed[0] == change;
    var rest := [Enqueue(change), Fetch(1)];
    FirstStep(w3, Result(change.taskKey), rest);
    FirstStep(w2, Command(0, false), [Result(change.taskKey)] + rest);
    steps := [Enqueue(change), Fetch(0)] + ([Command(0, false)] + ([Result(change.taskKey)] + rest));
    RunConcat(Init(), [Enqueue(change), Fetch(0)], [Command(0, false)] + ([Result(change.taskKey)] + rest));
  }

  // ----- The single producer -----

  /**
   Only the producer adds keys. Once it has seen that a task is not in the
   queue, nothing any other thread does, and no change it enqueues for another
   task, can make its own change for that task a duplicate.
   */
  lemma {:induction false} CheckedChangeIsNeverIntercepted(w: Worker, steps: seq<Step>, change: Change)
    requires !Exists(UniKey, w.q, KeyOnly(change.taskKey)) && Legal(w, steps)
    requires Consistent(UniKey, w.q)
    requires forall i :: 0 <= i < |steps| && steps[i].Enqueue? ==> steps[i].change.taskKey != change.taskKey
    ensures !Exists(UniKey, Run(w, steps).q, change)
    ensures Accepts(UniKey, Run(w, steps).q, change) || Run(w, steps).q.shuttingDown
    decreases |steps|
  {
    if steps != [] {
      match steps[0] {
        case Enqueue(other) => AddKeepsConsistent(UniKey, w.q, other);
        case Fetch(c) => GetKeepsConsistent(UniKey, w.q);
        case _ =>
      }
      CheckedChangeIsNeverIntercepted(Next(w, steps[0]), steps[1..], change);
    }
  }

  predicate DoneFor(w: Worker, step: Step, task: string) {
    match step
    case Result(t) => t == task
    case Jump(c) => c in w.failed && w.failed[c].taskKey == task
    case _ => false
  }

  /** Some step marks `task` done while it is being processed. */
  predicate Releases(w: Worker, steps: seq<Step>, task: string)
    requires Legal(w, steps)
    decreases |steps|
  {
    && steps != []
    && ((DoneFor(w, steps[0], task) && KeyOnly(task) in w.q.processing) || Releases(Next(w, steps[0]), steps[1..], task))
  }

  lemma NextKeepsBusy(w: Worker, step: Step, task: string)
    requires Consistent(UniKey, w.q) && Enabled(w, step) && Exists(UniKey, w.q, KeyOnly(task))
    ensures Consistent(UniKey, Next(w, step).q)
    ensures Exists(UniKey, Next(w, step).q, KeyOnly(task)) <==>
              !(DoneFor(w, step, task) && KeyOnly(task) in w.q.processing)
  {
    match step
    case Enqueue(other) => AddKeepsConsistent(UniKey, w.q, other);
    case Fetch(c) => GetKeepsConsistent(UniKey, w.q);
    case _ =>
  }

  /** A task that was busy is free later exactly when it has been marked done while it was processed. */
  lemma {:induction false} BusyUntilReleased(w: Worker, steps: seq<Step>, task: string)
    requires Consistent(UniKey, w.q) && Legal(w, steps) && Exists(UniKey, w.q, KeyOnly(task))
    requires forall i :: 0 <= i < |steps| && steps[i].Enqueue? ==> steps[i].change.taskKey != task
    ensures Exists(UniKey, Run(w, steps).q, KeyOnly(task)) <==> !Releases(w, steps, task)
    decreases |steps|
  {
    if steps != [] {
      var w' := Next(w, steps[0]);
      NextKeepsBusy(w, steps[0], task);
      if Exists(UniKey, w'.q, KeyOnly(task)) {
        BusyUntilReleased(w', steps[1..], task);
      } else {
        CheckedChangeIsNeverIntercepted(w', steps[1..], KeyOnly(task));
      }
    }
  }

  /** Serialisation from the start of the worker. */
  lemma EveryRunIsSerial(steps: seq<Step>)
    requires Legal(Init(), steps)
    ensures forall task :: Separated(Run(Init(), steps).log, Delivered(task), Finished(task))
    ensures NeverOvertakes(Init(), steps) ==> SerialCommands(Run(Init(), steps))
  {
    forall task ensures Separated(Run(Init(), steps).log, Delivered(task), Finished(task)) {
      DeliveriesAreSerial(Init(), steps, task);
    }
    if NeverOvertakes(Init(), steps) {
      CommandsAreSerial(Init(), steps);
    }
  }
}
