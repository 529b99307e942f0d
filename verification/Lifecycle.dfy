/**
 The life of the stored tasks under all their writers: task creation, operate
 requests, assignment, executor results and reconcile exceptions, interleaved
 in any order. An operate request reads and checks in one step and writes in a
 later one, as the scheduler does without a transaction.
 */
module Lifecycle {
  import opened TaskModel
  import L = RunLoop
  import P = Placement
  import R = Rounds

  datatype Operation = Operation(taskKey: string, next: TaskStatus)

  datatype World = World(
    repo: Repo,
    actual: map<string, TaskExecResult>, // what executors have reported, as cached by the workers
    inFlight: map<nat, Operation>)       // operate requests that have checked but not written

  datatype Step =
    | CreateTask(taskKey: string, task: Task)
    | CheckOperate(request: nat, taskKey: string, next: TaskStatus)
    | WriteOperate(request: nat)
    | Assign(taskKey: string, workerID: string)
    | Report(result: TaskExecResult)
    | Except(change: Change)

  function Init(): World {
    World(map[], map[], map[])
  }

  predicate IsReportable(s: TaskStatus) {
    s in {Running, Paused, Stop, Success, Failed}
  }

  predicate IsOperable(s: TaskStatus) {
    s in {Running, Paused, Stop}
  }

  predicate Enabled(w: World, step: Step) {
    match step
    case CreateTask(k, task) => k !in w.repo && task.wantRunStatus == Unset && task.workerID == ""
    case CheckOperate(r, k, next) =>
      r !in w.inFlight && k in w.repo && IsOperable(next) && P.Operate(k, w.repo[k].status, next).Some?
    case WriteOperate(r) => r in w.inFlight
    case Assign(k, _) => k in w.repo
    case Report(result) => IsReportable(result.status)
    case Except(change) => change.IsException()
  }

  function Next(w: World, step: Step): World
    requires Enabled(w, step)
  {
    match step
    case CreateTask(k, task) => w.(repo := w.repo[k := P.NewTask(k, task)])
    case CheckOperate(r, k, next) => w.(inFlight := w.inFlight[r := Operation(k, next)])
    case WriteOperate(r) =>
      var op := w.inFlight[r];
      w.(repo := UpdateTask(w.repo, P.OperatePatch(op.taskKey, op.next)), inFlight := w.inFlight - {r})
    case Assign(k, worker) => w.(repo := UpdateTask(w.repo, P.AssignPatch(k, worker)))
    case Report(result) =>
      w.(repo := UpdateTask(w.repo, R.ResultPatch(result)), actual := R.AfterResult(w.actual, result))
    case Except(change) => w.(repo := UpdateTask(w.repo, R.ExceptionPatch(change)))
  }

  predicate Legal(w: World, steps: seq<Step>)
    decreases |steps|
  {
    steps != [] ==> Enabled(w, steps[0]) && Legal(Next(w, steps[0]), steps[1..])
  }

  function Run(w: World, steps: seq<Step>): World
    requires Legal(w, steps)
    decreases |steps|
  {
    if steps == [] then w else Run(Next(w, steps[0]), steps[1..])
  }

  // ----- The invariant -----

  /** A wait status waits for what is wanted, and a task with a worker wants something definite. */
  ghost predicate TaskInv(t: Task) {
    && (t.status.IsWait() ==> t.status == WaitScheduling || t.status == t.wantRunStatus.PreWait())
    && (t.wantRunStatus == Unset || IsOperable(t.wantRunStatus))
    && (t.workerID != "" ==> t.wantRunStatus != Unset)
    && t.status !in {Unset, NotExist}
  }

  ghost predicate Inv(w: World) {
    && RepoInv(w.repo)
    && (forall k :: k in w.actual ==> w.actual[k].taskKey == k && IsReportable(w.actual[k].status))
    && (forall r :: r in w.inFlight ==> IsOperable(w.inFlight[r].next))
  }

  /** The patches the writers use: a wanted status with its wait status, or a settled status alone. */
  predicate IsWriterPatch(patch: Task) {
    || (IsOperable(patch.wantRunStatus) && patch.status == patch.wantRunStatus.PreWait())
    || (patch.wantRunStatus == Unset && patch.workerID == "" && IsReportable(patch.status))
  }

  lemma PatchKeepsTaskInv(t: Task, patch: Task)
    requires TaskInv(t) && IsWriterPatch(patch)
    ensures TaskInv(Merge(t, patch))
  {
    WaitStatuses(patch.status);
    PreWaitMeaning(patch.wantRunStatus);
  }

  ghost predicate RepoInv(repo: Repo) {
    forall k :: k in repo ==> repo[k].taskKey == k && TaskInv(repo[k])
  }

  lemma UpdateKeepsRepoInv(repo: Repo, patch: Task)
    requires RepoInv(repo) && IsWriterPatch(patch)
    ensures RepoInv(UpdateTask(repo, patch))
  {
    if patch.taskKey in repo {
      PatchKeepsTaskInv(repo[patch.taskKey], patch);
    }
  }

  lemma NextKeepsInv(w: World, step: Step)
    requires Inv(w) && Enabled(w, step)
    ensures Inv(Next(w, step))
  {
    match step
    case CreateTask(k, task) => WaitStatuses(WaitScheduling);
    case CheckOperate(r, k, next) =>
    case WriteOperate(r) => UpdateKeepsRepoInv(w.repo, P.OperatePatch(w.inFlight[r].taskKey, w.inFlight[r].next));
    case Assign(k, worker) => UpdateKeepsRepoInv(w.repo, P.AssignPatch(k, worker));
    case Report(result) => UpdateKeepsRepoInv(w.repo, R.ResultPatch(result));
    case Except(change) => UpdateKeepsRepoInv(w.repo, R.ExceptionPatch(change));
  }

  lemma {:induction false} RunKeepsInv(w: World, steps: seq<Step>)
    requires Inv(w) && Legal(w, steps)
    ensures Inv(Run(w, steps))
    decreases |steps|
  {
    if steps != [] {
      NextKeepsInv(w, steps[0]);
      RunKeepsInv(Next(w, steps[0]), steps[1..]);
    }
  }

  // ----- Results over every run -----

  /** A stored wait status is the initial one or is named after the wanted status. */
  lemma WaitStatusMatchesWant(steps: seq<Step>, k: string)
    requires Legal(Init(), steps) && k in Run(Init(), steps).repo
    ensures var t := Run(Init(), steps).repo[k];
            && (t.status == WaitRunning ==> t.wantRunStatus == Running)
            && (t.status == WaitPaused ==> t.wantRunStatus == Paused)
            && (t.status == WaitStop ==> t.wantRunStatus == Stop)
            && (t.status.IsWait() && t.status != WaitScheduling ==> "wait_" + t.wantRunStatus.Name() <= t.status.Name())
            && (t.workerID != "" ==> t.wantRunStatus in {Running, Paused, Stop})
  {
    RunKeepsInv(Init(), steps);
    var t := Run(Init(), steps).repo[k];
    PreWaitMeaning(t.wantRunStatus);
    WaitStatuses(t.status);
  }

  /** In any run, an operate request is accepted exactly for a settled live task asked for something else. */
  lemma OperateAcceptsSettledTasksOnly(steps: seq<Step>, k: string, next: TaskStatus)
    requires Legal(Init(), steps) && k in Run(Init(), steps).repo && IsOperable(next)
    ensures var status := Run(Init(), steps).repo[k].status;
            && (P.Operate(k, status, next).Some? <==> status in {Running, Paused} && next != status)
            && (status.IsWait() || status.IsFinal() ==> P.Operate(k, status, next) == None)
  {
    RunKeepsInv(Init(), steps);
    var status := Run(Init(), steps).repo[k].status;
    TableMeaning(status, next);
    WaitStatuses(status);
    PreWaitMeaning(next);
  }

  /**
   Which pairs a reconcile round cannot handle: whatever the run and whatever
   was busy, only a task nobody has assigned or operated on. For tasks that
   have a worker the unsupported branch of `diff` is never reached.
   */
  lemma DiffIsTotalOnAssignedTasks(steps: seq<Step>, busy: set<string>, info: R.TriggerInfo, k: string)
    requires Legal(Init(), steps)
    requires R.SeenAt(Run(Init(), steps).repo, Run(Init(), steps).actual, busy, info, k).Some?
    ensures var pair := R.SeenAt(Run(Init(), steps).repo, Run(Init(), steps).actual, busy, info, k).value;
            !pair.Finished() ==>
              && (pair.Unsupported() <==> pair.want.Some? && pair.want.value.wantRunStatus == Unset)
              && (pair.want.Some? && pair.want.value.workerID != "" ==> !pair.Unsupported())
  {
    RunKeepsInv(Init(), steps);
    var pair := R.SeenAt(Run(Init(), steps).repo, Run(Init(), steps).actual, busy, info, k).value;
    TableMeaning(pair.ActualStatus(), pair.WantStatus());
  }

  // ----- Finished tasks -----

  predicate HasRequest(w: World, k: string) {
    exists r :: r in w.inFlight && w.inFlight[r].taskKey == k
  }

  ghost predicate Finished(w: World, k: string) {
    k in w.repo && w.repo[k].status.IsFinal()
  }

  /** The other writers that take a task out of a final status: an assignment, a late report, an exception. */
  predicate Disturbs(step: Step, k: string) {
    match step
    case Assign(a, _) => a == k
    case Report(result) => result.taskKey == k && !result.status.IsFinal()
    case Except(change) => change.taskKey == k
    case _ => false
  }

  predicate Revives(w: World, step: Step, k: string) {
    Disturbs(step, k) || (step.WriteOperate? && step.request in w.inFlight && w.inFlight[step.request].taskKey == k)
  }

  /** Exactly which steps take a finished task out of its final status. */
  lemma StepKeepsFinishedIff(w: World, step: Step, k: string)
    requires Inv(w) && Enabled(w, step) && Finished(w, k)
    ensures k in Next(w, step).repo
    ensures Finished(Next(w, step), k) <==> !Revives(w, step, k)
  {
    match step
    case CreateTask(a, task) =>
    case CheckOperate(r, a, next) =>
    case WriteOperate(r) => WriterKeepsFinishedIff(w, P.OperatePatch(w.inFlight[r].taskKey, w.inFlight[r].next), k);
    case Assign(a, worker) => WriterKeepsFinishedIff(w, P.AssignPatch(a, worker), k);
    case Report(result) => WriterKeepsFinishedIff(w, R.ResultPatch(result), k);
    case Except(change) => WriterKeepsFinishedIff(w, R.ExceptionPatch(change), k);
  }

  lemma WriterKeepsFinishedIff(w: World, patch: Task, k: string)
    requires Finished(w, k) && IsWriterPatch(patch)
    ensures k in UpdateTask(w.repo, patch)
    ensures UpdateTask(w.repo, patch)[k].status.IsFinal() <==> patch.taskKey != k || patch.status.IsFinal()
    ensures IsOperable(patch.wantRunStatus) ==> !patch.status.IsFinal()
  {
    PreWaitMeaning(patch.wantRunStatus);
    WaitStatuses(patch.status);
  }

  /** Nothing along the run takes `k` out of a final status. */
  ghost predicate Undisturbed(w: World, steps: seq<Step>, k: string)
    requires Legal(w, steps)
    decreases |steps|
  {
    steps != [] ==> !Revives(w, steps[0], k) && Undisturbed(Next(w, steps[0]), steps[1..], k)
  }

  ghost predicate FinishedThroughout(w: World, steps: seq<Step>, k: string)
    requires Legal(w, steps)
    decreases |steps|
  {
    Finished(w, k) && (steps != [] ==> FinishedThroughout(Next(w, steps[0]), steps[1..], k))
  }

  /** A finished task is finished all along a run exactly when no step of the run revives it. */
  lemma {:induction false} StaysFinishedIffUndisturbed(w: World, steps: seq<Step>, k: string)
    requires Inv(w) && Legal(w, steps) && Finished(w, k)
    ensures FinishedThroughout(w, steps, k) <==> Undisturbed(w, steps, k)
    decreases |steps|
  {
    if steps != [] {
      StepKeepsFinishedIff(w, steps[0], k);
      if Finished(Next(w, steps[0]), k) {
        NextKeepsInv(w, steps[0]);
        StaysFinishedIffUndisturbed(Next(w, steps[0]), steps[1..], k);
      } else {
        assert !FinishedThroughout(Next(w, steps[0]), steps[1..], k);
      }
    }
  }

  lemma {:induction false} ThroughoutMeansAtEnd(w: World, steps: seq<Step>, k: string)
    requires Legal(w, steps) && FinishedThroughout(w, steps, k)
    ensures Finished(Run(w, steps), k)
    decreases |steps|
  {
    if steps != [] {
      ThroughoutMeansAtEnd(Next(w, steps[0]), steps[1..], k);
    }
  }

  // ----- Operate requests that race a result -----

  /** With no request in flight none gets past the check of a finished task. */
  lemma {:induction false} NoRequestNoRevival(w: World, steps: seq<Step>, k: string)
    requires Inv(w) && Legal(w, steps) && Finished(w, k) && !HasRequest(w, k)
    requires forall i :: 0 <= i < |steps| ==> !Disturbs(steps[i], k)
    ensures Undisturbed(w, steps, k)
    decreases |steps|
  {
    if steps != [] {
      StepKeepsFinishedIff(w, steps[0], k);
      NextKeepsInv(w, steps[0]);
      if steps[0].CheckOperate? {
        TableMeaning(w.repo[steps[0].taskKey].status, steps[0].next);
      }
      NoRequestNoRevival(Next(w, steps[0]), steps[1..], k);
    }
  }

  /**
   Left alone by the other writers, a finished task stays finished whatever
   requests follow, exactly when none was in flight.
   */
  lemma RequestsKeepFinishedIffNoneInFlight(w: World, k: string)
    requires Inv(w) && Finished(w, k)
    ensures (forall steps :: Legal(w, steps) && (forall i :: 0 <= i < |steps| ==> !Disturbs(steps[i], k)) ==>
                               Finished(Run(w, steps), k))
            <==> !HasRequest(w, k)
  {
    if HasRequest(w, k) {
      var r :| r in w.inFlight && w.inFlight[r].taskKey == k;
      RequestInFlightRevivesFinished(w, r);
      assert !Finished(Run(w, [WriteOperate(r)]), k);
    } else {
      forall steps | Legal(w, steps) && (forall i :: 0 <= i < |steps| ==> !Disturbs(steps[i], k))
        ensures Finished(Run(w, steps), k)
      {
        NoRequestNoRevival(w, steps, k);
        StaysFinishedIffUndisturbed(w, steps, k);
        ThroughoutMeansAtEnd(w, steps, k);
      }
    }
  }

  /** The write of a request still in flight when the task finishes puts it back into a wait status. */
  lemma RequestInFlightRevivesFinished(w: World, r: nat)
    requires Inv(w) && r in w.inFlight
    requires var k := w.inFlight[r].taskKey; k in w.repo && w.repo[k].status.IsFinal()
    ensures Legal(w, [WriteOperate(r)])
    ensures var op := w.inFlight[r];
            var f := Run(w, [WriteOperate(r)]);
            && op.taskKey in f.repo && f.repo[op.taskKey].status == op.next.PreWait()
            && f.repo[op.taskKey].status.IsWait() && !f.repo[op.taskKey].status.IsFinal()
  {
    var op := w.inFlight[r];
    PreWaitMeaning(op.next);
    WaitStatuses(op.next.PreWait());
    assert [WriteOperate(r)][1..] == [];
    assert Run(w, [WriteOperate(r)]) == Run(Next(w, WriteOperate(r)), []);
  }

  /** And such a state is reachable: the request checks a running task, which then succeeds. */
  lemma RequestCanBeInFlightAtFinish(k: string, task: Task) returns (steps: seq<Step>)
    requires task.wantRunStatus == Unset && task.workerID == ""
    ensures Legal(Init(), steps)
    ensures var w := Run(Init(), steps);
            0 in w.inFlight && w.inFlight[0].taskKey == k && k in w.repo && w.repo[k].status.IsFinal()
  {
    var w0 := Init();
    var s1 := CreateTask(k, task);
    var w1 := Next(w0, s1);
    var s2 := Report(TaskExecResult(k, "", Running));
    var w2 := Next(w1, s2);
    TableMeaning(Running, Paused);
    var s3 := CheckOperate(0, k, Paused);
    var w3 := Next(w2, s3);
    var s4 := Report(TaskExecResult(k, "", Success));
    var w4 := Next(w3, s4);
    steps := [s1, s2, s3, s4];
    assert steps[1..] == [s2, s3, s4] && [s2, s3, s4][1..] == [s3, s4] && [s3, s4][1..] == [s4] && [s4][1..] == [];
    assert Legal(w4, []) && Run(w4, []) == w4;
    assert Legal(w3, [s4]) && Run(w3, [s4]) == w4;
    assert Legal(w2, [s3, s4]) && Run(w2, [s3, s4]) == w4;
    assert Legal(w1, [s2, s3, s4]) && Run(w1, [s2, s3, s4]) == w4;
  }

  // ----- A whole executor run, as it reaches the repository -----

  /** The worker stores the results of an executor run in the order of the channel. */
  function Reports(k: string, results: seq<TaskStatus>): seq<Step> {
    seq(|results|, i requires 0 <= i < |results| => Report(TaskExecResult(k, "", results[i])))
  }

  lemma {:induction false} LastReportIsStored(w: World, k: string, results: seq<TaskStatus>)
    requires k in w.repo && results != [] && forall i :: 0 <= i < |results| ==> IsReportable(results[i])
    ensures Legal(w, Reports(k, results))
    ensures k in Run(w, Reports(k, results)).repo
    ensures Run(w, Reports(k, results)).repo[k].status == results[|results| - 1]
    ensures k in Run(w, Reports(k, results)).actual
    ensures Run(w, Reports(k, results)).actual[k].status == results[|results| - 1]
    decreases |results|
  {
    var steps := Reports(k, results);
    var w' := Next(w, steps[0]);
    assert steps[1..] == Reports(k, results[1..]);
    if |results| == 1 {
      assert steps[1..] == [] && Run(w', steps[1..]) == w';
    } else {
      LastReportIsStored(w', k, results[1..]);
    }
  }

  /**
   A task that the executor has finished is stored as finished exactly when no
   final result came before `Run` reported its start. Otherwise the late Running
   is what the repository keeps.
   */
  lemma StoredAsFinishedIffStartWasInTime(w: World, k: string, execution: seq<L.Step>)
    requires k in w.repo && L.Legal(L.Init(), execution) && L.Over(L.Run(L.Init(), execution))
    ensures var e := L.Run(L.Init(), execution);
            && e.start.value <= |e.results| && Legal(w, Reports(k, e.results))
            && var f := Run(w, Reports(k, e.results));
               && k in f.repo
               && (Finished(f, k) <==> L.Finals(e.results[..e.start.value]) == 0)
               && (!Finished(f, k) ==> f.repo[k].status == Running)
  {
    var e := L.Run(L.Init(), execution);
    L.FinalResultComesLastIffStartWasInTime(execution);
    L.OnlyReportableResults(execution);
    LastReportIsStored(w, k, e.results);
  }
}
