/**
 The vocabulary shared by the scheduler and the worker: task statuses, the
 stored task, the status an executor reports, and the table that turns a pair
 (actual status, wanted status) into an executor command.
 */
module TaskModel {

  datatype Option<+T> = None | Some(value: T)

  /** `Unset` is the empty string: a field that a partial update leaves alone. */
  datatype TaskStatus =
    | Unset
    | NotExist
    | WaitScheduling
    | WaitRunning
    | Running
    | WaitPaused
    | Paused
    | WaitStop
    | Stop
    | Success
    | Failed
  {
    function Name(): string {
      match this
      case Unset => ""
      case NotExist => "not_exist"
      case WaitScheduling => "wait_scheduling"
      case WaitRunning => "wait_running"
      case Running => "running"
      case WaitPaused => "wait_paused"
      case Paused => "paused"
      case WaitStop => "wait_stopped"
      case Stop => "stop"
      case Success => "success"
      case Failed => "failed"
    }

    predicate IsWait() {
      "wait_" <= Name()
    }

    predicate IsFinal() {
      Success? || Failed? || Stop?
    }

    /** The status stored while the system works towards this one; `Unset` when there is none. */
    function PreWait(): TaskStatus {
      if IsFinal() then WaitStop
      else if Paused? then WaitPaused
      else if Running? then WaitRunning
      else Unset
    }

    predicate CanTransition(next: TaskStatus) {
      GetChangeType(this, next).Some?
    }
  }

  datatype ChangeType =
    | NoChange
    | Create
    | Delete
    | Resume
    | Pause
    | StopTask
    | ExceptionUpdate
    | ExceptionFinish
  {
    function Name(): string {
      match this
      case NoChange => ""
      case Create => "create"
      case Delete => "delete"
      case Resume => "resume"
      case Pause => "pause"
      case StopTask => "stop"
      case ExceptionUpdate => "exception_update"
      case ExceptionFinish => "exception_finish"
    }

    predicate IsException() {
      "exception" <= Name()
    }
  }

  const CHANGE_TYPES_RULE: map<TaskStatus, map<TaskStatus, ChangeType>> :=
    map[
      NotExist := map[Running := Create, Paused := ExceptionUpdate, Stop := ExceptionFinish],
      Running := map[Paused := Pause, Stop := StopTask, NotExist := Delete],
      Paused := map[Running := Resume, Stop := StopTask, NotExist := Delete]
    ]

  function GetChangeType(actual: TaskStatus, want: TaskStatus): Option<ChangeType> {
    if actual !in CHANGE_TYPES_RULE then None
    else
      var row := CHANGE_TYPES_RULE[actual];
      if want !in row then None else Some(row[want])
  }

  /** A task as stored in the repository (the fields the core logic reads or writes). */
  datatype Task = Task(
    taskKey: string,
    typ: string,
    payload: string,
    stains: map<string, string>,
    status: TaskStatus,
    wantRunStatus: TaskStatus,
    workerID: string,
    msg: string)

  /** What an executor reports about a task. */
  datatype TaskExecResult = TaskExecResult(taskKey: string, taskType: string, status: TaskStatus)

  // ----- The task repository -----

  type Repo = map<string, Task>

  ghost predicate Keyed(repo: Repo) {
    forall k :: k in repo ==> repo[k].taskKey == k
  }

  ghost predicate DistinctTasks(tasks: seq<Task>) {
    forall i, j :: 0 <= i < j < |tasks| ==> tasks[i].taskKey != tasks[j].taskKey
  }

  /** The batch read: the stored tasks among the keys, each once. */
  function BatchGet(repo: Repo, keys: seq<string>): seq<Task> {
    if keys == [] then []
    else
      var last := keys[|keys| - 1];
      var before := BatchGet(repo, keys[..|keys| - 1]);
      if last in repo && last !in keys[..|keys| - 1] then before + [repo[last]] else before
  }

  lemma AppendKeepsDistinctTasks(tasks: seq<Task>, t: Task)
    requires DistinctTasks(tasks) && forall u :: u in tasks ==> u.taskKey != t.taskKey
    ensures DistinctTasks(tasks + [t])
  {
    assert forall i :: 0 <= i < |tasks| ==> tasks[i] in tasks;
  }

  lemma {:induction false} BatchGetMeaning(repo: Repo, keys: seq<string>)
    requires Keyed(repo)
    ensures forall t :: t in BatchGet(repo, keys) <==> t.taskKey in keys && t.taskKey in repo && repo[t.taskKey] == t
    ensures DistinctTasks(BatchGet(repo, keys))
  {
    if keys != [] {
      var init, last := keys[..|keys| - 1], keys[|keys| - 1];
      BatchGetMeaning(repo, init);
      assert keys == init + [last];
      if last in repo && last !in init {
        AppendKeepsDistinctTasks(BatchGet(repo, init), repo[last]);
      }
    }
  }

  /** A partial update: only the fields that are set reach the stored task. */
  function Merge(stored: Task, patch: Task): Task {
    stored.(status := if patch.status.Unset? then stored.status else patch.status,
         wantRunStatus := if patch.wantRunStatus.Unset? then stored.wantRunStatus else patch.wantRunStatus,
         workerID := if patch.workerID == "" then stored.workerID else patch.workerID,
         msg := if patch.msg == "" then stored.msg else patch.msg)
  }

  /** `UpdateTask`: merges into the stored task; an unknown key changes nothing. */
  function UpdateTask(repo: Repo, patch: Task): Repo {
    if patch.taskKey in repo then repo[patch.taskKey := Merge(repo[patch.taskKey], patch)] else repo
  }

  /** A patch that sets nothing; callers fill in the fields they write. */
  function EmptyPatch(taskKey: string): Task {
    Task(taskKey, "", "", map[], Unset, Unset, "", "")
  }

  datatype Change = Change(taskKey: string, taskType: string, changeType: ChangeType, task: Option<Task>) {
    predicate IsException() {
      changeType.IsException()
    }
  }

  /** `GetUniKey`: two changes are the same to the queue when their task keys are. */
  function UniKey(c: Change): Change {
    KeyOnly(c.taskKey)
  }

  /** The change with nothing but its key, as `Done` and `Exist` are called with. */
  function KeyOnly(taskKey: string): Change {
    Change(taskKey, "", NoChange, None)
  }

  /** The status a task reports once the executor has carried out a command. A forced exit reports Failed. */
  function Effect(ct: ChangeType): TaskStatus
    requires ct in {Create, Delete, Resume, Pause, StopTask}
  {
    match ct
    case Create => Running
    case Resume => Running
    case Pause => Paused
    case StopTask => Stop
    case Delete => Failed
  }

  lemma WaitStatuses(s: TaskStatus)
    ensures s.IsWait() <==> s in {WaitScheduling, WaitRunning, WaitPaused, WaitStop}
    ensures s.IsWait() ==> !s.IsFinal()
  {
    var n := s.Name();
    assert |"wait_"| == 5;
    assert |n| >= 1 && n[0] == 'w' ==> n[..5] == "wait_";
    assert "wait_"[0] == 'w';
  }

  lemma ExceptionTypes(ct: ChangeType)
    ensures ct.IsException() <==> ct in {ExceptionUpdate, ExceptionFinish}
  {
    var n := ct.Name();
    assert |n| >= 1 && n[0] == 'e' ==> n[..9] == "exception";
    assert "exception"[0] == 'e';
  }

  /**
   The table is exactly "from a state a live task can be in, to a state a user
   can ask for", and each command it names leads to the wanted state.
   */
  lemma TableMeaning(actual: TaskStatus, want: TaskStatus)
    ensures GetChangeType(actual, want).Some? <==>
              && actual in {NotExist, Running, Paused}
              && want in {NotExist, Running, Paused, Stop}
              && actual != want
    ensures GetChangeType(actual, want).Some? && !GetChangeType(actual, want).value.IsException() ==>
              var ct := GetChangeType(actual, want).value;
              && ct in {Create, Delete, Resume, Pause, StopTask}
              && (Effect(ct) == want || (want == NotExist && Effect(ct).IsFinal()))
    ensures GetChangeType(actual, want).Some? && GetChangeType(actual, want).value.IsException() <==>
              actual == NotExist && want in {Paused, Stop}
    ensures GetChangeType(actual, want) == Some(Create) <==> actual == NotExist && want == Running
    ensures GetChangeType(actual, want) == Some(Delete) <==> actual in {Running, Paused} && want == NotExist
    ensures GetChangeType(actual, want) == Some(ExceptionUpdate) <==> actual == NotExist && want == Paused
    ensures GetChangeType(actual, want) == Some(ExceptionFinish) <==> actual == NotExist && want == Stop
  {
    if GetChangeType(actual, want).Some? {
      ExceptionTypes(GetChangeType(actual, want).value);
    }
  }

  /** A wait status is named after what it waits for; the final statuses share the one of a stop. */
  lemma PreWaitMeaning(want: TaskStatus)
    ensures want.PreWait() == Unset <==> want !in {Running, Paused, Stop, Success, Failed}
    ensures want.PreWait() != Unset ==> want.PreWait().IsWait() && want.PreWait() != WaitScheduling
    ensures want in {Running, Paused, Stop} ==> "wait_" + want.Name() <= want.PreWait().Name()
    ensures want in {Success, Failed} ==> want.PreWait() == Stop.PreWait()
    ensures want.PreWait() == WaitRunning <==> want == Running
    ensures want.PreWait() == WaitPaused <==> want == Paused
    ensures want.PreWait() == WaitStop <==> want in {Stop, Success, Failed}
  {
    WaitStatuses(want.PreWait());
    assert "wait_" + "running" == "wait_running" && "wait_" + "paused" == "wait_paused";
    assert "wait_" + "stop" == "wait_stop" && "wait_stop" <= "wait_stopped";
  }
}
