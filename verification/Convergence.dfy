/**
 What repeated reconcile rounds achieve. A round is level-triggered: it depends
 on the wanted and the actual statuses only, so whatever a round leaves undone
 the next one asks for again, and nothing else.
 */
module Convergence {
  import opened TaskModel
  import opened Rounds
  import opened WorkQueue
  import W = WorkerRuns

  /** What the executor reports once it has carried out a change. */
  function ResultOf(c: Change): TaskExecResult
    requires c.changeType in {Create, Delete, Resume, Pause, StopTask}
  {
    TaskExecResult(c.taskKey, c.taskType, Effect(c.changeType))
  }

  function RepoAfter(repo: Repo, rs: seq<TaskExecResult>): Repo {
    if rs == [] then repo else UpdateTask(RepoAfter(repo, rs[..|rs| - 1]), ResultPatch(rs[|rs| - 1]))
  }

  function CacheAfter(cache: Cache, rs: seq<TaskExecResult>): Cache {
    if rs == [] then cache else AfterResult(CacheAfter(cache, rs[..|rs| - 1]), rs[|rs| - 1])
  }

  /** Some of the round's changes have been carried out, in any order, and these are their results. */
  ghost predicate Carried(repo: Repo, cache: Cache, info: TriggerInfo, rs: seq<TaskExecResult>) {
    forall r :: r in rs ==>
      var c := NormalAt(repo, cache, {}, info, r.taskKey);
      && c.Some? && c.value.changeType in {Create, Delete, Resume, Pause, StopTask}
      && r == ResultOf(c.value)
  }

  ghost predicate Reported(rs: seq<TaskExecResult>, k: string) {
    exists r :: r in rs && r.taskKey == k
  }

  /** The change a seen pair leads to, exceptions left out. */
  ghost function NormalOfSeen(seen: Option<Pair>): Option<Change> {
    if seen.None? || seen.value.Finished() || seen.value.Diff().None? then None
    else if seen.value.Diff().value.IsException() then None
    else seen.value.Diff()
  }

  lemma NormalIdle(repo: Repo, cache: Cache, info: TriggerInfo, k: string)
    ensures NormalAt(repo, cache, {}, info, k) == NormalOfSeen(SeenIdle(repo, cache, info, k))
  {
    IdleRound(repo, cache, info, k);
  }

  lemma {:induction false} RepoAfterAt(repo: Repo, rs: seq<TaskExecResult>, k: string, v: TaskExecResult)
    requires forall r :: r in rs && r.taskKey == k ==> r == v
    requires v.status != Unset
    ensures RepoAfter(repo, rs).Keys == repo.Keys
    ensures k in repo ==>
              RepoAfter(repo, rs)[k] == if Reported(rs, k) then repo[k].(status := v.status) else repo[k]
  {
    if rs != [] {
      var last := rs[|rs| - 1];
      assert rs == rs[..|rs| - 1] + [last];
      RepoAfterAt(repo, rs[..|rs| - 1], k, v);
    }
  }

  lemma {:induction false} CacheAfterAt(cache: Cache, rs: seq<TaskExecResult>, k: string, v: TaskExecResult)
    requires forall r :: r in rs && r.taskKey == k ==> r == v
    ensures k in CacheAfter(cache, rs) <==> k in cache || Reported(rs, k)
    ensures k in CacheAfter(cache, rs) ==>
              CacheAfter(cache, rs)[k] == if Reported(rs, k) then v else cache[k]
  {
    if rs != [] {
      var last := rs[|rs| - 1];
      assert rs == rs[..|rs| - 1] + [last];
      CacheAfterAt(cache, rs[..|rs| - 1], k, v);
    }
  }

  /** Writing an exception touches the status and the message of its own task only. */
  lemma {:induction false} ExceptionsAt(repo: Repo, cs: seq<Change>, k: string)
    ensures WithExceptions(repo, cs).Keys == repo.Keys
    ensures k in repo && (forall c :: c in cs && c.taskKey == k ==> !c.IsException()) ==>
              WithExceptions(repo, cs)[k] == repo[k]
    ensures k in repo ==>
              var t := WithExceptions(repo, cs)[k];
              && t.wantRunStatus == repo[k].wantRunStatus && t.taskKey == repo[k].taskKey && t.typ == repo[k].typ
              && (t.status == repo[k].status || t.status == Paused)
  {
    if cs != [] {
      ExceptionsAt(repo, cs[..|cs| - 1], k);
      ExceptionStep(repo, cs, |cs| - 1);
      assert cs[..|cs|] == cs;
    }
  }

  lemma NormalChangeMeaning(p: Pair)
    requires p.Diff().Some? && !p.Diff().value.IsException()
    ensures var ct := p.Diff().value.changeType;
            && ct in {Create, Delete, Resume, Pause, StopTask}
            && (Effect(ct) == p.WantStatus() || Effect(ct).IsFinal())
  {
    TableMeaning(p.ActualStatus(), p.WantStatus());
  }

  lemma ExceptionMeaning(p: Pair)
    ensures p.Diff().Some? && p.Diff().value.IsException() <==>
              p.ActualStatus() == NotExist && p.WantStatus() in {Paused, Stop}
  {
    TableMeaning(p.ActualStatus(), p.WantStatus());
  }

  /** What a round sees of a task whose command has been carried out. */
  lemma ReportedSeen(repo: Repo, cache: Cache, info: TriggerInfo, changes: seq<Change>, rs: seq<TaskExecResult>, v: TaskExecResult)
    requires v in rs && v.status != Unset && forall r :: r in rs && r.taskKey == v.taskKey ==> r == v
    ensures var seen := SeenIdle(repo, cache, info, v.taskKey);
            var seen' := SeenIdle(RepoAfter(WithExceptions(repo, changes), rs), CacheAfter(cache, rs), info, v.taskKey);
            seen.Some? && seen'.Some? ==>
              && seen'.value.want.Some? == seen.value.want.Some?
              && seen'.value.WantStatus() == seen.value.WantStatus()
              && (seen'.value.want.Some? ==> seen'.value.want.value.status == v.status)
              && (seen'.value.actual.Some? ==> seen'.value.actual.value == v)
              && (seen'.value.actual.Some? <==> info.resync || v.taskKey in info.taskKeys)
  {
    var k := v.taskKey;
    ExceptionsAt(repo, changes, k);
    RepoAfterAt(WithExceptions(repo, changes), rs, k, v);
    CacheAfterAt(cache, rs, k, v);
  }

  lemma ReportedKey(repo: Repo, cache: Cache, info: TriggerInfo, changes: seq<Change>, rs: seq<TaskExecResult>, k: string)
    requires WellKeyed(repo, cache) && Carried(repo, cache, info, rs) && Reported(rs, k)
    ensures NormalAt(RepoAfter(WithExceptions(repo, changes), rs), CacheAfter(cache, rs), {}, info, k) == None
  {
    var v :| v in rs && v.taskKey == k;
    NormalIdle(repo, cache, info, k);
    NormalIdle(RepoAfter(WithExceptions(repo, changes), rs), CacheAfter(cache, rs), info, k);
    NormalChangeMeaning(SeenIdle(repo, cache, info, k).value);
    ReportedSeen(repo, cache, info, changes, rs, v);
  }

  /** A task with nothing reported looks as before, except that an exception may have marked it Paused. */
  lemma UnreportedSeen(repo: Repo, cache: Cache, info: TriggerInfo, changes: seq<Change>, rs: seq<TaskExecResult>, k: string)
    requires WellKeyed(repo, cache) && !Reported(rs, k)
    ensures var seen := SeenIdle(repo, cache, info, k);
            var seen' := SeenIdle(RepoAfter(WithExceptions(repo, changes), rs), CacheAfter(cache, rs), info, k);
            && seen.Some? == seen'.Some?
            && (seen.Some? ==>
                  && seen'.value.ActualStatus() == seen.value.ActualStatus()
                  && seen'.value.WantStatus() == seen.value.WantStatus()
                  && (!seen.value.Finished() ==> !seen'.value.Finished()))
            && ((forall c :: c in changes && c.taskKey == k ==> !c.IsException()) ==> seen' == seen)
  {
    var v := TaskExecResult(k, "", Running);
    ExceptionsAt(repo, changes, k);
    RepoAfterAt(WithExceptions(repo, changes), rs, k, v);
    CacheAfterAt(cache, rs, k, v);
  }

  lemma UnreportedKey(repo: Repo, cache: Cache, info: TriggerInfo, changes: seq<Change>, rs: seq<TaskExecResult>, k: string)
    requires WellKeyed(repo, cache) && AreChanges(changes, repo, cache, {}, info)
    requires !Reported(rs, k)
    ensures NormalAt(RepoAfter(WithExceptions(repo, changes), rs), CacheAfter(cache, rs), {}, info, k)
            == NormalAt(repo, cache, {}, info, k)
  {
    var repo2, cache2 := RepoAfter(WithExceptions(repo, changes), rs), CacheAfter(cache, rs);
    UnreportedSeen(repo, cache, info, changes, rs, k);
    NormalIdle(repo, cache, info, k);
    NormalIdle(repo2, cache2, info, k);
    if c :| c in changes && c.taskKey == k && c.IsException() {
      ExceptionSeen(repo, cache, info, k, c);
      ExceptionMeaning(SeenIdle(repo2, cache2, info, k).value);
    }
  }

  lemma ExceptionSeen(repo: Repo, cache: Cache, info: TriggerInfo, k: string, c: Change)
    requires ChangeAt(repo, cache, {}, info, k) == Some(c) && c.IsException()
    ensures var seen := SeenIdle(repo, cache, info, k);
            && seen.Some? && !seen.value.Finished()
            && seen.value.ActualStatus() == NotExist && seen.value.WantStatus() in {Paused, Stop}
  {
    IdleRound(repo, cache, info, k);
    ExceptionMeaning(SeenIdle(repo, cache, info, k).value);
  }

  /**
   Carry out any of a round's changes and run the round again on the results:
   it asks for exactly the changes that were not carried out.
   */
  lemma RoundsAreLevelTriggered(
    repo: Repo, cache: Cache, info: TriggerInfo, changes: seq<Change>, rs: seq<TaskExecResult>, k: string)
    requires WellKeyed(repo, cache) && AreChanges(changes, repo, cache, {}, info) && Carried(repo, cache, info, rs)
    ensures NormalAt(RepoAfter(WithExceptions(repo, changes), rs), CacheAfter(cache, rs), {}, info, k)
            == if Reported(rs, k) then None else NormalAt(repo, cache, {}, info, k)
  {
    if Reported(rs, k) {
      ReportedKey(repo, cache, info, changes, rs, k);
    } else {
      UnreportedKey(repo, cache, info, changes, rs, k);
    }
  }

  /** If every change of a round is carried out, the next round asks for none. */
  lemma OneRoundConverges(repo: Repo, cache: Cache, info: TriggerInfo, changes: seq<Change>, rs: seq<TaskExecResult>)
    requires WellKeyed(repo, cache) && AreChanges(changes, repo, cache, {}, info) && Carried(repo, cache, info, rs)
    requires forall c :: c in changes && !c.IsException() ==> Reported(rs, c.taskKey)
    ensures forall k ::
              NormalAt(RepoAfter(WithExceptions(repo, changes), rs), CacheAfter(cache, rs), {}, info, k) == None
  {
    forall k
      ensures NormalAt(RepoAfter(WithExceptions(repo, changes), rs), CacheAfter(cache, rs), {}, info, k) == None
    {
      RoundsAreLevelTriggered(repo, cache, info, changes, rs, k);
      if !Reported(rs, k) {
        UncarriedIsNone(repo, cache, info, changes, rs, k);
      }
    }
  }

  lemma UncarriedIsNone(repo: Repo, cache: Cache, info: TriggerInfo, changes: seq<Change>, rs: seq<TaskExecResult>, k: string)
    requires WellKeyed(repo, cache) && AreChanges(changes, repo, cache, {}, info)
    requires forall c :: c in changes && !c.IsException() ==> Reported(rs, c.taskKey)
    requires !Reported(rs, k)
    ensures NormalAt(repo, cache, {}, info, k) == None
  {
    var c := ChangeAt(repo, cache, {}, info, k);
    if c.Some? {
      IdleRound(repo, cache, info, k);
      assert c.value.taskKey == k;
      assert c.value in changes;
    }
  }

  // ----- Tasks that were busy at the check -----

  /** What diff makes of a busy task, whatever is wanted of it: a delete change if it is seen and alive, else nothing. */
  lemma BusyTaskDiff(repo: Repo, cache: Cache, busy: set<string>, info: TriggerInfo, k: string)
    requires WellKeyed(repo, cache) && k in Skipped(busy, info)
    ensures NormalAt(repo, cache, busy, info, k) ==
            if SkipListEmptied(cache, busy, info) && k in cache && cache[k].status in {Running, Paused}
            then Some(Change(k, cache[k].taskType, Delete, None))
            else None
  {
    BusyKeysAreSkippedUnlessListEmptied(repo, cache, busy, info, k);
    if k in cache {
      TableMeaning(cache[k].status, NotExist);
    }
  }

  /** The trigger keys that the producer finds queued or being processed. */
  ghost function BusyAt(w: W.Worker, info: TriggerInfo): set<string> {
    set k | k in info.taskKeys && Exists(UniKey, w.q, KeyOnly(k))
  }

  /**
   When a task that was found busy gets a change into the queue after all: the
   round checks at `w`, other threads take `steps`, then it adds what it made of
   the task. The queue intercepts that unless the task was released in between.
   */
  lemma BusyTaskIsDeletedIff(
    repo: Repo, cache: Cache, info: TriggerInfo, w: W.Worker, steps: seq<W.Step>, k: string)
    requires WellKeyed(repo, cache) && Consistent(UniKey, w.q) && W.Legal(w, steps)
    requires forall i :: 0 <= i < |steps| && steps[i].Enqueue? ==> steps[i].change.taskKey != k
    requires k in BusyAt(w, info)
    ensures var change := NormalAt(repo, cache, BusyAt(w, info), info, k);
            var q := W.Run(w, steps).q;
            && (change.Some? ==> change.value.changeType == Delete)
            && (change.Some? && AfterAdd(UniKey, q, change.value).queue == q.queue + [change.value]
                <==>
                && SkipListEmptied(cache, BusyAt(w, info), info)
                && k in cache && cache[k].status in {Running, Paused}
                && W.Releases(w, steps, k) && !q.shuttingDown)
            && (change.Some? && !(W.Releases(w, steps, k) && !q.shuttingDown) ==> AfterAdd(UniKey, q, change.value) == q)
  {
    BusyTaskDiff(repo, cache, BusyAt(w, info), info, k);
    W.BusyUntilReleased(w, steps, k);
    var q := W.Run(w, steps).q;
    var delete := Change(k, if k in cache then cache[k].taskType else "", Delete, None);
    assert UniKey(delete) == UniKey(KeyOnly(k));
    assert |q.queue + [delete]| != |q.queue|;
  }

  /** It happens: task "a" is wanted, running and busy; task "b" is new. */
  lemma SkipListCanBeEmptied(repo: Repo, cache: Cache)
    requires cache.Keys == {"a"}
    ensures SkipListEmptied(cache, {"a"}, TriggerInfo(true, ["a", "b"]))
    ensures !SkipListEmptied(cache, {"a"}, TriggerInfo(false, ["a", "b"]))
    ensures !SkipListEmptied(cache, {}, TriggerInfo(true, ["a", "b"]))
  {
    var info := TriggerInfo(true, ["a", "b"]);
    assert "b" in info.Keys() && "a" in info.Keys();
    assert "b" !in Skipped({"a"}, info) && "a" in Skipped({"a"}, info) by {
      assert "b"[0] != "a"[0];
    }
  }

  /**
   And the delete change gets through: "a" is running and has been fetched
   again, say to be paused; its result arrives between the check and the add.
   */
  lemma BusyTaskGetsDeleted(repo: Repo, cache: Cache, change: Change) returns (w: W.Worker)
    requires WellKeyed(repo, cache) && cache.Keys == {"a"} && cache["a"].status == Running && change.taskKey == "a"
    ensures W.Legal(W.Init(), [W.Enqueue(change), W.Fetch(0)])
    ensures w == W.Run(W.Init(), [W.Enqueue(change), W.Fetch(0)])
    ensures W.Legal(w, [W.Result("a")])
    ensures var delete := Change("a", cache["a"].taskType, Delete, None);
            var info := TriggerInfo(true, ["a", "b"]);
            && NormalAt(repo, cache, BusyAt(w, info), info, "a") == Some(delete)
            && AfterAdd(UniKey, W.Run(w, [W.Result("a")]).q, delete).queue == [delete]
  {
    var info := TriggerInfo(true, ["a", "b"]);
    w := W.ResultCanOvertake(change);
    assert BusyAt(w, info) == {"a"};
    SkipListCanBeEmptied(repo, cache);
    W.FirstStep(w, W.Result("a"), []);
    BusyTaskDiff(repo, cache, {"a"}, info, "a");
    BusyTaskIsDeletedIff(repo, cache, info, w, [W.Result("a")], "a");
  }
}
