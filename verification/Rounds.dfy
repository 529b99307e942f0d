/**
 What one reconcile round is about: a trigger names task keys; the round joins
 the wanted tasks with the actual ones, drops finished ones, turns each
 difference into a change and writes exceptions back to the repository.
 */
module Rounds {
  import opened TaskModel

  ghost function ToSet(keys: seq<string>): set<string> {
    set k | k in keys
  }

  datatype TriggerInfo = TriggerInfo(resync: bool, taskKeys: seq<string>) {
    ghost function Keys(): set<string> {
      ToSet(taskKeys)
    }
  }

  /** A wanted task and the actual one with the same key; at least one is there. */
  datatype Pair = Pair(want: Option<Task>, actual: Option<TaskExecResult>) {
    function Key(): string {
      if want.Some? then want.value.taskKey
      else if actual.Some? then actual.value.taskKey
      else ""
    }

    function WantStatus(): TaskStatus {
      if want.Some? then want.value.wantRunStatus else NotExist
    }

    function ActualStatus(): TaskStatus {
      if actual.Some? then actual.value.status else NotExist
    }

    predicate Finished() {
      (want.Some? && want.value.status.IsFinal()) || (actual.Some? && actual.value.status.IsFinal())
    }

    /** The branch of `diff` that only logs. */
    predicate Unsupported() {
      ActualStatus() != WantStatus() && GetChangeType(ActualStatus(), WantStatus()).None?
    }

    function Diff(): Option<Change> {
      if ActualStatus() == WantStatus() then None
      else
        match GetChangeType(ActualStatus(), WantStatus())
        case None => None
        case Some(ct) =>
          var taskType :=
            if want.Some? then want.value.typ
            else if actual.Some? then actual.value.taskType
            else "";
          Some(Change(Key(), taskType, ct, if ct == Create then want else None))
    }
  }

  type Cache = map<string, TaskExecResult>

  ghost predicate WellKeyed(repo: Repo, cache: Cache) {
    && Keyed(repo)
    && (forall k :: k in cache ==> cache[k].taskKey == k)
  }

  // ----- What a round sees, key by key -----

  /** Trigger keys that were in the queue when the round checked. */
  ghost function Skipped(busy: set<string>, info: TriggerInfo): set<string> {
    info.Keys() * busy
  }

  ghost function WantKeys(busy: set<string>, info: TriggerInfo): set<string> {
    info.Keys() - Skipped(busy, info)
  }

  ghost function ActualKeys(cache: Cache, busy: set<string>, info: TriggerInfo): set<string> {
    (if info.resync then cache.Keys else info.Keys()) - Skipped(busy, info)
  }

  /** `ListTasks`: no keys means every task. */
  ghost predicate Listed(cache: Cache, keys: set<string>, k: string) {
    k in cache && (keys == {} || k in keys)
  }

  ghost function PairAt(repo: Repo, cache: Cache, wantKeys: set<string>, actualKeys: set<string>, k: string): Option<Pair> {
    if wantKeys == {} && actualKeys == {} then None
    else
      var want := if k in wantKeys && k in repo then Some(repo[k]) else None;
      var actual := if Listed(cache, actualKeys, k) then Some(cache[k]) else None;
      if want.None? && actual.None? then None else Some(Pair(want, actual))
  }

  ghost function SeenAt(repo: Repo, cache: Cache, busy: set<string>, info: TriggerInfo, k: string): Option<Pair> {
    PairAt(repo, cache, WantKeys(busy, info), ActualKeys(cache, busy, info), k)
  }

  ghost function ChangeAt(repo: Repo, cache: Cache, busy: set<string>, info: TriggerInfo, k: string): Option<Change> {
    match SeenAt(repo, cache, busy, info, k)
    case None => None
    case Some(pair) => if pair.Finished() then None else pair.Diff()
  }

  /** The change that reaches the queue, if any. */
  ghost function NormalAt(repo: Repo, cache: Cache, busy: set<string>, info: TriggerInfo, k: string): Option<Change> {
    match ChangeAt(repo, cache, busy, info, k)
    case None => None
    case Some(c) => if c.IsException() then None else Some(c)
  }

  // ----- The round itself -----

  ghost predicate ArePairs(ps: seq<Pair>, repo: Repo, cache: Cache, busy: set<string>, info: TriggerInfo) {
    forall p :: p in ps <==> SeenAt(repo, cache, busy, info, p.Key()) == Some(p) && !p.Finished()
  }

  ghost predicate AreChanges(cs: seq<Change>, repo: Repo, cache: Cache, busy: set<string>, info: TriggerInfo) {
    forall c :: c in cs <==> ChangeAt(repo, cache, busy, info, c.taskKey) == Some(c)
  }

  ghost predicate AreNormalChanges(cs: seq<Change>, repo: Repo, cache: Cache, busy: set<string>, info: TriggerInfo) {
    forall c :: c in cs <==> NormalAt(repo, cache, busy, info, c.taskKey) == Some(c)
  }

  ghost predicate Distinct(keys: seq<string>) {
    forall i, j :: 0 <= i < j < |keys| ==> keys[i] != keys[j]
  }

  ghost predicate DistinctResults(list: seq<TaskExecResult>) {
    forall i, j :: 0 <= i < j < |list| ==> list[i].taskKey != list[j].taskKey
  }

  ghost predicate DistinctPairs(list: seq<Pair>) {
    forall i, j :: 0 <= i < j < |list| ==> list[i].Key() != list[j].Key()
  }

  ghost predicate DistinctChanges(list: seq<Change>) {
    forall i, j :: 0 <= i < j < |list| ==> list[i].taskKey != list[j].taskKey
  }

  function ExceptionPatch(c: Change): Task {
    EmptyPatch(c.taskKey).(status := Paused, msg := "exception:" + c.changeType.Name())
  }

  /** The repository after the exceptions among `cs` have been written, in order. */
  function WithExceptions(repo: Repo, cs: seq<Change>): Repo {
    if cs == [] then repo
    else
      var before := WithExceptions(repo, cs[..|cs| - 1]);
      var c := cs[|cs| - 1];
      if c.IsException() then UpdateTask(before, ExceptionPatch(c)) else before
  }

  function ResultPatch(r: TaskExecResult): Task {
    EmptyPatch(r.taskKey).(status := r.status)
  }

  function AfterResult(cache: Cache, r: TaskExecResult): Cache {
    cache[r.taskKey := r]
  }

  lemma ExceptionStep(repo: Repo, cs: seq<Change>, i: nat)
    requires i < |cs|
    ensures WithExceptions(repo, cs[..i + 1]) ==
            var before := WithExceptions(repo, cs[..i]);
            if cs[i].IsException() then UpdateTask(before, ExceptionPatch(cs[i])) else before
  {
    assert cs[..i + 1][..i] == cs[..i];
  }

  lemma {:induction false} ExceptionsKeepKeys(repo: Repo, cache: Cache, cs: seq<Change>)
    requires WellKeyed(repo, cache)
    ensures WellKeyed(WithExceptions(repo, cs), cache)
  {
    if cs != [] {
      ExceptionsKeepKeys(repo, cache, cs[..|cs| - 1]);
    }
  }

  // ----- A round without busy keys, key by key -----

  ghost function SeenIdle(repo: Repo, cache: Cache, info: TriggerInfo, k: string): Option<Pair> {
    var want := if k in info.taskKeys && k in repo then Some(repo[k]) else None;
    var actual := if k in cache && (info.resync || k in info.taskKeys) then Some(cache[k]) else None;
    if want.None? && actual.None? then None else Some(Pair(want, actual))
  }

  lemma IdleRound(repo: Repo, cache: Cache, info: TriggerInfo, k: string)
    ensures SeenAt(repo, cache, {}, info, k) == SeenIdle(repo, cache, info, k)
  {
    assert Skipped({}, info) == {};
    assert WantKeys({}, info) == info.Keys();
    assert ActualKeys(cache, {}, info) == if info.resync then cache.Keys else info.Keys();
    assert k in info.taskKeys <==> k in info.Keys();
  }

  // ----- Tasks that were busy at the check -----

  /**
   The round has been told to skip some keys, and the skipping has emptied the
   list of actual keys, which `ListTasks` takes as "all of them".
   */
  ghost predicate SkipListEmptied(cache: Cache, busy: set<string>, info: TriggerInfo) {
    info.resync && cache.Keys <= Skipped(busy, info) && Skipped(busy, info) != info.Keys()
  }

  lemma EmptyDifference(a: set<string>, b: set<string>)
    ensures a - b == {} <==> a <= b
  {
    assert a <= (a - b) + b;
  }

  /**
   Exactly when the round sees a task it was told to skip: the skipping emptied
   the list of actual keys but not of wanted ones. It then sees the actual task
   alone. Every other key is seen as if nothing were busy.
   */
  lemma BusyKeysAreSkippedUnlessListEmptied(repo: Repo, cache: Cache, busy: set<string>, info: TriggerInfo, k: string)
    ensures k in Skipped(busy, info) ==>
              SeenAt(repo, cache, busy, info, k) ==
              if SkipListEmptied(cache, busy, info) && k in cache then Some(Pair(None, Some(cache[k]))) else None
    ensures k !in Skipped(busy, info) ==>
              SeenAt(repo, cache, busy, info, k) == SeenAt(repo, cache, {}, info, k)
  {
    var skipped := Skipped(busy, info);
    var actualKeys := ActualKeys(cache, busy, info);
    assert skipped <= info.Keys();
    EmptyDifference(info.Keys(), skipped);
    EmptyDifference(cache.Keys, skipped);
    assert info.resync ==> actualKeys == cache.Keys - skipped;
    assert !info.resync ==> actualKeys == info.Keys() - skipped;
    IdleRound(repo, cache, info, k);
    assert k in info.taskKeys <==> k in info.Keys();
  }

  // ----- Which changes a round makes, and what they carry -----

  /** The task is in the trigger, was not busy at the check, and is stored. */
  ghost predicate Wanted(repo: Repo, busy: set<string>, info: TriggerInfo, k: string) {
    k in info.taskKeys && k !in busy && k in repo
  }

  /** The executors' report of the task is looked at. */
  ghost predicate Shown(cache: Cache, info: TriggerInfo, k: string) {
    k in cache && (info.resync || k in info.taskKeys)
  }

  lemma SkippedMeaning(busy: set<string>, info: TriggerInfo, k: string)
    ensures k in Skipped(busy, info) <==> k in info.taskKeys && k in busy
  {
    assert k in info.Keys() <==> k in info.taskKeys;
  }

  /** A finished task gets no change, whichever side says that it is finished. */
  lemma FinishedTasksAreLeftAlone(repo: Repo, cache: Cache, busy: set<string>, info: TriggerInfo, k: string)
    requires WellKeyed(repo, cache)
    ensures Wanted(repo, busy, info, k) && repo[k].status in {Success, Failed, Stop} ==>
              ChangeAt(repo, cache, busy, info, k) == None
    ensures k in cache && cache[k].status in {Success, Failed, Stop} ==> ChangeAt(repo, cache, busy, info, k) == None
  {
    BusyKeysAreSkippedUnlessListEmptied(repo, cache, busy, info, k);
    SkippedMeaning(busy, info, k);
    IdleRound(repo, cache, info, k);
  }

  /** Every other task gets a change exactly when the table has an entry for its statuses, and it is that entry. */
  lemma ChangeIffTableEntry(repo: Repo, cache: Cache, busy: set<string>, info: TriggerInfo, k: string)
    requires WellKeyed(repo, cache)
    requires !(k in info.taskKeys && k in busy)
    requires Wanted(repo, busy, info, k) ==> repo[k].status !in {Success, Failed, Stop}
    requires Shown(cache, info, k) ==> cache[k].status !in {Success, Failed, Stop}
    ensures var actual := if Shown(cache, info, k) then cache[k].status else NotExist;
            var want := if Wanted(repo, busy, info, k) then repo[k].wantRunStatus else NotExist;
            var change := ChangeAt(repo, cache, busy, info, k);
            && (change.Some? <==> GetChangeType(actual, want).Some?)
            && (change.Some? ==> change.value.taskKey == k && Some(change.value.changeType) == GetChangeType(actual, want))
  {
    BusyKeysAreSkippedUnlessListEmptied(repo, cache, busy, info, k);
    SkippedMeaning(busy, info, k);
    IdleRound(repo, cache, info, k);
    var actual := if Shown(cache, info, k) then cache[k].status else NotExist;
    var want := if Wanted(repo, busy, info, k) then repo[k].wantRunStatus else NotExist;
    TableMeaning(actual, want);
  }

  /** A create change carries the stored task, no other change carries one, and the type is the task's own. */
  ghost predicate CarriesItsTask(repo: Repo, cache: Cache, busy: set<string>, info: TriggerInfo, c: Change) {
    var k := c.taskKey;
    && (c.changeType == Create ==> Wanted(repo, busy, info, k) && c.task == Some(repo[k]) && repo[k].wantRunStatus == Running)
    && (c.changeType != Create ==> c.task == None)
    && (Wanted(repo, busy, info, k) ==> c.taskType == repo[k].typ)
    && (!Wanted(repo, busy, info, k) ==> k in cache && c.taskType == cache[k].taskType)
  }

  lemma ChangesCarryTheirTasks(repo: Repo, cache: Cache, busy: set<string>, info: TriggerInfo, c: Change)
    requires WellKeyed(repo, cache) && ChangeAt(repo, cache, busy, info, c.taskKey) == Some(c)
    ensures CarriesItsTask(repo, cache, busy, info, c)
  {
    var k := c.taskKey;
    BusyKeysAreSkippedUnlessListEmptied(repo, cache, busy, info, k);
    SkippedMeaning(busy, info, k);
    IdleRound(repo, cache, info, k);
    var pair := SeenAt(repo, cache, busy, info, k).value;
    TableMeaning(pair.ActualStatus(), pair.WantStatus());
  }

  function Reason(update: bool): string {
    if update then "exception:exception_update" else "exception:exception_finish"
  }

  lemma ReasonMeaning(c: Change)
    ensures c.changeType in {ExceptionUpdate, ExceptionFinish} ==>
              ExceptionPatch(c).msg == Reason(c.changeType == ExceptionUpdate) && ExceptionPatch(c).msg != ""
  {
    assert "exception:" + "exception_update" == "exception:exception_update";
    assert "exception:" + "exception_finish" == "exception:exception_finish";
  }

  /** What writing the exceptions among `cs` does to a task for which `v` is the only change. */
  lemma {:induction false} ExceptionsOfOneTask(repo: Repo, cs: seq<Change>, v: Change)
    requires forall c :: c in cs && c.taskKey == v.taskKey ==> c == v
    requires v.taskKey in repo
    ensures v.taskKey in WithExceptions(repo, cs)
    ensures WithExceptions(repo, cs)[v.taskKey] ==
            if v in cs && v.changeType in {ExceptionUpdate, ExceptionFinish}
            then repo[v.taskKey].(status := Paused, msg := Reason(v.changeType == ExceptionUpdate))
            else repo[v.taskKey]
  {
    ExceptionTypes(v.changeType);
    ReasonMeaning(v);
    if cs != [] {
      var init, last := cs[..|cs| - 1], cs[|cs| - 1];
      assert cs == init + [last];
      ExceptionsOfOneTask(repo, init, v);
    }
  }

  /** A wanted task that does not exist and should be paused or stopped. */
  ghost predicate Exceptional(repo: Repo, cache: Cache, busy: set<string>, info: TriggerInfo, k: string) {
    && Wanted(repo, busy, info, k) && (k in cache ==> cache[k].status == NotExist)
    && repo[k].status !in {Success, Failed, Stop} && repo[k].wantRunStatus in {Paused, Stop}
  }

  lemma ExceptionIff(repo: Repo, cache: Cache, busy: set<string>, info: TriggerInfo, k: string)
    requires WellKeyed(repo, cache)
    ensures var change := ChangeAt(repo, cache, busy, info, k);
            && (change.Some? && change.value.changeType in {ExceptionUpdate, ExceptionFinish}
                <==> Exceptional(repo, cache, busy, info, k))
            && (Exceptional(repo, cache, busy, info, k) ==>
                  change.value.changeType == if repo[k].wantRunStatus == Paused then ExceptionUpdate else ExceptionFinish)
  {
    FinishedTasksAreLeftAlone(repo, cache, busy, info, k);
    if k in info.taskKeys && k in busy {
      BusyIsNoException(repo, cache, busy, info, k);
    } else if !(Wanted(repo, busy, info, k) && repo[k].status in {Success, Failed, Stop})
              && !(k in cache && cache[k].status in {Success, Failed, Stop}) {
      ChangeIffTableEntry(repo, cache, busy, info, k);
      TableMeaning(
        if Shown(cache, info, k) then cache[k].status else NotExist,
        if Wanted(repo, busy, info, k) then repo[k].wantRunStatus else NotExist);
    }
  }

  lemma BusyIsNoException(repo: Repo, cache: Cache, busy: set<string>, info: TriggerInfo, k: string)
    requires WellKeyed(repo, cache) && k in info.taskKeys && k in busy
    ensures var change := ChangeAt(repo, cache, busy, info, k);
            change.Some? ==> change.value.changeType !in {ExceptionUpdate, ExceptionFinish}
  {
    BusyKeysAreSkippedUnlessListEmptied(repo, cache, busy, info, k);
    SkippedMeaning(busy, info, k);
    if k in cache {
      TableMeaning(cache[k].status, NotExist);
    }
  }

  ghost function StoredAfter(repo: Repo, cache: Cache, busy: set<string>, info: TriggerInfo, k: string): Task
    requires k in repo
  {
    if Exceptional(repo, cache, busy, info, k)
    then repo[k].(status := Paused, msg := Reason(repo[k].wantRunStatus == Paused))
    else repo[k]
  }

  /**
   What a round writes to the repository: an exceptional task is marked paused,
   with the reason; no other task is touched, a finished one least of all.
   */
  lemma ExceptionsAreStored(repo: Repo, cache: Cache, busy: set<string>, info: TriggerInfo, changes: seq<Change>, k: string)
    requires WellKeyed(repo, cache) && AreChanges(changes, repo, cache, busy, info) && k in repo
    ensures k in WithExceptions(repo, changes)
    ensures WithExceptions(repo, changes)[k] == StoredAfter(repo, cache, busy, info, k)
  {
    var change := ChangeAt(repo, cache, busy, info, k);
    var v := if change.Some? then change.value else KeyOnly(k);
    assert v.changeType in {ExceptionUpdate, ExceptionFinish} ==> v in changes;
    assert v.changeType in {ExceptionUpdate, ExceptionFinish} <==> Exceptional(repo, cache, busy, info, k) by {
      ExceptionIff(repo, cache, busy, info, k);
    }
    assert Exceptional(repo, cache, busy, info, k) ==>
        v.changeType == if repo[k].wantRunStatus == Paused then ExceptionUpdate else ExceptionFinish by {
      ExceptionIff(repo, cache, busy, info, k);
    }
    ExceptionsOfOneTask(repo, changes, v);
  }
}
