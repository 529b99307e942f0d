/**
 The worker's reconcile round in its own loops: load, filter and diff the tasks
 that a trigger names, write exceptions back to the repository and enqueue the
 rest. What it has to compute is in `Rounds`.
 */
module Reconcile {
  import opened Lists
  import opened Rounds
  import opened TaskModel
  import opened WorkQueue

  /** The queue after adding the changes in order. */
  function AddAll(q: State<Change>, cs: seq<Change>): State<Change> {
    if cs == [] then q
    else AfterAdd(UniKey, AddAll(q, cs[..|cs| - 1]), cs[|cs| - 1])
  }

  /** Not queued and not being processed. */
  function Free(q: State<Change>): Change -> bool {
    (c: Change) => !Exists(UniKey, q, c)
  }

  /** Changes of different tasks all get in, in their order, but for those whose task is busy. */
  lemma {:induction false} AddAllMeaning(q: State<Change>, cs: seq<Change>)
    requires DistinctChanges(cs)
    ensures AddAll(q, cs).queue == if q.shuttingDown then q.queue else q.queue + Kept(Free(q), cs)
    ensures AddAll(q, cs).processing == q.processing && AddAll(q, cs).shuttingDown == q.shuttingDown
    ensures forall x :: x in AddAll(q, cs).dirty && x !in q.dirty ==> exists c :: c in cs && UniKey(c) == x
    ensures q.dirty <= AddAll(q, cs).dirty
  {
    if cs != [] {
      var init, last := cs[..|cs| - 1], cs[|cs| - 1];
      AddAllMeaning(q, init);
      assert cs == init + [last];
      var q1 := AddAll(q, init);
      assert forall c :: c in init ==> c.taskKey != last.taskKey;
      assert Exists(UniKey, q1, last) <==> Exists(UniKey, q, last);
      assert AddAll(q, cs) == AfterAdd(UniKey, q1, last);
      forall x | x in AddAll(q, cs).dirty && x !in q.dirty ensures exists c :: c in cs && UniKey(c) == x {
        if x in q1.dirty {
          var c :| c in init && UniKey(c) == x;
          assert c in cs;
        } else {
          assert last in cs && UniKey(last) == x;
        }
      }
    }
  }

  lemma {:induction false} OnlyAddedChanges(q: State<Change>, cs: seq<Change>)
    ensures forall c :: c in AddAll(q, cs).queue ==> c in q.queue || c in cs
  {
    if cs != [] {
      OnlyAddedChanges(q, cs[..|cs| - 1]);
      assert cs == cs[..|cs| - 1] + [cs[|cs| - 1]];
    }
  }

  /**
   What a round leaves behind: `stored` in the repository and `queued` in the
   queue. Finished tasks are neither written nor queued, exceptional ones are
   marked, and what is new in the queue carries its task.
   */
  ghost predicate RoundOutcome(
    repo: Repo, cache: Cache, busy: set<string>, info: TriggerInfo, stored: Repo, before: seq<Change>, queued: seq<Change>)
  {
    && (forall k :: k in repo ==> k in stored && stored[k] == StoredAfter(repo, cache, busy, info, k))
    && (forall c :: c in queued && c !in before ==>
          && CarriesItsTask(repo, cache, busy, info, c)
          && (Wanted(repo, busy, info, c.taskKey) ==> repo[c.taskKey].status !in {Success, Failed, Stop})
          && (c.taskKey in cache ==> cache[c.taskKey].status !in {Success, Failed, Stop}))
  }

  lemma OutcomeOfRound(
    repo: Repo, cache: Cache, busy: set<string>, info: TriggerInfo, changes: seq<Change>, normal: seq<Change>,
    q: State<Change>)
    requires WellKeyed(repo, cache) && AreChanges(changes, repo, cache, busy, info)
    requires AreNormalChanges(normal, repo, cache, busy, info)
    ensures RoundOutcome(repo, cache, busy, info, WithExceptions(repo, changes), q.queue, AddAll(q, normal).queue)
  {
    forall k | k in repo
      ensures k in WithExceptions(repo, changes)
      ensures WithExceptions(repo, changes)[k] == StoredAfter(repo, cache, busy, info, k)
    {
      ExceptionsAreStored(repo, cache, busy, info, changes, k);
    }
    OnlyAddedChanges(q, normal);
    forall c | c in normal
      ensures CarriesItsTask(repo, cache, busy, info, c)
      ensures Wanted(repo, busy, info, c.taskKey) ==> repo[c.taskKey].status !in {Success, Failed, Stop}
      ensures c.taskKey in cache ==> cache[c.taskKey].status !in {Success, Failed, Stop}
    {
      ChangesCarryTheirTasks(repo, cache, busy, info, c);
      FinishedTasksAreLeftAlone(repo, cache, busy, info, c.taskKey);
    }
  }

  class Infomer {
    const changeQueue: Typed<Change>
    var repo: Repo
    var cache: Cache

    ghost predicate Valid()
      reads this, changeQueue, changeQueue.queue, changeQueue.queue.data
    {
      changeQueue.Valid() && changeQueue.key == UniKey && WellKeyed(repo, cache)
    }

    /** Task keys for which `Exist` answers yes. */
    ghost predicate Busy(k: string)
      requires changeQueue.queue.Valid()
      reads this, changeQueue, changeQueue.queue, changeQueue.queue.data
    {
      Exists(UniKey, changeQueue.Value(), KeyOnly(k))
    }

    ghost function BusyAmong(keys: seq<string>): set<string>
      requires changeQueue.queue.Valid()
      reads this, changeQueue, changeQueue.queue, changeQueue.queue.data
    {
      set k | k in keys && Busy(k)
    }

    constructor (changeQueue: Typed<Change>, repo: Repo, cache: Cache)
      requires changeQueue.Valid() && changeQueue.key == UniKey && WellKeyed(repo, cache)
      ensures Valid() && this.changeQueue == changeQueue && this.repo == repo && this.cache == cache
    {
      this.changeQueue := changeQueue;
      this.repo := repo;
      this.cache := cache;
    }

    /** The cached results, in whatever order the map yields them. */
    method ListCache() returns (list: seq<TaskExecResult>)
      requires WellKeyed(repo, cache)
      ensures DistinctResults(list)
      ensures forall r :: r in list <==> r.taskKey in cache && cache[r.taskKey] == r
    {
      list := [];
      var left := cache.Keys;
      while left != {}
        invariant left <= cache.Keys
        invariant DistinctResults(list)
        invariant forall r :: r in list <==> r.taskKey in cache.Keys - left && cache[r.taskKey] == r
        decreases |left|
      {
        var k :| k in left;
        assert forall r :: r in list ==> r.taskKey != k;
        list := list + [cache[k]];
        left := left - {k};
      }
    }

    method ListTasks(keys: seq<string>) returns (ret: seq<TaskExecResult>)
      requires WellKeyed(repo, cache)
      ensures AreListed(repo, cache, ToSet(keys), ret)
      ensures Distinct(keys) ==> DistinctResults(ret)
    {
      var list := ListCache();
      ghost var wanted := ToSet(keys);
      if |keys| == 0 {
        return list;
      }
      assert keys[0] in wanted;
      ret := [];
      for i := 0 to |list|
        invariant forall r :: r in ret <==> r in list[..i] && r.taskKey in wanted
        invariant Distinct(keys) ==> DistinctResults(ret)
      {
        var item := list[i];
        ghost var before := ret;
        for j := 0 to |keys|
          invariant forall r :: r in ret <==> r in before || (r == item && item.taskKey in keys[..j])
          invariant Distinct(keys) ==> DistinctResults(ret)
          invariant Distinct(keys) && item.taskKey !in keys[..j] ==> ret == before
        {
          if item.taskKey == keys[j] {
            if Distinct(keys) {
              assert item.taskKey !in keys[..j];
              assert forall r :: r in before ==> r.taskKey != item.taskKey;
            }
            ret := ret + [item];
          }
          assert keys[..j + 1] == keys[..j] + [keys[j]];
        }
        assert keys[..|keys|] == keys;
        assert list[..i + 1] == list[..i] + [item];
      }
      assert list[..|list|] == list;
    }

    method ListTaskKeys() returns (ret: seq<string>)
      requires WellKeyed(repo, cache)
      ensures Distinct(ret) && forall k :: k in ret <==> k in cache
    {
      var list := ListCache();
      ret := [];
      for i := 0 to |list|
        invariant |ret| == i
        invariant forall j :: 0 <= j < i ==> ret[j] == list[j].taskKey
      {
        ret := ret + [list[i].taskKey];
      }
      forall k | k in cache ensures k in ret {
        assert cache[k] in list;
        var j :| 0 <= j < |list| && list[j] == cache[k];
        assert ret[j] == k;
      }
    }

    method LoadTaskPairs(wantKeys: seq<string>, actualKeys: seq<string>) returns (pairs: seq<Pair>)
      requires WellKeyed(repo, cache)
      ensures forall p :: p in pairs <==>
                PairAt(repo, cache, ToSet(wantKeys), ToSet(actualKeys), p.Key()) == Some(p)
      ensures Distinct(actualKeys) ==> DistinctPairs(pairs)
    {
      ghost var ws, rs := ToSet(wantKeys), ToSet(actualKeys);
      if |wantKeys| == 0 && |actualKeys| == 0 {
        return [];
      }
      assert ws != {} || rs != {} by {
        if |wantKeys| != 0 {
          assert wantKeys[0] in ws;
        } else {
          assert actualKeys[0] in rs;
        }
      }
      var wants := BatchGet(repo, wantKeys);
      BatchGetMeaning(repo, wantKeys);
      var actuals := ListTasks(actualKeys);
      var actualMap := KeyByTask(actuals);
      MapOfListed(repo, cache, rs, actuals);
      var joined := JoinWants(wants, actualMap, rs);
      var lone := LonePairs(wants, actuals);
      pairs := joined + lone;
      LoneMeaning(wants, actuals);
      OuterJoin(repo, cache, ws, rs, wants, actuals, joined, lone);
    }

    /** Each wanted task with the actual one of the same key. */
    method JoinWants(wants: seq<Task>, actualMap: Cache, ghost rs: set<string>) returns (pairs: seq<Pair>)
      requires forall k :: (k in actualMap <==> Listed(cache, rs, k)) && (k in actualMap ==> actualMap[k] == cache[k])
      ensures |pairs| == |wants| && forall j :: 0 <= j < |wants| ==> pairs[j] == Join(cache, rs, wants[j])
    {
      pairs := [];
      for i := 0 to |wants|
        invariant |pairs| == i
        invariant forall j :: 0 <= j < i ==> pairs[j] == Join(cache, rs, wants[j])
      {
        var k := wants[i].taskKey;
        pairs := pairs + [Pair(Some(wants[i]), if k in actualMap then Some(actualMap[k]) else None)];
      }
    }

    /** The actual tasks that no wanted one goes with. */
    static method LonePairs(wants: seq<Task>, actuals: seq<TaskExecResult>) returns (lone: seq<Pair>)
      ensures lone == Lone(wants, actuals)
    {
      lone := [];
      for i := 0 to |actuals|
        invariant lone == Lone(wants, actuals[..i])
      {
        assert actuals[..i + 1][..i] == actuals[..i];
        if !WantedAmong(wants, actuals[i].taskKey) {
          lone := lone + [Pair(None, Some(actuals[i]))];
        }
      }
      assert actuals[..|actuals|] == actuals;
    }

    /** Drops the keys of `skip`, keeping the order. */
    static method Without(keys: seq<string>, skip: set<string>) returns (ret: seq<string>)
      ensures ToSet(ret) == ToSet(keys) - skip
      ensures Distinct(keys) ==> Distinct(ret)
    {
      ret := [];
      for i := 0 to |keys|
        invariant forall k :: k in ret <==> k in keys[..i] && k !in skip
        invariant Distinct(keys) ==> Distinct(ret)
      {
        assert keys[..i + 1] == keys[..i] + [keys[i]];
        if keys[i] !in skip {
          ret := ret + [keys[i]];
        }
      }
      assert keys[..|keys|] == keys;
    }

    /** The trigger keys that are queued or being processed right now. */
    method ProcessingKeys(keys: seq<string>) returns (busy: set<string>)
      requires Valid()
      ensures busy == BusyAmong(keys)
    {
      busy := {};
      for i := 0 to |keys|
        invariant forall k :: k in busy <==> k in keys[..i] && Busy(k)
      {
        assert keys[..i + 1] == keys[..i] + [keys[i]];
        var exist := changeQueue.Exist(KeyOnly(keys[i]));
        if exist {
          busy := busy + {keys[i]};
        }
      }
      assert keys[..|keys|] == keys;
    }

    static method DropFinished(pairs: seq<Pair>) returns (ret: seq<Pair>)
      ensures forall p :: p in ret <==> p in pairs && !p.Finished()
      ensures DistinctPairs(pairs) ==> DistinctPairs(ret)
    {
      ret := [];
      for i := 0 to |pairs|
        invariant forall p :: p in ret <==> p in pairs[..i] && !p.Finished()
        invariant DistinctPairs(pairs) ==> DistinctPairs(ret)
      {
        assert pairs[..i + 1] == pairs[..i] + [pairs[i]];
        if !pairs[i].Finished() {
          if DistinctPairs(pairs) {
            assert forall p :: p in ret ==> p.Key() != pairs[i].Key();
          }
          ret := ret + [pairs[i]];
        }
      }
      assert pairs[..|pairs|] == pairs;
    }

    method KeysToLoad(info: TriggerInfo, processingKeys: set<string>) returns (wantKeys: seq<string>, actualKeys: seq<string>)
      requires WellKeyed(repo, cache) && processingKeys <= info.Keys()
      ensures ToSet(wantKeys) == WantKeys(processingKeys, info)
      ensures ToSet(actualKeys) == ActualKeys(cache, processingKeys, info)
      ensures Distinct(info.taskKeys) ==> Distinct(actualKeys)
    {
      wantKeys, actualKeys := info.taskKeys, info.taskKeys;
      if info.resync {
        actualKeys := ListTaskKeys();
        assert ToSet(actualKeys) == cache.Keys;
      }
      assert processingKeys == Skipped(processingKeys, info);
      if processingKeys != {} {
        wantKeys := Without(wantKeys, processingKeys);
        actualKeys := Without(actualKeys, processingKeys);
      }
    }

    method LoadTaskPairsThreadSafe(info: TriggerInfo) returns (ret: seq<Pair>)
      requires Valid()
      ensures ArePairs(ret, repo, cache, BusyAmong(info.taskKeys), info)
      ensures Distinct(info.taskKeys) ==> DistinctPairs(ret)
    {
      var processingKeys := ProcessingKeys(info.taskKeys);
      ret := LoadUnfinished(info, processingKeys);
    }

    method LoadUnfinished(info: TriggerInfo, processingKeys: set<string>) returns (ret: seq<Pair>)
      requires WellKeyed(repo, cache) && processingKeys <= info.Keys()
      ensures ArePairs(ret, repo, cache, processingKeys, info)
      ensures Distinct(info.taskKeys) ==> DistinctPairs(ret)
    {
      var wantKeys, actualKeys := KeysToLoad(info, processingKeys);
      var pairs := LoadTaskPairs(wantKeys, actualKeys);
      ret := DropFinished(pairs);
      FilteredPairs(repo, cache, processingKeys, info, ToSet(wantKeys), ToSet(actualKeys), pairs, ret);
    }

    static method Diff(pairs: seq<Pair>) returns (changes: seq<Change>)
      ensures changes == DiffsOf(pairs)
      ensures forall c :: c in changes <==> exists p :: p in pairs && p.Diff() == Some(c)
      ensures DistinctPairs(pairs) ==> DistinctChanges(changes)
    {
      changes := [];
      for i := 0 to |pairs|
        invariant changes == DiffsOf(pairs[..i])
      {
        var pair := pairs[i];
        assert pairs[..i + 1][..i] == pairs[..i];
        var change := KeyOnly("");
        var wantStatus, actualStatus := NotExist, NotExist;
        if pair.actual.Some? {
          change := change.(taskKey := pair.actual.value.taskKey, taskType := pair.actual.value.taskType);
          actualStatus := pair.actual.value.status;
        }
        if pair.want.Some? {
          change := change.(taskKey := pair.want.value.taskKey, taskType := pair.want.value.typ);
          wantStatus := pair.want.value.wantRunStatus;
        }
        if actualStatus != wantStatus {
          var changeType := GetChangeType(actualStatus, wantStatus);
          if changeType.Some? {
            change := change.(changeType := changeType.value);
            if changeType.value == Create {
              change := change.(task := pair.want);
            }
            assert pair.Diff() == Some(change);
            changes := changes + [change];
          }
        }
      }
      assert pairs[..|pairs|] == pairs;
      DiffsMeaning(pairs);
    }

    method HandleException(cs: seq<Change>) returns (normal: seq<Change>)
      requires WellKeyed(repo, cache)
      modifies this`repo
      ensures WellKeyed(repo, cache) && repo == WithExceptions(old(repo), cs)
      ensures normal == Kept(IsNormal, cs)
      ensures forall c :: c in normal <==> c in cs && !c.IsException()
      ensures DistinctChanges(cs) ==> DistinctChanges(normal)
    {
      normal := [];
      for i := 0 to |cs|
        invariant repo == WithExceptions(old(repo), cs[..i])
        invariant normal == Kept(IsNormal, cs[..i])
      {
        var c := cs[i];
        assert cs[..i + 1][..i] == cs[..i];
        if !c.IsException() {
          normal := normal + [c];
        } else {
          repo := UpdateTask(repo, ExceptionPatch(c));
        }
      }
      assert cs[..|cs|] == cs;
      ExceptionsKeepKeys(old(repo), cache, cs);
      NormalMeaning(cs);
    }

    /** `processTask` and the after-change callback: record the result, store its status, release the task. */
    method ProcessTask(r: TaskExecResult) returns (wake: Wake)
      requires Valid()
      modifies this, changeQueue, changeQueue.metrics
      ensures Valid()
      ensures cache == AfterResult(old(cache), r) && repo == UpdateTask(old(repo), ResultPatch(r))
      ensures changeQueue.Value() == AfterDone(UniKey, old(changeQueue.Value()), KeyOnly(r.taskKey))
    {
      cache := cache[r.taskKey := r];
      repo := UpdateTask(repo, ResultPatch(r));
      wake := changeQueue.Done(KeyOnly(r.taskKey));
    }

    /** One trigger handled by the enqueue loop, with nothing running beside it. */
    method ProcessTrigger(info: TriggerInfo, now: int) returns (changes: seq<Change>, normal: seq<Change>)
      requires Valid()
      modifies this`repo, changeQueue, changeQueue.queue, changeQueue.queue.data, changeQueue.metrics
      ensures Valid() && cache == old(cache)
      ensures AreChanges(changes, old(repo), cache, old(BusyAmong(info.taskKeys)), info)
      ensures AreNormalChanges(normal, old(repo), cache, old(BusyAmong(info.taskKeys)), info)
      ensures Distinct(info.taskKeys) ==> DistinctChanges(normal)
      ensures repo == WithExceptions(old(repo), changes)
      ensures changeQueue.Value() == AddAll(old(changeQueue.Value()), normal)
      ensures RoundOutcome(old(repo), cache, old(BusyAmong(info.taskKeys)), info, repo,
                           old(changeQueue.Value()).queue, changeQueue.Value().queue)
      ensures Distinct(info.taskKeys) ==>
                changeQueue.Value().queue ==
                if old(changeQueue.shuttingDown) then old(changeQueue.Value()).queue
                else old(changeQueue.Value()).queue + Kept(Free(old(changeQueue.Value())), normal)
    {
      changes := ComputeChanges(info);
      NormalFromChanges(repo, cache, BusyAmong(info.taskKeys), info, changes);
      normal := HandleException(changes);
      Enqueue(normal, now);
      OutcomeOfRound(old(repo), cache, old(BusyAmong(info.taskKeys)), info, changes, normal, old(changeQueue.Value()));
      if Distinct(info.taskKeys) {
        AddAllMeaning(old(changeQueue.Value()), normal);
      }
    }

    /** Load, filter and diff. */
    method ComputeChanges(info: TriggerInfo) returns (changes: seq<Change>)
      requires Valid()
      ensures AreChanges(changes, repo, cache, BusyAmong(info.taskKeys), info)
      ensures Distinct(info.taskKeys) ==> DistinctChanges(changes)
    {
      var pairs := LoadTaskPairsThreadSafe(info);
      changes := Diff(pairs);
      ChangesMatchPairs(repo, cache, BusyAmong(info.taskKeys), info, pairs, changes);
    }

    method Enqueue(cs: seq<Change>, now: int)
      requires Valid()
      modifies changeQueue, changeQueue.queue, changeQueue.queue.data, changeQueue.metrics
      ensures Valid() && changeQueue.Value() == AddAll(old(changeQueue.Value()), cs)
      ensures changeQueue.queue.data == old(changeQueue.queue.data) || fresh(changeQueue.queue.data)
    {
      for i := 0 to |cs|
        invariant Valid()
        invariant changeQueue.queue.data == old(changeQueue.queue.data) || fresh(changeQueue.queue.data)
        invariant changeQueue.Value() == AddAll(old(changeQueue.Value()), cs[..i])
      {
        assert cs[..i + 1][..i] == cs[..i];
        var _, _ := changeQueue.Add(cs[i], now, 0);
      }
      assert cs[..|cs|] == cs;
    }
  }

  lemma AppendKeepsDistinct(cs: seq<Change>, c: Change)
    requires DistinctChanges(cs) && forall d :: d in cs ==> d.taskKey != c.taskKey
    ensures DistinctChanges(cs + [c])
  {
    assert forall i :: 0 <= i < |cs| ==> cs[i] in cs;
  }

  /** The differences of the pairs, in order. */
  function DiffsOf(pairs: seq<Pair>): seq<Change> {
    if pairs == [] then []
    else
      var before := DiffsOf(pairs[..|pairs| - 1]);
      var last := pairs[|pairs| - 1].Diff();
      if last.Some? then before + [last.value] else before
  }

  lemma {:induction false} DiffsMeaning(pairs: seq<Pair>)
    ensures forall c :: c in DiffsOf(pairs) <==> exists p :: p in pairs && p.Diff() == Some(c)
    ensures DistinctPairs(pairs) ==> DistinctChanges(DiffsOf(pairs))
  {
    if pairs != [] {
      var init, last := pairs[..|pairs| - 1], pairs[|pairs| - 1];
      DiffsMeaning(init);
      assert pairs == init + [last];
      if DistinctPairs(pairs) {
        forall c | c in DiffsOf(init) ensures c.taskKey != last.Key() {
          var p :| p in init && p.Diff() == Some(c);
          var i :| 0 <= i < |init| && init[i] == p;
          assert pairs[i] == p;
        }
        if last.Diff().Some? {
          AppendKeepsDistinct(DiffsOf(init), last.Diff().value);
        }
      }
    }
  }

  predicate IsNormal(c: Change) {
    !c.IsException()
  }

  function KeyOfChange(c: Change): string {
    c.taskKey
  }

  lemma NormalMeaning(cs: seq<Change>)
    ensures forall c :: c in Kept(IsNormal, cs) <==> c in cs && !c.IsException()
    ensures DistinctChanges(cs) ==> DistinctChanges(Kept(IsNormal, cs))
  {
    forall c: Change ensures c in Kept(IsNormal, cs) <==> c in cs && !c.IsException() {
      KeptMembers(IsNormal, cs, c);
    }
    if DistinctChanges(cs) {
      KeptDistinct(IsNormal, KeyOfChange, cs);
      var kept := Kept(IsNormal, cs);
      forall i, j | 0 <= i < j < |kept| ensures kept[i].taskKey != kept[j].taskKey {
        assert KeyOfChange(kept[i]) != KeyOfChange(kept[j]);
      }
    }
  }

  lemma FilteredPairs(repo: Repo, cache: Cache, busy: set<string>, info: TriggerInfo,
                      wantKeys: set<string>, actualKeys: set<string>, pairs: seq<Pair>, ret: seq<Pair>)
    requires wantKeys == WantKeys(busy, info) && actualKeys == ActualKeys(cache, busy, info)
    requires forall p :: p in pairs <==> PairAt(repo, cache, wantKeys, actualKeys, p.Key()) == Some(p)
    requires forall p :: p in ret <==> p in pairs && !p.Finished()
    ensures ArePairs(ret, repo, cache, busy, info)
  {
  }

  lemma NormalFromChanges(repo: Repo, cache: Cache, busy: set<string>, info: TriggerInfo, changes: seq<Change>)
    requires AreChanges(changes, repo, cache, busy, info)
    ensures forall c :: c in changes && !c.IsException() <==> NormalAt(repo, cache, busy, info, c.taskKey) == Some(c)
  {
  }

  lemma ChangesMatchPairs(repo: Repo, cache: Cache, busy: set<string>, info: TriggerInfo, pairs: seq<Pair>, changes: seq<Change>)
    requires WellKeyed(repo, cache)
    requires ArePairs(pairs, repo, cache, busy, info)
    requires forall c :: c in changes <==> exists p :: p in pairs && p.Diff() == Some(c)
    ensures AreChanges(changes, repo, cache, busy, info)
  {
    forall c: Change ensures c in changes <==> ChangeAt(repo, cache, busy, info, c.taskKey) == Some(c) {
      if ChangeAt(repo, cache, busy, info, c.taskKey) == Some(c) {
        var p := SeenAt(repo, cache, busy, info, c.taskKey).value;
        assert p.Key() == c.taskKey;
        assert p in pairs && p.Diff() == Some(c);
      }
      if c in changes {
        var p :| p in pairs && p.Diff() == Some(c);
        assert p.Key() == c.taskKey;
      }
    }
  }

  ghost function Join(cache: Cache, actualKeys: set<string>, t: Task): Pair {
    Pair(Some(t), if Listed(cache, actualKeys, t.taskKey) then Some(cache[t.taskKey]) else None)
  }

  ghost predicate AreListed(repo: Repo, cache: Cache, rs: set<string>, actuals: seq<TaskExecResult>) {
    forall r :: r in actuals <==> Listed(cache, rs, r.taskKey) && cache[r.taskKey] == r
  }

  lemma MapOfListed(repo: Repo, cache: Cache, rs: set<string>, actuals: seq<TaskExecResult>)
    requires WellKeyed(repo, cache) && AreListed(repo, cache, rs, actuals)
    ensures var m := KeyByTask(actuals);
            forall k :: (k in m <==> Listed(cache, rs, k)) && (k in m ==> m[k] == cache[k])
  {
    var m := KeyByTask(actuals);
    forall k ensures (k in m <==> Listed(cache, rs, k)) && (k in m ==> m[k] == cache[k]) {
      if k in m {
        assert m[k] in actuals;
      }
      if Listed(cache, rs, k) {
        assert cache[k] in actuals;
      }
    }
  }

  function Lone(wants: seq<Task>, actuals: seq<TaskExecResult>): seq<Pair> {
    if actuals == [] then []
    else
      var before := Lone(wants, actuals[..|actuals| - 1]);
      var last := actuals[|actuals| - 1];
      if WantedAmong(wants, last.taskKey) then before else before + [Pair(None, Some(last))]
  }

  ghost predicate IsLone(wants: seq<Task>, actuals: seq<TaskExecResult>, p: Pair) {
    p.want.None? && p.actual.Some? && p.actual.value in actuals && !WantedAmong(wants, p.actual.value.taskKey)
  }

  lemma AppendKeepsDistinctPairs(ps: seq<Pair>, p: Pair)
    requires DistinctPairs(ps) && forall o :: o in ps ==> o.Key() != p.Key()
    ensures DistinctPairs(ps + [p])
  {
    assert forall i :: 0 <= i < |ps| ==> ps[i] in ps;
  }

  lemma {:induction false} LoneMeaning(wants: seq<Task>, actuals: seq<TaskExecResult>)
    ensures forall p :: p in Lone(wants, actuals) <==> IsLone(wants, actuals, p)
    ensures DistinctResults(actuals) ==> DistinctPairs(Lone(wants, actuals))
  {
    if actuals != [] {
      var init, last := actuals[..|actuals| - 1], actuals[|actuals| - 1];
      LoneMeaning(wants, init);
      assert actuals == init + [last];
      if DistinctResults(actuals) {
        forall p | p in Lone(wants, init) ensures p.Key() != last.taskKey {
          assert IsLone(wants, init, p);
          var i :| 0 <= i < |init| && init[i] == p.actual.value;
          assert actuals[i] == init[i];
        }
        AppendKeepsDistinctPairs(Lone(wants, init), Pair(None, Some(last)));
      }
    }
  }

  /** Joined wanted tasks plus the actual ones nobody wants are exactly the pairs of the specification. */
  lemma OuterJoin(repo: Repo, cache: Cache, ws: set<string>, rs: set<string>,
                  wants: seq<Task>, actuals: seq<TaskExecResult>, joined: seq<Pair>, lone: seq<Pair>)
    requires WellKeyed(repo, cache) && (ws != {} || rs != {})
    requires DistinctTasks(wants)
    requires forall t :: t in wants <==> t.taskKey in ws && t.taskKey in repo && repo[t.taskKey] == t
    requires AreListed(repo, cache, rs, actuals)
    requires |joined| == |wants| && forall j :: 0 <= j < |wants| ==> joined[j] == Join(cache, rs, wants[j])
    requires forall p :: p in lone <==> IsLone(wants, actuals, p)
    ensures forall p :: p in joined + lone <==> PairAt(repo, cache, ws, rs, p.Key()) == Some(p)
    ensures DistinctPairs(lone) ==> DistinctPairs(joined + lone)
  {
    forall p: Pair ensures p in joined + lone <==> PairAt(repo, cache, ws, rs, p.Key()) == Some(p) {
      if PairAt(repo, cache, ws, rs, p.Key()) == Some(p) {
        if p.want.Some? {
          assert p.want.value in wants;
          var j :| 0 <= j < |wants| && wants[j] == p.want.value;
          assert joined[j] == p;
        } else {
          assert p.actual.value in actuals && !WantedAmong(wants, p.Key());
          assert p in lone;
        }
      }
      if p in lone {
        assert !WantedAmong(wants, p.Key());
        assert p.Key() in repo ==> repo[p.Key()] !in wants;
      }
    }
    if DistinctPairs(lone) {
      forall i, j | 0 <= i < |joined| && 0 <= j < |lone| ensures joined[i].Key() != lone[j].Key() {
        assert wants[i] in wants && lone[j] in lone;
        assert !WantedAmong(wants, lone[j].Key());
      }
    }
  }

  /** `lo.KeyBy` on results: later entries win. */
  function KeyByTask(list: seq<TaskExecResult>): (m: Cache)
    ensures forall k :: k in m ==> m[k] in list && m[k].taskKey == k
    ensures forall r :: r in list ==> r.taskKey in m
  {
    if list == [] then map[]
    else
      var last := list[|list| - 1];
      KeyByTask(list[..|list| - 1])[last.taskKey := last]
  }

  /** Membership in `lo.KeyBy` of the wanted tasks. */
  predicate WantedAmong(wants: seq<Task>, k: string) {
    exists t :: t in wants && t.taskKey == k
  }
}
