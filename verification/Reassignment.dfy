/**
 What a leader's pass over the runnable tasks achieves, and how a change of the
 worker set is recognised.
 */
module Reassignment {
  import opened Lists
  import opened TaskModel
  import opened Placement
  import opened Balance

  /** Estimates come and go; the workers and their taints stay the same. */
  ghost predicate SameWorkers(a: seq<Instance>, b: seq<Instance>) {
    && |a| == |b|
    && forall i :: 0 <= i < |a| ==> a[i].ID() == b[i].ID() && a[i].metadata.stains == b[i].metadata.stains
  }

  ghost predicate SomeoneAdmits(workers: seq<Instance>, stains: map<string, string>) {
    exists i :: 0 <= i < |workers| && Admits(stains, workers[i].metadata.stains)
  }

  /** The task is on a worker that admits it, waiting to run there. */
  ghost predicate PlacedOnAdmitting(workers: seq<Instance>, t: Task) {
    && t.status == WaitRunning && t.wantRunStatus == Running
    && exists i :: 0 <= i < |workers| && workers[i].ID() == t.workerID && Admits(t.stains, workers[i].metadata.stains)
  }

  ghost predicate ProperWorkers(workers: seq<Instance>) {
    DistinctIDs(workers) && forall i :: 0 <= i < |workers| ==> workers[i].ID() != ""
  }

  lemma NoCandidateMeaning(workers: seq<Instance>, stains: map<string, string>)
    ensures Filter(stains, workers) == [] <==> !SomeoneAdmits(workers, stains)
  {
    var cs := Filter(stains, workers);
    if i :| 0 <= i < |workers| && Admits(stains, workers[i].metadata.stains) {
      KeptMembers(Admitting(stains), workers, workers[i]);
    } else if cs != [] {
      KeptMembers(Admitting(stains), workers, cs[0]);
    }
  }

  lemma CandidateMeaning(workers: seq<Instance>, stains: map<string, string>, c: nat)
    requires DistinctIDs(workers) && c < |Filter(stains, workers)|
    ensures var chosen := Filter(stains, workers)[c];
            && SameWorkers(workers, ReplaceBy(IDOf, workers, chosen.Estimated()))
            && exists i :: 0 <= i < |workers| && workers[i].ID() == chosen.ID()
                           && Admits(stains, workers[i].metadata.stains)
  {
    EstimateAddsIncrement(Filter(stains, workers)[c]);
    var i := EstimateInCache(workers, stains, c);
  }

  lemma SelectMeaning(workers: seq<Instance>, stains: map<string, string>)
    requires DistinctIDs(workers)
    ensures var c := Select(workers, stains);
            && SameWorkers(workers, c.workers)
            && (c.id.Some? <==> SomeoneAdmits(workers, stains))
            && (c.id.None? ==> c.workers == workers)
            && (c.id.Some? ==> exists i :: 0 <= i < |workers| && workers[i].ID() == c.id.value
                                           && Admits(stains, workers[i].metadata.stains))
  {
    var cs := Filter(stains, workers);
    NoCandidateMeaning(workers, stains);
    if cs != [] {
      CandidateMeaning(workers, stains, if |cs| == 1 then 0 else Best(cs));
    }
  }

  lemma SameWorkersAgree(a: seq<Instance>, b: seq<Instance>, t: Task)
    requires SameWorkers(a, b)
    ensures SomeoneAdmits(a, t.stains) <==> SomeoneAdmits(b, t.stains)
    ensures OnAvailableWorker(a, t) <==> OnAvailableWorker(b, t)
    ensures PlacedOnAdmitting(a, t) <==> PlacedOnAdmitting(b, t)
    ensures ProperWorkers(a) <==> ProperWorkers(b)
  {
  }

  // ----- What the pass works on -----

  lemma {:induction false} HomelessMeaning(workers: seq<Instance>, tasks: seq<Task>)
    ensures forall t :: t in Homeless(workers, tasks) <==> t in tasks && !OnAvailableWorker(workers, t)
    ensures DistinctTasks(tasks) ==> DistinctTasks(Homeless(workers, tasks))
  {
    if tasks != [] {
      var init, last := tasks[..|tasks| - 1], tasks[|tasks| - 1];
      HomelessMeaning(workers, init);
      assert tasks == init + [last];
      if DistinctTasks(tasks) && !OnAvailableWorker(workers, last) {
        forall t | t in init ensures t.taskKey != last.taskKey {
          var i :| 0 <= i < |init| && init[i] == t;
          assert tasks[i] == t;
        }
        AppendKeepsDistinctTasks(Homeless(workers, init), last);
      }
    }
  }

  // ----- One assignment, then all of them -----

  /** What the pass does to a task it works on. */
  ghost predicate Settled(workers: seq<Instance>, before: Task, after: Task) {
    if SomeoneAdmits(workers, before.stains)
    then PlacedOnAdmitting(workers, after) && after.taskKey == before.taskKey
    else after == before
  }

  lemma SettledForSameWorkers(a: seq<Instance>, b: seq<Instance>, before: Task, after: Task)
    requires SameWorkers(a, b)
    ensures Settled(a, before, after) <==> Settled(b, before, after)
  {
    SameWorkersAgree(a, b, before);
    SameWorkersAgree(a, b, after);
  }

  lemma AssignMeaning(p: Plan, t: Task)
    requires ProperWorkers(p.workers)
    requires t.taskKey in p.repo && p.repo[t.taskKey] == t
    ensures var p' := Assign(p, t);
            && SameWorkers(p.workers, p'.workers)
            && p'.repo.Keys == p.repo.Keys
            && (forall k :: k in p.repo && k != t.taskKey ==> p'.repo[k] == p.repo[k])
            && Settled(p.workers, t, p'.repo[t.taskKey])
  {
    SelectMeaning(p.workers, t.stains);
  }

  /** One assignment: the least loaded admitting worker gets the task and, if there was a choice, the estimate. */
  lemma AssignBooksWhereItPlaces(p: Plan, t: Task)
    requires ProperWorkers(p.workers) && t.taskKey in p.repo
    ensures var p' := Assign(p, t);
            if exists i :: AdmitsAt(p.workers, t.stains, i) then
              exists i :: LeastLoaded(p.workers, t.stains, i) && Booked(p.workers, t.stains, i, p'.workers)
                          && p'.repo == p.repo[t.taskKey := p.repo[t.taskKey].(status := WaitRunning,
                                              wantRunStatus := Running, workerID := p.workers[i].ID())]
            else p' == p
  {
    SelectTakesLeastLoaded(p.workers, t.stains);
    PreWaitMeaning(Running);
    var c := Select(p.workers, t.stains);
    if c.id.Some? {
      var i :| LeastLoaded(p.workers, t.stains, i) && c.id.value == p.workers[i].ID()
               && Booked(p.workers, t.stains, i, c.workers);
      assert p.workers[i].ID() != "";
    }
  }

  lemma {:induction false} AssignAllMeaning(p: Plan, tasks: seq<Task>)
    requires ProperWorkers(p.workers)
    requires forall t :: t in tasks ==> t.taskKey in p.repo && p.repo[t.taskKey] == t
    requires DistinctTasks(tasks)
    ensures var p' := AssignAll(p, tasks);
            && SameWorkers(p.workers, p'.workers)
            && p'.repo.Keys == p.repo.Keys
            && (forall k :: k in p.repo && (forall t :: t in tasks ==> t.taskKey != k) ==> p'.repo[k] == p.repo[k])
            && (forall t :: t in tasks ==> Settled(p.workers, t, p'.repo[t.taskKey]))
    decreases |tasks|
  {
    if tasks != [] {
      var first, rest := tasks[0], tasks[1..];
      var p1 := Assign(p, first);
      AssignMeaning(p, first);
      SameWorkersAgree(p.workers, p1.workers, first);
      assert forall t :: t in rest ==> t in tasks && t.taskKey != first.taskKey;
      AssignAllMeaning(p1, rest);
      var p2 := AssignAll(p1, rest);
      assert p2.repo[first.taskKey] == p1.repo[first.taskKey];
      forall t | t in tasks ensures Settled(p.workers, t, p2.repo[t.taskKey]) {
        if t != first {
          assert t in rest;
          SettledForSameWorkers(p.workers, p1.workers, t, p2.repo[t.taskKey]);
        }
      }
    }
  }

  /**
   A pass leaves alone every task that is not runnable or is already on an
   available worker; it puts every other runnable task on a worker whose taints
   it tolerates, unless there is none. The worker set itself is unchanged.
   */
  lemma PassPlacesHomelessTasks(p: Plan, runnable: seq<string>, k: string)
    requires ProperWorkers(p.workers) && Keyed(p.repo) && k in p.repo
    ensures var p' := Pass(p, runnable);
            && SameWorkers(p.workers, p'.workers)
            && p'.repo.Keys == p.repo.Keys && p'.repo[k].taskKey == k
            && (if k in runnable && !OnAvailableWorker(p.workers, p.repo[k]) && SomeoneAdmits(p.workers, p.repo[k].stains)
                then PlacedOnAdmitting(p.workers, p'.repo[k])
                else p'.repo[k] == p.repo[k])
  {
    var tasks := BatchGet(p.repo, runnable);
    BatchGetMeaning(p.repo, runnable);
    HomelessMeaning(p.workers, tasks);
    AssignAllMeaning(p, Homeless(p.workers, tasks));
    if k in runnable && !OnAvailableWorker(p.workers, p.repo[k]) {
      assert p.repo[k] in Homeless(p.workers, tasks);
    } else {
      assert forall t :: t in Homeless(p.workers, tasks) ==> t.taskKey != k;
    }
  }

  lemma {:induction false} NobodyAdmitsNothingChanges(p: Plan, tasks: seq<Task>)
    requires DistinctIDs(p.workers)
    requires forall t :: t in tasks ==> !SomeoneAdmits(p.workers, t.stains)
    ensures AssignAll(p, tasks) == p
    decreases |tasks|
  {
    if tasks != [] {
      assert tasks[0] in tasks;
      SelectMeaning(p.workers, tasks[0].stains);
      NobodyAdmitsNothingChanges(p, tasks[1..]);
    }
  }

  /** A second pass over any of the same tasks changes nothing at all, not even an estimate. */
  lemma PassIsIdempotent(p: Plan, runnable: seq<string>, again: seq<string>)
    requires ProperWorkers(p.workers) && Keyed(p.repo)
    requires forall k :: k in again ==> k in runnable
    ensures Pass(Pass(p, runnable), again) == Pass(p, runnable)
  {
    var p1 := Pass(p, runnable);
    var tasks := BatchGet(p.repo, runnable);
    BatchGetMeaning(p.repo, runnable);
    HomelessMeaning(p.workers, tasks);
    AssignAllMeaning(p, Homeless(p.workers, tasks));
    forall k | k in p1.repo ensures p1.repo[k].taskKey == k {
      PassPlacesHomelessTasks(p, runnable, k);
    }
    BatchGetMeaning(p1.repo, again);
    HomelessMeaning(p1.workers, BatchGet(p1.repo, again));
    forall t | t in Homeless(p1.workers, BatchGet(p1.repo, again)) ensures !SomeoneAdmits(p1.workers, t.stains) {
      PassPlacesHomelessTasks(p, runnable, t.taskKey);
      SameWorkersAgree(p.workers, p1.workers, t);
    }
    SameWorkersAgree(p.workers, p1.workers, EmptyPatch(""));
    NobodyAdmitsNothingChanges(p1, Homeless(p1.workers, BatchGet(p1.repo, again)));
  }

  /** A worker with an empty ID passes for the home of every unassigned task: such tasks are never placed. */
  lemma EmptyIDHidesUnassignedTasks(p: Plan, runnable: seq<string>, k: string)
    requires DistinctIDs(p.workers) && Keyed(p.repo) && k in p.repo && p.repo[k].workerID == ""
    requires Known(p.workers, "")
    ensures p.repo[k] !in Homeless(p.workers, BatchGet(p.repo, runnable))
  {
    HomelessMeaning(p.workers, BatchGet(p.repo, runnable));
  }

  // ----- Changes of the worker set -----

  ghost function IDs(workers: seq<Instance>): set<string> {
    set i | 0 <= i < |workers| :: workers[i].ID()
  }

  lemma {:induction false} DistinctCount(ids: seq<string>)
    ensures |set i | 0 <= i < |ids| :: ids[i]| <= |ids|
    ensures |set i | 0 <= i < |ids| :: ids[i]| == |ids| <==> forall i, j :: 0 <= i < j < |ids| ==> ids[i] != ids[j]
  {
    if ids != [] {
      var init, last := ids[..|ids| - 1], ids[|ids| - 1];
      DistinctCount(init);
      var few, all := set i | 0 <= i < |init| :: init[i], set i | 0 <= i < |ids| :: ids[i];
      assert all == few + {last};
      if last in few {
        assert all == few;
        var i :| 0 <= i < |init| && init[i] == last;
        assert ids[i] == ids[|ids| - 1];
      }
    }
  }

  lemma DistinctWorkers(workers: seq<Instance>)
    ensures |IDs(workers)| <= |workers|
    ensures |IDs(workers)| == |workers| <==> DistinctIDs(workers)
  {
    var ids := seq(|workers|, i requires 0 <= i < |workers| => workers[i].ID());
    DistinctCount(ids);
    forall id | id in IDs(workers) ensures id in set i | 0 <= i < |ids| :: ids[i] {
      var i :| 0 <= i < |workers| && workers[i].ID() == id;
      assert ids[i] == id;
    }
    assert IDs(workers) == set i | 0 <= i < |ids| :: ids[i];
    assert forall i :: 0 <= i < |ids| ==> ids[i] == workers[i].ID();
  }

  lemma UnchangedMeansContained(oldWorkers: seq<Instance>, newWorkers: seq<Instance>)
    ensures (forall j :: 0 <= j < |newWorkers| ==> Known(oldWorkers, newWorkers[j].ID()))
            <==> IDs(newWorkers) <= IDs(oldWorkers)
  {
    assert forall id :: Known(oldWorkers, id) <==> id in IDs(oldWorkers);
    if IDs(newWorkers) <= IDs(oldWorkers) {
      forall j | 0 <= j < |newWorkers| ensures Known(oldWorkers, newWorkers[j].ID()) {
        assert newWorkers[j].ID() in IDs(newWorkers);
      }
    }
  }

  /**
   The one-sided comparison is enough: with distinct new IDs, "unchanged" means
   that the two lists have the same IDs, none of them twice.
   */
  lemma UnchangedIffSameIDs(oldWorkers: seq<Instance>, newWorkers: seq<Instance>)
    requires DistinctIDs(newWorkers)
    ensures !Changed(oldWorkers, newWorkers) <==> IDs(oldWorkers) == IDs(newWorkers) && DistinctIDs(oldWorkers)
  {
    DistinctWorkers(oldWorkers);
    DistinctWorkers(newWorkers);
    UnchangedMeansContained(oldWorkers, newWorkers);
    if !Changed(oldWorkers, newWorkers) {
      SubsetIsSmaller(IDs(newWorkers), IDs(oldWorkers));
    }
  }
}
