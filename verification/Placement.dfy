/**
 The scheduler's placement: which workers a task tolerates, which of them looks
 least loaded, the local estimate written after a choice, and the pass that
 reassigns tasks whose worker is gone.
 */
module Placement {
  import opened Lists
  import opened TaskModel

  datatype Metric = CpuUsage | MemTotal | MemUsed | MemUsage | GoGcPause | GoGcCount | GoGoroutine

  /** Worker metadata, already parsed: the worker id, the resource figures and the taints. */
  datatype Metadata = Metadata(workerID: string, usage: map<Metric, real>, stains: map<string, string>)

  datatype Instance = Instance(instanceID: string, metadata: Metadata) {
    function ID(): string {
      if metadata.workerID != "" then metadata.workerID else instanceID
    }

    /** A missing figure reads as zero. */
    function Usage(m: Metric): real {
      if m in metadata.usage then metadata.usage[m] else 0.0
    }

    function Score(): real {
      var base := Usage(CpuUsage) * 0.5 + Usage(MemUsage) * 0.5;
      if Usage(GoGcCount) == 0.0 then base + Usage(GoGoroutine)
      else
        var goroutineScore := (Usage(GoGoroutine) / 5000.0) * 100.0;
        var gcScore := (Usage(GoGcPause) / Usage(GoGcCount)) / 500.0 * 100.0;
        base + (goroutineScore * 0.5 + gcScore * 0.5)
    }

    function With(m: Metric, v: real): Instance {
      this.(metadata := metadata.(usage := metadata.usage[m := v]))
    }

    /** The estimate written for a worker that has just been given a task. */
    function Estimated(): Instance {
      With(CpuUsage, Usage(CpuUsage) + 0.05)
        .With(MemUsage, Usage(MemUsage) + 0.05)
        .With(GoGoroutine, Usage(GoGoroutine) + 1.0)
    }

    /** What one task is estimated to add to the score. */
    function Increment(): real {
      if Usage(GoGcCount) == 0.0 then 1.05 else 0.06
    }
  }

  lemma EstimateAddsIncrement(w: Instance)
    ensures w.Estimated().Score() == w.Score() + w.Increment()
    ensures w.Estimated().Increment() == w.Increment()
    ensures w.Estimated().ID() == w.ID() && w.Estimated().metadata.stains == w.metadata.stains
  {
    var e := w.Estimated();
    assert e.Usage(GoGcCount) == w.Usage(GoGcCount) && e.Usage(GoGcPause) == w.Usage(GoGcPause);
    assert (w.Usage(GoGoroutine) + 1.0) / 5000.0 == w.Usage(GoGoroutine) / 5000.0 + 1.0 / 5000.0;
  }

  lemma QuotientAdds(a: real, d: real, c: real)
    requires c != 0.0
    ensures (a + d) / c == a / c + d / c
  {
    var q, r := a / c, d / c;
    assert q * c == a && r * c == d;
    assert (q + r) * c == a + d;
  }

  /** What each figure weighs: without a GC count a goroutine weighs 1 and pauses nothing. */
  lemma ScoreWeights(w: Instance, m: Metric, d: real)
    requires m != GoGcCount
    ensures var count := w.Usage(GoGcCount);
            w.With(m, w.Usage(m) + d).Score() - w.Score() ==
            match m
            case CpuUsage => d / 2.0
            case MemUsage => d / 2.0
            case GoGoroutine => if count == 0.0 then d else d / 100.0
            case GoGcPause => if count == 0.0 then 0.0 else d / count / 10.0
            case _ => 0.0
  {
    var w' := w.With(m, w.Usage(m) + d);
    assert forall n :: n != m ==> w'.Usage(n) == w.Usage(n);
    assert w'.Usage(m) == w.Usage(m) + d;
    if m == GoGcPause && w.Usage(GoGcCount) != 0.0 {
      QuotientAdds(w.Usage(GoGcPause), d, w.Usage(GoGcCount));
    }
  }

  lemma IdleScore(w: Instance)
    requires w.metadata.usage == map[]
    ensures w.Score() == 0.0
  {
  }

  lemma QuotientFalls(a: real, c: real, c': real)
    requires a >= 0.0 && 0.0 < c <= c'
    ensures a / c' <= a / c
  {
    var q := a / c;
    assert q * c == a && q >= 0.0;
    assert q * c' >= q * c;
  }

  lemma QuotientIsNonNegative(a: real, c: real)
    requires a >= 0.0 && c > 0.0
    ensures a / c >= 0.0
  {
    var q := a / c;
    assert q * c == a;
  }

  /** More load never makes a worker look better, and more collections for the same pauses never look worse. */
  lemma ScoreIsMonotone(w: Instance, m: Metric, v: real)
    requires v >= w.Usage(m) && w.Usage(GoGcCount) >= 0.0 && w.Usage(GoGcPause) >= 0.0
    ensures m != GoGcCount ==> w.With(m, v).Score() >= w.Score()
    ensures m == GoGcCount && w.Usage(GoGcCount) > 0.0 ==> w.With(m, v).Score() <= w.Score()
  {
    var w' := w.With(m, v);
    if m != GoGcCount {
      var d, count := v - w.Usage(m), w.Usage(GoGcCount);
      ScoreWeights(w, m, d);
      if count > 0.0 {
        QuotientIsNonNegative(d, count);
      }
    } else if w.Usage(GoGcCount) > 0.0 {
      assert forall n :: n != m ==> w'.Usage(n) == w.Usage(n);
      QuotientFalls(w.Usage(GoGcPause), w.Usage(GoGcCount), v);
    }
  }

  /** An estimate raises three figures and leaves the others alone. */
  lemma EstimateMeaning(w: Instance, m: Metric)
    ensures w.Estimated().Usage(m) - w.Usage(m) ==
            match m
            case CpuUsage => 0.05
            case MemUsage => 0.05
            case GoGoroutine => 1.0
            case _ => 0.0
  {
  }

  /** A worker is known by the id in its metadata, and by its instance id only without one. */
  lemma IDMeaning(w: Instance, instanceID: string)
    ensures w.metadata.workerID != "" ==> w.ID() == w.metadata.workerID == w.(instanceID := instanceID).ID()
    ensures w.metadata.workerID == "" ==> w.(instanceID := instanceID).ID() == instanceID
  {
  }

  // ----- Taints -----

  /** A missing stain reads as the empty string. */
  function StainOf(stains: map<string, string>, k: string): string {
    if k in stains then stains[k] else ""
  }

  /** The test applied to each worker, with its two length shortcuts. */
  predicate Admits(task: map<string, string>, node: map<string, string>) {
    || |node| == 0
    || (|node| <= |task| && forall k :: k in node ==> StainOf(task, k) == node[k])
  }

  /** What it is meant to decide: every taint of the worker is tolerated by the task. */
  predicate Tolerates(task: map<string, string>, node: map<string, string>) {
    forall k :: k in node ==> k in task && task[k] == node[k]
  }

  lemma SubsetIsSmaller<T>(a: set<T>, b: set<T>)
    requires a <= b
    ensures |a| <= |b|
    ensures |a| == |b| ==> a == b
  {
    assert b == a + (b - a);
    if |a| == |b| {
      assert b - a == {};
    }
  }

  lemma AdmitsMeansTolerates(task: map<string, string>, node: map<string, string>)
    requires forall k :: k in node ==> node[k] != ""
    ensures Admits(task, node) <==> Tolerates(task, node)
  {
    if Tolerates(task, node) {
      SubsetIsSmaller(node.Keys, task.Keys);
      assert |node| == |node.Keys| && |task| == |task.Keys|;
    }
    if |node| == 0 {
      assert node.Keys == {};
    }
  }

  /** Whatever the values, a task with fewer stains than the worker has taints is turned away. */
  lemma FewerStainsAreTurnedAway(task: map<string, string>, node: map<string, string>)
    ensures |task| < |node| ==> !Admits(task, node)
    ensures node == map[] ==> Admits(task, node)
    ensures Tolerates(task, node) ==> Admits(task, node)
  {
    if Tolerates(task, node) {
      SubsetIsSmaller(node.Keys, task.Keys);
      assert |node| == |node.Keys| && |task| == |task.Keys|;
    }
  }

  lemma {:induction false} FreshKey(used: set<string>, n: nat) returns (k: string)
    ensures k !in used && |k| >= n
    decreases |used|
  {
    k := seq(n, _ => 'x');
    if k in used {
      var tried := k;
      k := FreshKey(used - {tried}, n + 1);
    }
  }

  /** The test means toleration for every task exactly when the worker has no taint with an empty value. */
  lemma AdmitsIsExactIffNoEmptyTaint(node: map<string, string>)
    ensures (forall task :: Admits(task, node) <==> Tolerates(task, node))
            <==> (forall k :: k in node ==> node[k] != "")
  {
    if forall k :: k in node ==> node[k] != "" {
      forall task ensures Admits(task, node) <==> Tolerates(task, node) {
        AdmitsMeansTolerates(task, node);
      }
    } else {
      var a :| a in node && node[a] == "";
      var b := FreshKey(node.Keys, 0);
      var task := (node - {a})[b := "x"];
      assert task.Keys == node.Keys - {a} + {b};
      assert |task| == |task.Keys| == |node.Keys| == |node|;
      assert Admits(task, node);
      assert !Tolerates(task, node);
    }
  }

  function Admitting(stains: map<string, string>): Instance -> bool {
    (w: Instance) => Admits(stains, w.metadata.stains)
  }

  function Filter(stains: map<string, string>, workers: seq<Instance>): seq<Instance> {
    Kept(Admitting(stains), workers)
  }

  // ----- Choosing -----

  function IDOf(w: Instance): string {
    w.ID()
  }

  function ScoreOf(w: Instance): real {
    w.Score()
  }

  /** Index of the leftmost worker with the lowest score. */
  function Best(workers: seq<Instance>): (i: nat)
    requires workers != []
    ensures i < |workers|
  {
    LeftmostMin(Values(ScoreOf, workers))
  }

  datatype Choice = Choice(workers: seq<Instance>, id: Option<string>)

  /** `selectWorkerID`: the chosen worker's ID and the cached workers afterwards. */
  function Select(workers: seq<Instance>, stains: map<string, string>): Choice {
    var candidates := Filter(stains, workers);
    if candidates == [] then Choice(workers, None)
    else if |candidates| == 1 then Choice(workers, Some(candidates[0].ID()))
    else
      var chosen := candidates[Best(candidates)];
      Choice(ReplaceBy(IDOf, workers, chosen.Estimated()), Some(chosen.ID()))
  }

  ghost predicate DistinctIDs(workers: seq<Instance>) {
    DistinctBy(IDOf, workers)
  }

  /** Writing an estimate for candidate `c` changes one cached worker and one candidate, and no identity or taint. */
  lemma EstimateInCache(workers: seq<Instance>, stains: map<string, string>, c: nat) returns (i: nat)
    requires DistinctIDs(workers) && c < |Filter(stains, workers)|
    ensures var chosen := Filter(stains, workers)[c];
            var after := ReplaceBy(IDOf, workers, chosen.Estimated());
            && i < |workers| && workers[i] == chosen && after == workers[i := chosen.Estimated()]
            && Admits(stains, chosen.metadata.stains)
            && Filter(stains, after) == Filter(stains, workers)[c := chosen.Estimated()]
  {
    var chosen := Filter(stains, workers)[c];
    EstimateAddsIncrement(chosen);
    KeptMembers(Admitting(stains), workers, chosen);
    i :| 0 <= i < |workers| && workers[i] == chosen;
    ReplaceAt(IDOf, workers, chosen.Estimated(), i);
    KeptOfReplaced(Admitting(stains), IDOf, workers, i, c, chosen.Estimated());
  }

  ghost predicate AdmitsAt(workers: seq<Instance>, stains: map<string, string>, i: int) {
    0 <= i < |workers| && Admits(stains, workers[i].metadata.stains)
  }

  /** No admitting worker scores lower, and none before it scores as low. */
  ghost predicate LeastLoaded(workers: seq<Instance>, stains: map<string, string>, i: int) {
    && AdmitsAt(workers, stains, i)
    && forall j :: AdmitsAt(workers, stains, j) ==>
                     workers[i].Score() <= workers[j].Score() && (j < i ==> workers[i].Score() < workers[j].Score())
  }

  lemma BestIsLeastLoaded(workers: seq<Instance>, stains: map<string, string>) returns (i: nat)
    requires Filter(stains, workers) != []
    ensures LeastLoaded(workers, stains, i)
    ensures var cs := Filter(stains, workers);
            workers[i] == cs[Best(cs)] && |Filter(stains, workers[..i])| == Best(cs)
  {
    var keep, cs := Admitting(stains), Filter(stains, workers);
    LeftmostMinIsLeast(Values(ScoreOf, cs));
    i := KeptPosition(keep, workers, Best(cs));
    assert workers[..|workers|] == workers;
    forall j | AdmitsAt(workers, stains, j)
      ensures workers[i].Score() <= workers[j].Score() && (j < i ==> workers[i].Score() < workers[j].Score())
    {
      KeptOrder(keep, workers, j, |workers|);
      var d := |Kept(keep, workers[..j])|;
      assert Values(ScoreOf, cs)[d] == workers[j].Score();
      if j < i {
        KeptOrder(keep, workers, j, i);
      }
    }
  }

  /** The chosen worker stands alone exactly when no other one admits the task. */
  lemma AloneIffOneCandidate(workers: seq<Instance>, stains: map<string, string>, i: nat)
    requires AdmitsAt(workers, stains, i)
    ensures |Filter(stains, workers)| == 1 <==> forall j :: AdmitsAt(workers, stains, j) ==> j == i
  {
    var keep, cs := Admitting(stains), Filter(stains, workers);
    assert workers[..|workers|] == workers;
    KeptOrder(keep, workers, i, |workers|);
    if j :| AdmitsAt(workers, stains, j) && j != i {
      KeptOrder(keep, workers, j, |workers|);
      if j < i {
        KeptOrder(keep, workers, j, i);
      } else {
        KeptOrder(keep, workers, i, j);
      }
    } else if |cs| != 1 {
      var first := KeptPosition(keep, workers, 0);
      var second := KeptPosition(keep, workers, 1);
      assert AdmitsAt(workers, stains, first) && AdmitsAt(workers, stains, second);
    }
  }

  /** What choosing a worker does to the cached ones: if there was a choice, the chosen one is estimated to carry more. */
  ghost predicate Booked(workers: seq<Instance>, stains: map<string, string>, i: int, after: seq<Instance>)
    requires 0 <= i < |workers|
  {
    if forall j :: AdmitsAt(workers, stains, j) ==> j == i then after == workers
    else
      && |after| == |workers| && after == workers[i := after[i]]
      && after[i].ID() == workers[i].ID()
      && after[i].Score() == workers[i].Score() + (if workers[i].Usage(GoGcCount) == 0.0 then 1.05 else 0.06)
  }

  lemma SelectBooks(workers: seq<Instance>, stains: map<string, string>, i: nat)
    requires DistinctIDs(workers) && Filter(stains, workers) != [] && AdmitsAt(workers, stains, i)
    requires workers[i] == Filter(stains, workers)[Best(Filter(stains, workers))]
    ensures Booked(workers, stains, i, Select(workers, stains).workers)
  {
    AloneIffOneCandidate(workers, stains, i);
    if |Filter(stains, workers)| > 1 {
      EstimateAddsIncrement(workers[i]);
      var j := EstimateInCache(workers, stains, Best(Filter(stains, workers)));
      SamePlace(IDOf, workers, i, j);
    }
  }

  /** A worker is chosen exactly if one admits the task; it is the least loaded one that does, and that one is booked. */
  lemma SelectTakesLeastLoaded(workers: seq<Instance>, stains: map<string, string>)
    ensures var c := Select(workers, stains);
            && (c.id.Some? <==> exists i :: AdmitsAt(workers, stains, i))
            && (c.id.None? ==> c.workers == workers)
            && (c.id.Some? ==>
                  exists i :: LeastLoaded(workers, stains, i) && c.id.value == workers[i].ID()
                              && (DistinctIDs(workers) ==> Booked(workers, stains, i, c.workers)))
  {
    var cs := Filter(stains, workers);
    var c := Select(workers, stains);
    if cs == [] {
      forall i | AdmitsAt(workers, stains, i) ensures false {
        KeptMembers(Admitting(stains), workers, workers[i]);
      }
    } else {
      var i := BestIsLeastLoaded(workers, stains);
      assert |cs| == 1 ==> Best(cs) == 0;
      assert DistinctIDs(workers) ==> Booked(workers, stains, i, c.workers) by {
        if DistinctIDs(workers) {
          SelectBooks(workers, stains, i);
        }
      }
      assert LeastLoaded(workers, stains, i) && c.id.value == workers[i].ID();
    }
  }

  // ----- Assigning -----

  datatype Plan = Plan(workers: seq<Instance>, repo: Repo)

  /** A task as it is first stored. */
  function NewTask(taskKey: string, t: Task): Task {
    t.(taskKey := taskKey, status := WaitScheduling)
  }

  function AssignPatch(taskKey: string, workerID: string): Task {
    EmptyPatch(taskKey).(status := Running.PreWait(), wantRunStatus := Running, workerID := workerID)
  }

  function OperatePatch(taskKey: string, next: TaskStatus): Task {
    EmptyPatch(taskKey).(status := next.PreWait(), wantRunStatus := next)
  }

  /** What `OperateTask` writes, if it accepts the request for a task with this status. */
  function Operate(taskKey: string, status: TaskStatus, next: TaskStatus): Option<Task> {
    if !status.CanTransition(next) then None
    else if next.PreWait() == Unset then None
    else Some(OperatePatch(taskKey, next))
  }

  /** A request is accepted exactly for a task that is not settled in the wanted state, and only for states a user can ask for. */
  lemma OperateMeaning(taskKey: string, status: TaskStatus, next: TaskStatus)
    ensures Operate(taskKey, status, next).Some? <==>
              status in {NotExist, Running, Paused} && next in {Running, Paused, Stop} && status != next
  {
    TableMeaning(status, next);
    PreWaitMeaning(next);
  }

  function Assign(p: Plan, t: Task): Plan {
    var choice := Select(p.workers, t.stains);
    match choice.id
    case None => Plan(choice.workers, p.repo)
    case Some(id) => Plan(choice.workers, UpdateTask(p.repo, AssignPatch(t.taskKey, id)))
  }

  function AssignAll(p: Plan, tasks: seq<Task>): Plan
    decreases |tasks|
  {
    if tasks == [] then p else AssignAll(Assign(p, tasks[0]), tasks[1..])
  }

  predicate Known(workers: seq<Instance>, id: string) {
    exists i :: 0 <= i < |workers| && workers[i].ID() == id
  }

  predicate OnAvailableWorker(workers: seq<Instance>, t: Task) {
    Known(workers, t.workerID)
  }

  function Homeless(workers: seq<Instance>, tasks: seq<Task>): seq<Task> {
    if tasks == [] then []
    else
      var last := tasks[|tasks| - 1];
      var before := Homeless(workers, tasks[..|tasks| - 1]);
      if OnAvailableWorker(workers, last) then before else before + [last]
  }

  /** One leader pass over the runnable tasks. */
  function Pass(p: Plan, runnable: seq<string>): Plan {
    AssignAll(p, Homeless(p.workers, BatchGet(p.repo, runnable)))
  }

  // ----- The scheduler -----

  datatype WorkerScore = WorkerScore(index: nat, score: real)

  predicate Before(a: WorkerScore, b: WorkerScore) {
    a.score < b.score || (a.score == b.score && a.index < b.index)
  }

  /** Strictly ordered by score, equal scores in their original order. */
  ghost predicate StablySorted(s: seq<WorkerScore>) {
    forall i, j :: 0 <= i < j < |s| ==> Before(s[i], s[j])
  }

  function Insert(s: seq<WorkerScore>, x: WorkerScore): seq<WorkerScore> {
    if s == [] || x.score < s[0].score then [x] + s else [s[0]] + Insert(s[1..], x)
  }

  lemma {:induction false} InsertKeepsSorted(s: seq<WorkerScore>, x: WorkerScore)
    requires StablySorted(s) && forall y :: y in s ==> y.index < x.index
    ensures StablySorted(Insert(s, x))
    ensures forall y :: y in Insert(s, x) <==> y in s || y == x
    ensures |Insert(s, x)| == |s| + 1
  {
    if s == [] || x.score < s[0].score {
    } else {
      assert s == [s[0]] + s[1..];
      InsertKeepsSorted(s[1..], x);
      assert forall y :: y in s[1..] ==> Before(s[0], y);
    }
  }

  lemma HeadIsLeftmostMin(values: seq<real>, scores: seq<WorkerScore>, sorted: seq<WorkerScore>)
    requires |scores| == |values| > 0 && forall j :: 0 <= j < |values| ==> scores[j] == WorkerScore(j, values[j])
    requires StablySorted(sorted) && |sorted| == |scores| && forall x :: x in sorted <==> x in scores
    ensures IsLeftmostMin(values, sorted[0].index) && sorted[0].index == LeftmostMin(values)
  {
    assert sorted[0] in sorted;
    var i := sorted[0].index;
    forall j | 0 <= j < |values| && j != i ensures Before(sorted[0], scores[j]) {
      assert scores[j] in sorted;
      var m :| 0 <= m < |sorted| && sorted[m] == scores[j];
    }
    assert IsLeftmostMin(values, i);
    LeftmostMinIsLeast(values);
  }

  datatype Reply = Accepted | TaskNotFound | InvalidParams | NotAllowed

  class Scheduler {
    var availableWorkers: seq<Instance>
    var repo: Repo

    constructor (workers: seq<Instance>, repo: Repo)
      ensures availableWorkers == workers && this.repo == repo
    {
      availableWorkers := workers;
      this.repo := repo;
    }

    static method MatchStains(task: map<string, string>, node: map<string, string>) returns (matched: bool)
      ensures matched <==> forall k :: k in node ==> StainOf(task, k) == node[k]
    {
      var left := node.Keys;
      while left != {}
        invariant left <= node.Keys
        invariant forall k :: k in node && k !in left ==> StainOf(task, k) == node[k]
        decreases |left|
      {
        var k :| k in left;
        if StainOf(task, k) != node[k] {
          return false;
        }
        left := left - {k};
      }
      return true;
    }

    static method FilterWorker(stains: map<string, string>, workers: seq<Instance>) returns (candidates: seq<Instance>)
      ensures candidates == Filter(stains, workers)
    {
      candidates := [];
      for i := 0 to |workers|
        invariant candidates == Filter(stains, workers[..i])
      {
        assert workers[..i + 1][..i] == workers[..i];
        var nodeStains := workers[i].metadata.stains;
        if |nodeStains| == 0 {
          candidates := candidates + [workers[i]];
        } else if |nodeStains| <= |stains| {
          var matched := MatchStains(stains, nodeStains);
          if matched {
            candidates := candidates + [workers[i]];
          }
        }
      }
      assert workers[..|workers|] == workers;
    }

    static method PriorityWorker(workers: seq<Instance>) returns (w: Instance)
      requires workers != []
      ensures exists i: nat :: IsLeftmostMin(Values(ScoreOf, workers), i) && w == workers[i]
      ensures w == workers[Best(workers)]
    {
      var scores: seq<WorkerScore> := [];
      for i := 0 to |workers|
        invariant |scores| == i
        invariant forall j :: 0 <= j < i ==> scores[j] == WorkerScore(j, workers[j].Score())
      {
        scores := scores + [WorkerScore(i, workers[i].Score())];
      }
      var sorted := SortStable(scores);
      HeadIsLeftmostMin(Values(ScoreOf, workers), scores, sorted);
      w := workers[sorted[0].index];
    }

    static method SortStable(scores: seq<WorkerScore>) returns (sorted: seq<WorkerScore>)
      requires forall i :: 0 <= i < |scores| ==> scores[i].index == i
      ensures StablySorted(sorted) && |sorted| == |scores|
      ensures forall x :: x in sorted <==> x in scores
    {
      sorted := [];
      for i := 0 to |scores|
        invariant StablySorted(sorted) && |sorted| == i
        invariant forall x :: x in sorted <==> x in scores[..i]
      {
        assert scores[..i + 1] == scores[..i] + [scores[i]];
        assert forall x :: x in scores[..i] ==> x.index < i;
        InsertKeepsSorted(sorted, scores[i]);
        sorted := Insert(sorted, scores[i]);
      }
      assert scores[..|scores|] == scores;
    }

    method UpdateWorkerInCache(w: Instance)
      modifies this`availableWorkers
      ensures availableWorkers == ReplaceBy(IDOf, old(availableWorkers), w)
    {
      var workers := availableWorkers;
      for i := 0 to |workers|
        invariant workers == availableWorkers == old(availableWorkers)
        invariant forall j :: 0 <= j < i ==> workers[j].ID() != w.ID()
      {
        if workers[i].ID() == w.ID() {
          ReplaceAt(IDOf, workers, w, i);
          availableWorkers := workers[i := w];
          return;
        }
      }
      ReplaceAt(IDOf, workers, w, |workers|);
    }

    method SelectWorkerID(stains: map<string, string>) returns (id: Option<string>)
      modifies this`availableWorkers
      ensures Choice(availableWorkers, id) == Select(old(availableWorkers), stains)
      ensures id.Some? <==> exists i :: AdmitsAt(old(availableWorkers), stains, i)
      ensures id.None? ==> availableWorkers == old(availableWorkers)
      ensures id.Some? ==>
                exists i :: LeastLoaded(old(availableWorkers), stains, i) && id.value == old(availableWorkers)[i].ID()
                            && (DistinctIDs(old(availableWorkers)) ==>
                                  Booked(old(availableWorkers), stains, i, availableWorkers))
    {
      SelectTakesLeastLoaded(availableWorkers, stains);
      if |availableWorkers| == 0 {
        return None;
      }
      var candidates := FilterWorker(stains, availableWorkers);
      if |candidates| == 0 {
        return None;
      }
      if |candidates| == 1 {
        return Some(candidates[0].ID());
      }
      var chosen := PriorityWorker(candidates);
      UpdateWorkerInCache(chosen.Estimated());
      return Some(chosen.ID());
    }

    /** Stores a new task under a fresh key, waiting to be scheduled. */
    method CreateTask(freshKey: string, t: Task)
      requires freshKey !in repo
      modifies this`repo
      ensures repo.Keys == old(repo.Keys) + {freshKey}
      ensures forall k :: k in old(repo) ==> repo[k] == old(repo)[k]
      ensures repo[freshKey] == t.(taskKey := freshKey, status := WaitScheduling)
    {
      repo := repo[freshKey := NewTask(freshKey, t)];
    }

    /**
     An operate request by task key or, without one, by business id. `listed` is
     the key of the task the repository lists first for that business id.
     */
    method OperateTask(bizID: string, taskKey: string, listed: Option<string>, next: TaskStatus) returns (reply: Reply)
      requires Keyed(repo)
      requires listed.Some? ==> listed.value in repo
      modifies this`repo
      ensures reply == InvalidParams <==> taskKey == "" && bizID == ""
      ensures reply == TaskNotFound <==>
                (taskKey != "" && taskKey !in old(repo)) || (taskKey == "" && bizID != "" && listed == None)
      ensures reply in {Accepted, NotAllowed} ==>
                var k := if taskKey != "" then taskKey else listed.value;
                && k in old(repo)
                && (reply == Accepted <==>
                      && old(repo)[k].status in {NotExist, Running, Paused} && next in {Running, Paused, Stop}
                      && old(repo)[k].status != next)
                && (reply == Accepted ==>
                      && k in repo && repo == old(repo)[k := old(repo)[k].(status := repo[k].status, wantRunStatus := next)]
                      && "wait_" + next.Name() <= repo[k].status.Name()
                      && (repo[k].status == WaitRunning <==> next == Running)
                      && (repo[k].status == WaitPaused <==> next == Paused))
      ensures reply != Accepted ==> repo == old(repo)
    {
      var k := taskKey;
      if taskKey != "" {
        if taskKey !in repo {
          return TaskNotFound;
        }
      } else if bizID != "" {
        if listed == None {
          return TaskNotFound;
        }
        k := listed.value;
      } else {
        return InvalidParams;
      }
      var accepted := CheckAndWrite(k, next);
      PreWaitMeaning(next);
      OperateMeaning(k, old(repo)[k].status, next);
      return if accepted then Accepted else NotAllowed;
    }

    method CheckAndWrite(k: string, next: TaskStatus) returns (accepted: bool)
      requires Keyed(repo) && k in repo
      modifies this`repo
      ensures accepted == Operate(k, old(repo)[k].status, next).Some?
      ensures repo == if accepted then UpdateTask(old(repo), OperatePatch(k, next)) else old(repo)
      ensures accepted ==> repo == old(repo)[k := old(repo)[k].(status := next.PreWait(), wantRunStatus := next)]
    {
      if !repo[k].status.CanTransition(next) {
        return false;
      }
      if next.PreWait() == Unset {
        return false;
      }
      repo := UpdateTask(repo, OperatePatch(k, next));
      return true;
    }

    method AssignTask(t: Task)
      modifies this
      ensures Plan(availableWorkers, repo) == Assign(Plan(old(availableWorkers), old(repo)), t)
    {
      var id := SelectWorkerID(t.stains);
      if id.Some? {
        repo := UpdateTask(repo, AssignPatch(t.taskKey, id.value));
      }
    }

    method LoadNeedAssignTasks(runnable: seq<string>) returns (ret: seq<Task>)
      ensures ret == Homeless(availableWorkers, BatchGet(repo, runnable))
    {
      var tasks := BatchGet(repo, runnable);
      ret := [];
      for i := 0 to |tasks|
        invariant ret == Homeless(availableWorkers, tasks[..i])
      {
        assert tasks[..i + 1][..i] == tasks[..i];
        if !OnAvailableWorker(availableWorkers, tasks[i]) {
          ret := ret + [tasks[i]];
        }
      }
      assert tasks[..|tasks|] == tasks;
    }

    /** One assign event, given the election's answer and the repository's runnable keys. */
    method HandleAssignEvent(leader: bool, runnable: seq<string>)
      modifies this
      ensures Plan(availableWorkers, repo) ==
              if leader then Pass(Plan(old(availableWorkers), old(repo)), runnable)
              else Plan(old(availableWorkers), old(repo))
    {
      if !leader {
        return;
      }
      var tasks := LoadNeedAssignTasks(runnable);
      ghost var start := Plan(availableWorkers, repo);
      for i := 0 to |tasks|
        invariant AssignAll(Plan(availableWorkers, repo), tasks[i..]) == AssignAll(start, tasks)
      {
        assert tasks[i..][1..] == tasks[i + 1..];
        AssignTask(tasks[i]);
      }
    }

    method HasAvailableWorkersChanged(newWorkers: seq<Instance>) returns (changed: bool)
      ensures changed == Changed(availableWorkers, newWorkers)
    {
      if |availableWorkers| != |newWorkers| {
        return true;
      }
      for i := 0 to |newWorkers|
        invariant forall j :: 0 <= j < i ==> Known(availableWorkers, newWorkers[j].ID())
      {
        var found := false;
        for j := 0 to |availableWorkers|
          invariant !found
          invariant forall m :: 0 <= m < j ==> availableWorkers[m].ID() != newWorkers[i].ID()
        {
          if newWorkers[i].ID() == availableWorkers[j].ID() {
            found := true;
            break;
          }
        }
        if !found {
          return true;
        }
      }
      return false;
    }
  }

  predicate Changed(oldWorkers: seq<Instance>, newWorkers: seq<Instance>) {
    || |oldWorkers| != |newWorkers|
    || exists j :: 0 <= j < |newWorkers| && !Known(oldWorkers, newWorkers[j].ID())
  }
}
