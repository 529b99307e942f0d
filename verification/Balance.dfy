/**
 How evenly repeated placement spreads tasks. Every choice takes the leftmost
 least-loaded candidate and adds an estimate to it, so no worker that was ever
 chosen gets further ahead of the least loaded one than its own last estimate.
 */
module Balance {
  import opened Lists
  import opened TaskModel
  import opened Placement

  /** The candidate list after `n` choices on it. */
  function Placed(cs: seq<Instance>, n: nat): (r: seq<Instance>)
    requires cs != []
    ensures |r| == |cs|
  {
    if n == 0 then cs
    else
      var before := Placed(cs, n - 1);
      before[Best(before) := before[Best(before)].Estimated()]
  }

  /** The cached workers after `n` tasks with these stains have been placed. */
  function SelectMany(workers: seq<Instance>, stains: map<string, string>, n: nat): seq<Instance> {
    if n == 0 then workers else Select(SelectMany(workers, stains, n - 1), stains).workers
  }

  // ----- The cache and the candidate list stay in step -----

  lemma SelectKeepsDistinct(workers: seq<Instance>, stains: map<string, string>)
    requires DistinctIDs(workers) && |Filter(stains, workers)| >= 2
    ensures var after := Select(workers, stains).workers;
            var cs := Filter(stains, workers);
            && DistinctIDs(after)
            && Filter(stains, after) == cs[Best(cs) := cs[Best(cs)].Estimated()]
  {
    var cs := Filter(stains, workers);
    EstimateAddsIncrement(cs[Best(cs)]);
    var i := EstimateInCache(workers, stains, Best(cs));
  }

  /** After `n` placements the candidates in the cache are the candidate list after `n` choices. */
  ghost predicate InStep(workers: seq<Instance>, stains: map<string, string>, n: nat) {
    && DistinctIDs(SelectMany(workers, stains, n))
    && |Filter(stains, workers)| >= 2
    && Filter(stains, SelectMany(workers, stains, n)) == Placed(Filter(stains, workers), n)
  }

  lemma StartsInStep(workers: seq<Instance>, stains: map<string, string>)
    requires DistinctIDs(workers) && |Filter(stains, workers)| >= 2
    ensures InStep(workers, stains, 0)
  {
    assert SelectMany(workers, stains, 0) == workers;
    assert Placed(Filter(stains, workers), 0) == Filter(stains, workers);
  }

  lemma NextKeepsInStep(workers: seq<Instance>, stains: map<string, string>, n: nat)
    requires n > 0 && InStep(workers, stains, n - 1)
    ensures InStep(workers, stains, n)
  {
    var ws := SelectMany(workers, stains, n - 1);
    SelectKeepsDistinct(ws, stains);
    assert SelectMany(workers, stains, n) == Select(ws, stains).workers;
  }

  /** Placing through the scheduler's cache is choosing on the fixed candidate list. */
  lemma {:induction false} CacheFollowsCandidates(workers: seq<Instance>, stains: map<string, string>, n: nat)
    requires DistinctIDs(workers) && |Filter(stains, workers)| >= 2
    ensures InStep(workers, stains, n)
  {
    if n == 0 {
      StartsInStep(workers, stains);
    } else {
      assert InStep(workers, stains, n - 1) by {
        CacheFollowsCandidates(workers, stains, n - 1);
      }
      NextKeepsInStep(workers, stains, n);
    }
  }

  // ----- The bound -----

  function IncrementOf(w: Instance): real {
    w.Increment()
  }

  function Scores(cs: seq<Instance>): seq<real> {
    Values(ScoreOf, cs)
  }

  function Increments(cs: seq<Instance>): seq<real> {
    Values(IncrementOf, cs)
  }

  /** The scores alone: `n` times, the leftmost minimum grows by its increment. */
  function Loads(scores: seq<real>, incs: seq<real>, n: nat): (r: seq<real>)
    requires |scores| == |incs| > 0
    ensures |r| == |scores|
  {
    if n == 0 then scores
    else
      var before := Loads(scores, incs, n - 1);
      var i := LeftmostMin(before);
      before[i := before[i] + incs[i]]
  }

  /** How many of the first `n` increments went to `i`. */
  function Count(scores: seq<real>, incs: seq<real>, n: nat, i: nat): nat
    requires |scores| == |incs| > 0
  {
    if n == 0 then 0
    else Count(scores, incs, n - 1, i) + (if LeftmostMin(Loads(scores, incs, n - 1)) == i then 1 else 0)
  }

  lemma ValuesOfReplaced<T>(f: T -> real, xs: seq<T>, i: nat, x: T)
    requires i < |xs|
    ensures Values(f, xs[i := x]) == Values(f, xs)[i := f(x)]
  {
  }

  lemma ChoiceFollowsLoads(cs: seq<Instance>, i: nat)
    requires i < |cs|
    ensures Scores(cs[i := cs[i].Estimated()]) == Scores(cs)[i := Scores(cs)[i] + Increments(cs)[i]]
    ensures Increments(cs[i := cs[i].Estimated()]) == Increments(cs)
  {
    EstimateAddsIncrement(cs[i]);
    ValuesOfReplaced(ScoreOf, cs, i, cs[i].Estimated());
    ValuesOfReplaced(IncrementOf, cs, i, cs[i].Estimated());
  }

  ghost predicate LoadsMatch(cs: seq<Instance>, n: nat)
    requires cs != []
  {
    && Scores(Placed(cs, n)) == Loads(Scores(cs), Increments(cs), n)
    && Increments(Placed(cs, n)) == Increments(cs)
  }

  lemma NextKeepsLoadsMatch(cs: seq<Instance>, n: nat)
    requires cs != [] && n > 0 && LoadsMatch(cs, n - 1)
    ensures LoadsMatch(cs, n)
  {
    var before := Placed(cs, n - 1);
    var loads := Loads(Scores(cs), Increments(cs), n - 1);
    var i := Best(before);
    assert Placed(cs, n) == before[i := before[i].Estimated()];
    assert Scores(before) == loads && i == LeftmostMin(loads);
    assert Loads(Scores(cs), Increments(cs), n) == loads[i := loads[i] + Increments(cs)[i]];
    ChoiceFollowsLoads(before, i);
  }

  lemma {:induction false} ScoresFollowLoads(cs: seq<Instance>, n: nat)
    requires cs != []
    ensures LoadsMatch(cs, n)
  {
    if n == 0 {
      assert Placed(cs, 0) == cs && Loads(Scores(cs), Increments(cs), 0) == Scores(cs);
    } else {
      ScoresFollowLoads(cs, n - 1);
      NextKeepsLoadsMatch(cs, n);
    }
  }

  /** `c` increments. */
  function Times(c: nat, inc: real): real {
    if c == 0 then 0.0 else Times(c - 1, inc) + inc
  }

  lemma {:induction false} LoadsCountChoices(scores: seq<real>, incs: seq<real>, n: nat, i: nat)
    requires |scores| == |incs| && i < |scores|
    ensures Loads(scores, incs, n)[i] == scores[i] + Times(Count(scores, incs, n, i), incs[i])
  {
    if n > 0 {
      LoadsCountChoices(scores, incs, n - 1, i);
    }
  }

  /** Whoever has been chosen is ahead of every candidate by at most its own increment. */
  lemma {:induction false} GreedyIsBalanced(scores: seq<real>, incs: seq<real>, n: nat, i: nat, j: nat)
    requires |scores| == |incs| && i < |scores| && j < |scores| && Count(scores, incs, n, i) > 0
    requires forall m :: 0 <= m < |incs| ==> incs[m] > 0.0
    ensures Loads(scores, incs, n)[i] <= Loads(scores, incs, n)[j] + incs[i]
  {
    LeftmostMinIsLeast(Loads(scores, incs, n - 1));
    if LeftmostMin(Loads(scores, incs, n - 1)) != i {
      GreedyIsBalanced(scores, incs, n - 1, i, j);
    }
  }

  /** Two entries that start equal, with the same increment, never differ by more than one choice. */
  lemma EqualLoadsShareEqually(scores: seq<real>, incs: seq<real>, n: nat, i: nat, j: nat)
    requires |scores| == |incs| && i < |scores| && j < |scores|
    requires forall m :: 0 <= m < |incs| ==> incs[m] > 0.0
    requires scores[i] == scores[j] && incs[i] == incs[j]
    ensures Count(scores, incs, n, i) <= Count(scores, incs, n, j) + 1
  {
    if Count(scores, incs, n, i) > 0 {
      GreedyIsBalanced(scores, incs, n, i, j);
      LoadsCountChoices(scores, incs, n, i);
      LoadsCountChoices(scores, incs, n, j);
      if Count(scores, incs, n, i) > Count(scores, incs, n, j) + 1 {
        MoreThanOneAhead(Count(scores, incs, n, i), Count(scores, incs, n, j), incs[i]);
        assert false;
      }
    }
  }

  lemma {:induction false} MoreThanOneAhead(a: nat, b: nat, inc: real)
    requires inc > 0.0 && a > b + 1
    ensures Times(a, inc) > Times(b, inc) + inc
  {
    if a > b + 2 {
      MoreThanOneAhead(a - 1, b, inc);
    }
  }

  // ----- The scheduler, by worker IDs -----

  /** How many of the first `n` times it happens. */
  function Hits(happens: nat -> bool, n: nat): nat {
    if n == 0 then 0 else Hits(happens, n - 1) + (if happens(n - 1) then 1 else 0)
  }

  /** After so many choices, entry `i` has the leftmost lowest load. */
  function Lowest(scores: seq<real>, incs: seq<real>, i: nat): nat -> bool
    requires |scores| == |incs| > 0
  {
    (m: nat) => LeftmostMin(Loads(scores, incs, m)) == i
  }

  /** The task placed after so many others goes to the worker with this ID. */
  function Chosen(workers: seq<Instance>, stains: map<string, string>, id: string): nat -> bool {
    (m: nat) => Select(SelectMany(workers, stains, m), stains).id == Some(id)
  }

  /** How many of the first `n` tasks went to the worker with this ID. */
  function TimesChosen(workers: seq<Instance>, stains: map<string, string>, n: nat, id: string): nat {
    Hits(Chosen(workers, stains, id), n)
  }

  lemma {:induction false} SameHits(f: nat -> bool, g: nat -> bool, n: nat)
    requires forall m: nat :: f(m) == g(m)
    ensures Hits(f, n) == Hits(g, n)
  {
    if n > 0 {
      SameHits(f, g, n - 1);
    }
  }

  /** A count that starts at zero and steps whenever it happens counts how often it happens. */
  lemma {:induction false} CountsHits(count: nat -> nat, happens: nat -> bool, n: nat)
    requires count(0) == 0
    requires forall m: nat :: m > 0 ==> count(m) == count(m - 1) + (if happens(m - 1) then 1 else 0)
    ensures count(n) == Hits(happens, n)
  {
    if n > 0 {
      CountsHits(count, happens, n - 1);
    }
  }

  lemma CountIsHits(scores: seq<real>, incs: seq<real>, n: nat, i: nat)
    requires |scores| == |incs| > 0
    ensures Count(scores, incs, n, i) == Hits(Lowest(scores, incs, i), n)
  {
    var count, lowest := Counter(scores, incs, i), Lowest(scores, incs, i);
    CounterStep(scores, incs, i, 0);
    forall m: nat | m > 0 ensures count(m) == count(m - 1) + (if lowest(m - 1) then 1 else 0) {
      CounterStep(scores, incs, i, m);
    }
    CountsHits(count, lowest, n);
  }

  function Counter(scores: seq<real>, incs: seq<real>, i: nat): nat -> nat
    requires |scores| == |incs| > 0
  {
    (m: nat) => Count(scores, incs, m, i)
  }

  lemma CounterStep(scores: seq<real>, incs: seq<real>, i: nat, m: nat)
    requires |scores| == |incs| > 0
    ensures Counter(scores, incs, i)(0) == 0
    ensures m > 0 ==>
              Counter(scores, incs, i)(m) == Counter(scores, incs, i)(m - 1) + (if Lowest(scores, incs, i)(m - 1) then 1 else 0)
  {
  }

  lemma {:induction false} PlacedKeepsIDs(cs: seq<Instance>, n: nat)
    requires cs != []
    ensures forall d :: 0 <= d < |cs| ==> Placed(cs, n)[d].ID() == cs[d].ID()
  {
    if n == 0 {
      assert Placed(cs, n) == cs;
    } else {
      PlacedKeepsIDs(cs, n - 1);
      var before := Placed(cs, n - 1);
      var i := Best(before);
      assert Placed(cs, n) == before[i := before[i].Estimated()];
      EstimateAddsIncrement(before[i]);
    }
  }

  /** The ID that the scheduler returns is that of the candidate with the leftmost lowest load. */
  lemma ChoiceIsLowestLoad(workers: seq<Instance>, stains: map<string, string>, n: nat)
    requires DistinctIDs(workers) && |Filter(stains, workers)| >= 2
    ensures var cs := Filter(stains, workers);
            Select(SelectMany(workers, stains, n), stains).id ==
            Some(cs[LeftmostMin(Loads(Scores(cs), Increments(cs), n))].ID())
  {
    var cs := Filter(stains, workers);
    var best := Best(Placed(cs, n));
    assert Filter(stains, SelectMany(workers, stains, n)) == Placed(cs, n) by {
      CacheFollowsCandidates(workers, stains, n);
    }
    assert best == LeftmostMin(Loads(Scores(cs), Increments(cs), n)) by {
      ScoresFollowLoads(cs, n);
    }
    assert Placed(cs, n)[best].ID() == cs[best].ID() by {
      PlacedKeepsIDs(cs, n);
    }
  }

  lemma CandidatesAreDistinct(workers: seq<Instance>, stains: map<string, string>, i: nat, j: nat)
    requires DistinctIDs(workers) && i < |Filter(stains, workers)| && j < |Filter(stains, workers)|
    ensures Filter(stains, workers)[i].ID() == Filter(stains, workers)[j].ID() <==> i == j
  {
    KeptDistinct(Admitting(stains), IDOf, workers);
    if IDOf(Filter(stains, workers)[i]) == IDOf(Filter(stains, workers)[j]) {
      SamePlace(IDOf, Filter(stains, workers), i, j);
    }
  }

  lemma ChosenIsLowest(workers: seq<Instance>, stains: map<string, string>, d: nat, m: nat)
    requires DistinctIDs(workers) && |Filter(stains, workers)| >= 2 && d < |Filter(stains, workers)|
    ensures var cs := Filter(stains, workers);
            Chosen(workers, stains, cs[d].ID())(m) == Lowest(Scores(cs), Increments(cs), d)(m)
  {
    var cs := Filter(stains, workers);
    ChoiceIsLowestLoad(workers, stains, m);
    CandidatesAreDistinct(workers, stains, LeftmostMin(Loads(Scores(cs), Increments(cs), m)), d);
  }

  lemma ChoicesAreCounted(workers: seq<Instance>, stains: map<string, string>, n: nat, d: nat)
    requires DistinctIDs(workers) && |Filter(stains, workers)| >= 2 && d < |Filter(stains, workers)|
    ensures var cs := Filter(stains, workers);
            TimesChosen(workers, stains, n, cs[d].ID()) == Count(Scores(cs), Increments(cs), n, d)
  {
    var cs := Filter(stains, workers);
    var chosen, lowest := Chosen(workers, stains, cs[d].ID()), Lowest(Scores(cs), Increments(cs), d);
    forall m: nat ensures chosen(m) == lowest(m) {
      ChosenIsLowest(workers, stains, d, m);
    }
    SameHits(chosen, lowest, n);
    CountIsHits(Scores(cs), Increments(cs), n, d);
  }

  lemma SelectKeepsIDs(workers: seq<Instance>, stains: map<string, string>)
    requires DistinctIDs(workers)
    ensures var after := Select(workers, stains).workers;
            && DistinctIDs(after) && |after| == |workers|
            && forall i :: 0 <= i < |workers| ==> after[i].ID() == workers[i].ID()
  {
    var after := Select(workers, stains).workers;
    assert |after| == |workers| && forall i :: 0 <= i < |workers| ==> after[i].ID() == workers[i].ID() by {
      SelectTakesLeastLoaded(workers, stains);
    }
    forall i, j | 0 <= i < j < |after| ensures IDOf(after[i]) != IDOf(after[j]) {
      assert IDOf(workers[i]) != IDOf(workers[j]);
    }
  }

  lemma {:induction false} CacheKeepsIDs(workers: seq<Instance>, stains: map<string, string>, n: nat)
    requires DistinctIDs(workers)
    ensures var after := SelectMany(workers, stains, n);
            && DistinctIDs(after) && |after| == |workers|
            && forall i :: 0 <= i < |workers| ==> after[i].ID() == workers[i].ID()
  {
    if n == 0 {
      assert SelectMany(workers, stains, n) == workers;
    } else {
      CacheKeepsIDs(workers, stains, n - 1);
      SelectKeepsIDs(SelectMany(workers, stains, n - 1), stains);
    }
  }

  /** An admitting worker and its place in the candidate list. */
  lemma CachedCandidate(workers: seq<Instance>, stains: map<string, string>, n: nat, a: nat) returns (d: nat)
    requires DistinctIDs(workers) && |Filter(stains, workers)| >= 2 && AdmitsAt(workers, stains, a)
    ensures var cs, after := Filter(stains, workers), SelectMany(workers, stains, n);
            d < |cs| && cs[d] == workers[a] && |after| == |workers| && after[a] == Placed(cs, n)[d]
  {
    var cs, after := Filter(stains, workers), SelectMany(workers, stains, n);
    assert workers[..|workers|] == workers;
    KeptOrder(Admitting(stains), workers, a, |workers|);
    d := |Filter(stains, workers[..a])|;
    CacheFollowsCandidates(workers, stains, n);
    CacheKeepsIDs(workers, stains, n);
    PlacedKeepsIDs(cs, n);
    KeptMembers(Admitting(stains), after, Placed(cs, n)[d]);
    var i :| 0 <= i < |after| && after[i] == Placed(cs, n)[d];
    SamePlace(IDOf, after, i, a);
  }

  lemma OthersMakeTwo(workers: seq<Instance>, stains: map<string, string>, a: nat, b: nat)
    requires AdmitsAt(workers, stains, a) && AdmitsAt(workers, stains, b) && a != b
    ensures |Filter(stains, workers)| >= 2
  {
    AloneIffOneCandidate(workers, stains, a);
    KeptMembers(Admitting(stains), workers, workers[a]);
  }

  /**
   After any number of placements of tasks with the same stains, a worker that
   any of them went to is ahead of every admitting worker by at most its own
   increment.
   */
  lemma PlacementIsBalanced(workers: seq<Instance>, stains: map<string, string>, n: nat, a: nat, b: nat)
    requires DistinctIDs(workers) && AdmitsAt(workers, stains, a) && AdmitsAt(workers, stains, b) && a != b
    requires TimesChosen(workers, stains, n, workers[a].ID()) > 0
    ensures var after := SelectMany(workers, stains, n);
            && |after| == |workers|
            && after[a].Score() <= after[b].Score() + (if workers[a].Usage(GoGcCount) == 0.0 then 1.05 else 0.06)
  {
    OthersMakeTwo(workers, stains, a, b);
    var cs := Filter(stains, workers);
    var i := CachedCandidate(workers, stains, n, a);
    var j := CachedCandidate(workers, stains, n, b);
    ChoicesAreCounted(workers, stains, n, i);
    ScoresFollowLoads(cs, n);
    GreedyIsBalanced(Scores(cs), Increments(cs), n, i, j);
    assert Scores(Placed(cs, n))[i] == Placed(cs, n)[i].Score() && Scores(Placed(cs, n))[j] == Placed(cs, n)[j].Score();
    assert Increments(cs)[i] == workers[a].Increment();
  }

  /** Two admitting workers with equal scores, both with or both without a GC count, get the same share, give or take one. */
  lemma EqualWorkersShareEqually(workers: seq<Instance>, stains: map<string, string>, n: nat, a: nat, b: nat)
    requires DistinctIDs(workers) && AdmitsAt(workers, stains, a) && AdmitsAt(workers, stains, b) && a != b
    requires workers[a].Score() == workers[b].Score()
    requires workers[a].Usage(GoGcCount) == 0.0 <==> workers[b].Usage(GoGcCount) == 0.0
    ensures TimesChosen(workers, stains, n, workers[a].ID()) <= TimesChosen(workers, stains, n, workers[b].ID()) + 1
    ensures TimesChosen(workers, stains, n, workers[b].ID()) <= TimesChosen(workers, stains, n, workers[a].ID()) + 1
  {
    OthersMakeTwo(workers, stains, a, b);
    var cs := Filter(stains, workers);
    var i := CachedCandidate(workers, stains, 0, a);
    var j := CachedCandidate(workers, stains, 0, b);
    ChoicesAreCounted(workers, stains, n, i);
    ChoicesAreCounted(workers, stains, n, j);
    assert Scores(cs)[i] == cs[i].Score() && Scores(cs)[j] == cs[j].Score();
    assert Increments(cs)[i] == cs[i].Increment() && Increments(cs)[j] == cs[j].Increment();
    EqualLoadsShareEqually(Scores(cs), Increments(cs), n, i, j);
    EqualLoadsShareEqually(Scores(cs), Increments(cs), n, j, i);
  }
}
