/**
 The keyed work queue: what each operation does to the queue's state while it
 holds the lock, and the class that does it in place. Identity goes through
 `key`, the set's key projection. Unlike the queue it is derived from, an item
 that is being processed is not queued again: its `Add` is intercepted.
 */
module WorkQueue {
  import M = QueueMetrics
  import opened SliceQueue

  datatype State<T(==)> = State(
    queue: seq<T>,
    dirty: set<T>,
    processing: set<T>,
    shuttingDown: bool,
    drain: bool)

  function Empty<T(==)>(): State<T> {
    State([], {}, {}, false, false)
  }

  /** The answer of `Exist`. */
  predicate Exists<T(==)>(key: T -> T, s: State<T>, item: T) {
    key(item) in s.dirty || key(item) in s.processing
  }

  predicate Accepts<T(==)>(key: T -> T, s: State<T>, item: T) {
    !s.shuttingDown && !Exists(key, s, item)
  }

  function AfterAdd<T(==)>(key: T -> T, s: State<T>, item: T): State<T> {
    if Accepts(key, s, item)
    then s.(queue := s.queue + [item], dirty := s.dirty + {key(item)})
    else s
  }

  /** Which condition-variable operation a call performs before it releases the lock. */
  datatype Wake = WakeNobody | WakeOne | WakeAll

  function WakeOfAdd<T(==)>(key: T -> T, s: State<T>, item: T): Wake {
    if Accepts(key, s, item) then WakeOne else WakeNobody
  }

  function WakeOfDone<T(==)>(key: T -> T, s: State<T>, item: T): Wake {
    if AfterDone(key, s, item).processing == {} then WakeOne else WakeNobody
  }

  function AfterGet<T(==)>(key: T -> T, s: State<T>): State<T>
    requires s.queue != []
  {
    var item := s.queue[0];
    s.(queue := s.queue[1..], processing := s.processing + {key(item)}, dirty := s.dirty - {key(item)})
  }

  function AfterDone<T(==)>(key: T -> T, s: State<T>, item: T): State<T> {
    s.(processing := s.processing - {key(item)})
  }

  function AfterShutDown<T(==)>(s: State<T>): State<T> {
    s.(drain := false, shuttingDown := true)
  }

  function AfterDrainCall<T(==)>(s: State<T>): State<T> {
    s.(drain := true, shuttingDown := true)
  }

  datatype GetOutcome<+T> = MustWait | Terminated | Item(item: T)

  /** What one pass of `Get` finds when it holds the lock. */
  function Outcome<T(==)>(s: State<T>): GetOutcome<T> {
    if s.queue != [] then Item(s.queue[0])
    else if s.shuttingDown then Terminated
    else MustWait
  }

  /** The loop condition of `ShutDownWithDrain`. */
  predicate DrainMustWait<T(==)>(s: State<T>) {
    s.processing != {} && s.drain
  }

  ghost function Keys<T>(key: T -> T, items: seq<T>): set<T> {
    set i | 0 <= i < |items| :: key(items[i])
  }

  ghost predicate DistinctKeys<T>(key: T -> T, items: seq<T>) {
    forall i, j :: 0 <= i < j < |items| ==> key(items[i]) != key(items[j])
  }

  /** What every operation keeps. */
  ghost predicate Consistent<T>(key: T -> T, s: State<T>) {
    && s.dirty == Keys(key, s.queue)
    && DistinctKeys(key, s.queue)
    && s.dirty !! s.processing
  }

  lemma AddKeepsConsistent<T>(key: T -> T, s: State<T>, item: T)
    requires Consistent(key, s)
    ensures Consistent(key, AfterAdd(key, s, item))
    ensures Exists(key, AfterAdd(key, s, item), item) || s.shuttingDown
  {
    if Accepts(key, s, item) {
      var q := s.queue + [item];
      forall k | k in s.dirty ensures k in Keys(key, q) {
        var i :| 0 <= i < |s.queue| && key(s.queue[i]) == k;
        assert key(q[i]) == k;
      }
      assert key(q[|s.queue|]) == key(item);
      assert Keys(key, q) == s.dirty + {key(item)};
      assert forall i :: 0 <= i < |s.queue| ==> key(s.queue[i]) in s.dirty;
    }
  }

  lemma GetKeepsConsistent<T>(key: T -> T, s: State<T>)
    requires Consistent(key, s) && s.queue != []
    ensures Consistent(key, AfterGet(key, s))
    ensures key(s.queue[0]) in s.dirty && key(s.queue[0]) !in s.processing
  {
    var q := s.queue[1..];
    assert key(s.queue[0]) in Keys(key, s.queue);
    forall k ensures k in Keys(key, q) <==> k in s.dirty - {key(s.queue[0])} {
      if k in s.dirty && k != key(s.queue[0]) {
        var i :| 0 <= i < |s.queue| && key(s.queue[i]) == k;
        assert key(q[i - 1]) == k;
      }
      if k in Keys(key, q) {
        var i :| 0 <= i < |q| && key(q[i]) == k;
        assert k == key(s.queue[i + 1]);
      }
    }
  }

  /** `Len` counts the items waiting: as many as there are dirty keys. */
  lemma {:induction false} LenIsDirtyCount<T>(key: T -> T, items: seq<T>)
    requires DistinctKeys(key, items)
    ensures |Keys(key, items)| == |items|
  {
    if items == [] {
      assert Keys(key, items) == {};
    } else {
      var last := |items| - 1;
      LenIsDirtyCount(key, items[..last]);
      assert Keys(key, items) == Keys(key, items[..last]) + {key(items[last])};
    }
  }

  /** The queue object. Each method is one critical section; a call that has to wait reports it and changes nothing. */
  class Typed<T(==)> {
    const key: T -> T
    const queue: SliceQueue<T>
    const metrics: M.Recorder<T>
    var dirty: set<T>
    var processing: set<T>
    var shuttingDown: bool
    var drain: bool

    ghost function Value(): State<T>
      requires queue.Valid()
      reads this, queue, queue.data
    {
      State(queue.Contents(), dirty, processing, shuttingDown, drain)
    }

    ghost predicate Valid()
      reads this, queue, queue.data
    {
      queue.Valid() && Consistent(key, Value())
    }

    constructor (key: T -> T, zero: T)
      ensures Valid() && fresh(queue) && fresh(queue.data) && fresh(metrics)
      ensures this.key == key && Value() == Empty() && metrics.Value() == M.NoMetrics()
    {
      this.key := key;
      queue := new SliceQueue(zero);
      metrics := new M.Recorder();
      dirty, processing, shuttingDown, drain := {}, {}, false, false;
    }

    method Add(item: T, now: int, slack: nat) returns (exist: bool, wake: Wake)
      requires Valid()
      modifies this, queue, queue.data, metrics
      ensures Valid() && (queue.data == old(queue.data) || fresh(queue.data))
      ensures Value() == AfterAdd(key, old(Value()), item)
      ensures exist == (!old(shuttingDown) && Exists(key, old(Value()), item))
      ensures wake == WakeOfAdd(key, old(Value()), item)
      ensures metrics.Value() ==
              if Accepts(key, old(Value()), item) then M.AfterAdd(old(metrics.Value()), item, now)
              else old(metrics.Value())
    {
      AddKeepsConsistent(key, Value(), item);
      if shuttingDown {
        return false, WakeNobody;
      }
      if key(item) in dirty {
        return true, WakeNobody;
      }
      if key(item) in processing {
        return true, WakeNobody;
      }
      metrics.Add(item, now);
      dirty := dirty + {key(item)};
      queue.Push(item, slack);
      return false, WakeOne;
    }

    method Exist(item: T) returns (exist: bool)
      requires Valid()
      ensures exist == Exists(key, Value(), item)
    {
      exist := key(item) in dirty || key(item) in processing;
    }

    method Len() returns (n: nat)
      requires Valid()
      ensures n == |queue.Contents()| == |dirty|
    {
      LenIsDirtyCount(key, queue.Contents());
      n := queue.Len();
    }

    method Get(now: int) returns (outcome: GetOutcome<T>)
      requires Valid()
      modifies this, queue, queue.data, metrics
      ensures Valid() && (queue.data == old(queue.data) || fresh(queue.data))
      ensures outcome == Outcome(old(Value()))
      ensures Value() == if outcome.Item? then AfterGet(key, old(Value())) else old(Value())
      ensures metrics.Value() ==
              if outcome.Item? then M.AfterGet(old(metrics.Value()), outcome.item, now)
              else old(metrics.Value())
    {
      var n := queue.Len();
      if n == 0 && !shuttingDown {
        return MustWait;
      }
      if n == 0 {
        return Terminated;
      }
      ghost var before := Value();
      GetKeepsConsistent(key, before);
      var item := queue.Pop();
      assert item == before.queue[0] && queue.Contents() == before.queue[1..];
      metrics.Get(item, now);
      processing := processing + {key(item)};
      dirty := dirty - {key(item)};
      assert Value() == AfterGet(key, before);
      return Item(item);
    }

    method Done(item: T) returns (wake: Wake)
      requires Valid()
      modifies this, metrics
      ensures Valid()
      ensures Value() == AfterDone(key, old(Value()), item)
      ensures wake == WakeOfDone(key, old(Value()), item)
      ensures metrics.Value() == M.AfterDone(old(metrics.Value()), item)
    {
      metrics.Done(item);
      processing := processing - {key(item)};
      wake := if processing == {} then WakeOne else WakeNobody;
    }

    method ShutDown() returns (wake: Wake)
      requires Valid()
      modifies this
      ensures Valid() && Value() == AfterShutDown(old(Value())) && wake == WakeAll
    {
      drain := false;
      shuttingDown := true;
      wake := WakeAll;
    }

    /** Up to the first test of the wait loop. */
    method ShutDownWithDrain() returns (wake: Wake, mustWait: bool)
      requires Valid()
      modifies this
      ensures Valid() && Value() == AfterDrainCall(old(Value())) && wake == WakeAll
      ensures mustWait == DrainMustWait(Value())
    {
      drain := true;
      shuttingDown := true;
      wake := WakeAll;
      mustWait := processing != {} && drain;
    }
  }
}
