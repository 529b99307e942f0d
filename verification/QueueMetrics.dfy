/**
 The queue's metrics: a depth gauge, an adds counter and two time maps that the
 queue updates while it holds its lock.
 */
module QueueMetrics {

  datatype Metrics<T(==)> = Metrics(
    depth: int,
    adds: nat,
    addTimes: map<T, int>,
    processingStartTimes: map<T, int>)

  function NoMetrics<T(==)>(): Metrics<T> {
    Metrics(0, 0, map[], map[])
  }

  function AfterAdd<T(==)>(m: Metrics<T>, item: T, now: int): Metrics<T> {
    m.(adds := m.adds + 1,
       depth := m.depth + 1,
       addTimes := if item in m.addTimes then m.addTimes else m.addTimes[item := now])
  }

  function AfterGet<T(==)>(m: Metrics<T>, item: T, now: int): Metrics<T> {
    m.(depth := m.depth - 1,
       processingStartTimes := m.processingStartTimes[item := now],
       addTimes := m.addTimes - {item})
  }

  function AfterDone<T(==)>(m: Metrics<T>, item: T): Metrics<T> {
    m.(processingStartTimes := m.processingStartTimes - {item})
  }

  class Recorder<T(==)> {
    var depth: int
    var adds: nat
    var addTimes: map<T, int>
    var processingStartTimes: map<T, int>

    ghost function Value(): Metrics<T>
      reads this
    {
      Metrics(depth, adds, addTimes, processingStartTimes)
    }

    constructor ()
      ensures Value() == NoMetrics()
    {
      depth, adds, addTimes, processingStartTimes := 0, 0, map[], map[];
    }

    method Add(item: T, now: int)
      modifies this
      ensures Value() == AfterAdd(old(Value()), item, now)
      ensures item in addTimes && addTimes[item] == if item in old(addTimes) then old(addTimes)[item] else now
    {
      adds := adds + 1;
      depth := depth + 1;
      if item !in addTimes {
        addTimes := addTimes[item := now];
      }
    }

    method Get(item: T, now: int)
      modifies this
      ensures Value() == AfterGet(old(Value()), item, now)
      ensures item !in addTimes && item in processingStartTimes && processingStartTimes[item] == now
    {
      depth := depth - 1;
      processingStartTimes := processingStartTimes[item := now];
      addTimes := addTimes - {item};
    }

    method Done(item: T)
      modifies this
      ensures Value() == AfterDone(old(Value()), item)
    {
      processingStartTimes := processingStartTimes - {item};
    }
  }
}
