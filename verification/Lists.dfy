/** Selecting, replacing and minimising over lists, for the scheduler's candidate lists. */
module Lists {

  /** The elements that pass, in their order. */
  function Kept<T>(keep: T -> bool, xs: seq<T>): seq<T> {
    if xs == [] then []
    else
      var before := Kept(keep, xs[..|xs| - 1]);
      if keep(xs[|xs| - 1]) then before + [xs[|xs| - 1]] else before
  }

  ghost predicate DistinctBy<T>(id: T -> string, xs: seq<T>) {
    forall i, j :: 0 <= i < j < |xs| ==> id(xs[i]) != id(xs[j])
  }

  /** Index of the first element with identity `k` from index `from` on; the length if there is none. */
  function FirstFrom<T>(id: T -> string, xs: seq<T>, k: string, from: nat): (i: nat)
    requires from <= |xs|
    ensures from <= i <= |xs|
    decreases |xs| - from
  {
    if from == |xs| || id(xs[from]) == k then from else FirstFrom(id, xs, k, from + 1)
  }

  /** The list with the first element of the same identity replaced. */
  function ReplaceBy<T>(id: T -> string, xs: seq<T>, x: T): (r: seq<T>)
    ensures |r| == |xs|
  {
    var i := FirstFrom(id, xs, id(x), 0);
    if i < |xs| then xs[i := x] else xs
  }

  function Values<T>(f: T -> real, xs: seq<T>): (r: seq<real>)
    ensures |r| == |xs|
    ensures forall i :: 0 <= i < |xs| ==> r[i] == f(xs[i])
  {
    seq(|xs|, i requires 0 <= i < |xs| => f(xs[i]))
  }

  ghost predicate IsLeftmostMin(values: seq<real>, i: nat) {
    && i < |values|
    && (forall j :: 0 <= j < |values| ==> values[i] <= values[j])
    && (forall j :: 0 <= j < i ==> values[i] < values[j])
  }

  function LeftmostMin(values: seq<real>): (i: nat)
    requires values != []
    ensures i < |values|
  {
    if |values| == 1 then 0
    else
      var last := |values| - 1;
      var i := LeftmostMin(values[..last]);
      if values[last] < values[i] then last else i
  }

  lemma {:induction false} LeftmostMinIsLeast(values: seq<real>)
    requires values != []
    ensures IsLeftmostMin(values, LeftmostMin(values))
  {
    if |values| > 1 {
      LeftmostMinIsLeast(values[..|values| - 1]);
    }
  }

  lemma {:induction false} KeptMembers<T>(keep: T -> bool, xs: seq<T>, x: T)
    ensures x in Kept(keep, xs) <==> x in xs && keep(x)
  {
    if xs != [] {
      KeptMembers(keep, xs[..|xs| - 1], x);
      assert xs == xs[..|xs| - 1] + [xs[|xs| - 1]];
    }
  }

  lemma {:induction false} KeptDistinct<T>(keep: T -> bool, id: T -> string, xs: seq<T>)
    requires DistinctBy(id, xs)
    ensures DistinctBy(id, Kept(keep, xs))
  {
    if xs != [] {
      var init, last := xs[..|xs| - 1], xs[|xs| - 1];
      var before := Kept(keep, init);
      KeptDistinct(keep, id, init);
      forall i | 0 <= i < |before| ensures id(before[i]) != id(last) {
        KeptMembers(keep, init, before[i]);
        var j :| 0 <= j < |init| && init[j] == before[i];
        assert xs[j] == before[i];
      }
    }
  }

  lemma {:induction false} KeptConcat<T>(keep: T -> bool, a: seq<T>, b: seq<T>)
    ensures Kept(keep, a + b) == Kept(keep, a) + Kept(keep, b)
  {
    if b == [] {
      assert a + b == a;
    } else {
      assert (a + b)[..|a + b| - 1] == a + b[..|b| - 1];
      KeptConcat(keep, a, b[..|b| - 1]);
    }
  }

  lemma KeptAround<T>(keep: T -> bool, xs: seq<T>, i: nat)
    requires i < |xs| && keep(xs[i])
    ensures Kept(keep, xs) == Kept(keep, xs[..i]) + [xs[i]] + Kept(keep, xs[i + 1..])
  {
    var a, x, b := xs[..i], xs[i], xs[i + 1..];
    assert xs == a + [x] + b;
    KeptConcat(keep, a + [x], b);
    assert (a + [x])[..|a|] == a;
  }

  /** Where the kept elements stand in the whole list. */
  lemma {:induction false} KeptPosition<T>(keep: T -> bool, xs: seq<T>, c: nat) returns (i: nat)
    requires c < |Kept(keep, xs)|
    ensures i < |xs| && keep(xs[i]) && xs[i] == Kept(keep, xs)[c] && |Kept(keep, xs[..i])| == c
  {
    var init := xs[..|xs| - 1];
    if c < |Kept(keep, init)| {
      i := KeptPosition(keep, init, c);
      assert init[..i] == xs[..i];
    } else {
      i := |xs| - 1;
    }
  }

  lemma KeptOrder<T>(keep: T -> bool, xs: seq<T>, j: nat, i: nat)
    requires j < i <= |xs| && keep(xs[j])
    ensures |Kept(keep, xs[..j])| < |Kept(keep, xs[..i])|
    ensures Kept(keep, xs[..i])[|Kept(keep, xs[..j])|] == xs[j]
  {
    assert xs[..i][..j] == xs[..j];
    KeptAround(keep, xs[..i], j);
  }

  lemma SamePlace<T>(id: T -> string, xs: seq<T>, i: nat, j: nat)
    requires DistinctBy(id, xs) && i < |xs| && j < |xs| && id(xs[i]) == id(xs[j])
    ensures i == j
  {
  }

  lemma UpdateMiddle<T>(a: seq<T>, x: T, b: seq<T>, y: T)
    ensures (a + [x] + b)[|a| := y] == a + [y] + b
  {
  }

  /** Replacing a kept element by another kept one replaces it among the kept ones. */
  lemma KeptOfReplaced<T>(keep: T -> bool, id: T -> string, xs: seq<T>, i: nat, c: nat, x: T)
    requires i < |xs| && c < |Kept(keep, xs)| && DistinctBy(id, xs)
    requires xs[i] == Kept(keep, xs)[c] && keep(x)
    ensures Kept(keep, xs[i := x]) == Kept(keep, xs)[c := x]
  {
    var a, b := Kept(keep, xs[..i]), Kept(keep, xs[i + 1..]);
    assert Kept(keep, xs) == a + [xs[i]] + b by {
      KeptMembers(keep, xs, xs[i]);
      KeptAround(keep, xs, i);
    }
    assert Kept(keep, xs[i := x]) == a + [x] + b by {
      KeptAround(keep, xs[i := x], i);
      assert xs[i := x][..i] == xs[..i] && xs[i := x][i + 1..] == xs[i + 1..];
    }
    KeptDistinct(keep, id, xs);
    SamePlace(id, Kept(keep, xs), |a|, c);
    UpdateMiddle(a, xs[i], b, x);
  }

  lemma {:induction false} FirstIs<T>(id: T -> string, xs: seq<T>, k: string, from: nat, i: nat)
    requires from <= i <= |xs| && (forall j :: from <= j < i ==> id(xs[j]) != k)
    requires i < |xs| ==> id(xs[i]) == k
    ensures FirstFrom(id, xs, k, from) == i
    decreases i - from
  {
    if from < i {
      FirstIs(id, xs, k, from + 1, i);
    }
  }

  lemma ReplaceAt<T>(id: T -> string, xs: seq<T>, x: T, i: nat)
    requires i <= |xs| && (forall j :: 0 <= j < i ==> id(xs[j]) != id(x))
    requires i < |xs| ==> id(xs[i]) == id(x)
    ensures ReplaceBy(id, xs, x) == if i < |xs| then xs[i := x] else xs
  {
    FirstIs(id, xs, id(x), 0, i);
  }
}
