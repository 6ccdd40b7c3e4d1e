/** Agglomerative clustering of classes by their coupling weights
    (`HierarchicalClustering`): singleton clusters, an average coupling
    between clusters, the scan for the most coupled pair, and the two merge
    phases. Weights are exact reals; the iteration order of hash sets is
    either a given sequence or an arbitrary pick. */
module Clustering {
  import opened Collections

  /** `couplingMetrics`: `m[a][b]` is the weight between classes `a` and `b`. */
  type Metrics = map<string, map<string, real>>

  /** `couplingMetrics.getOrDefault(x, new HashMap<>()).get(y)`: the weight
      between `x` and `y`, or null when the map has none. */
  function Lookup(m: Metrics, x: string, y: string): Option<real>
  {
    if x in m && y in m[x] then Some(m[x][y]) else None
  }

  /** Every weight of the map is at least `lo` and at most `hi`. */
  ghost predicate WeightsWithin(m: Metrics, lo: real, hi: real)
  {
    forall x, y :: x in m && y in m[x] ==> lo <= m[x][y] <= hi
  }

  // ---------------------------------------------------------------------------
  // Running sums

  /** The pair `(totalCoupling, count)` that both averaging loops accumulate. */
  datatype Tally = Tally(total: real, count: nat)
  {
    /** One loop step: a present weight is added and counted, an absent one
        (`coupling == null`) is skipped. */
    function Add(w: Option<real>): Tally
    {
      if w.Some? then Tally(total + w.value, count + 1) else this
    }

    /** Two tallies taken together. */
    function Plus(other: Tally): Tally
    {
      Tally(total + other.total, count + other.count)
    }

    /** `count > 0 ? totalCoupling / count : 0`. */
    function Average(): (r: real)
      ensures count == 0 ==> r == 0.0
      ensures count > 0 ==> r * count as real == total
    {
      if count > 0 then total / count as real else 0.0
    }

    /** Every counted weight was within [lo, hi]. */
    predicate Within(lo: real, hi: real)
    {
      lo * count as real <= total <= hi * count as real
    }
  }

  /** Adding a weight within [lo, hi] keeps a tally within [lo, hi]. */
  lemma AddWithin(t: Tally, w: Option<real>, lo: real, hi: real)
    requires t.Within(lo, hi)
    requires w.Some? ==> lo <= w.value <= hi
    ensures t.Add(w).Within(lo, hi)
  {
    if w.Some? {
      assert lo * (t.count + 1) as real == lo * t.count as real + lo;
      assert hi * (t.count + 1) as real == hi * t.count as real + hi;
    }
  }

  /** Two tallies within [lo, hi] taken together are within [lo, hi]. */
  lemma PlusWithin(t: Tally, u: Tally, lo: real, hi: real)
    requires t.Within(lo, hi) && u.Within(lo, hi)
    ensures t.Plus(u).Within(lo, hi)
  {
    assert lo * (t.count + u.count) as real == lo * t.count as real + lo * u.count as real;
    assert hi * (t.count + u.count) as real == hi * t.count as real + hi * u.count as real;
  }

  /** The average of weights within [lo, hi] is within [lo, hi], and it is 0
      when nothing was counted. */
  lemma AverageWithin(t: Tally, lo: real, hi: real)
    requires t.Within(lo, hi)
    ensures t.count == 0 ==> t.Average() == 0.0
    ensures t.count > 0 ==> lo <= t.Average() <= hi
  {
    if t.count > 0 {
      var c := t.count as real;
      var a := t.Average();
      assert a * c == t.total;
      assert (a - lo) * c >= 0.0;
      assert (hi - a) * c >= 0.0;
    }
  }

  // ---------------------------------------------------------------------------
  // Average coupling between two clusters

  /** The member pairs `(x, y)` with `x` in `a` and `y` in `b`. */
  function Pairs(a: set<string>, b: set<string>): set<(string, string)>
  {
    set x, y | x in a && y in b :: (x, y)
  }

  /** The pairs of `s` the metric map holds a weight for. */
  function Present(m: Metrics, s: set<(string, string)>): set<(string, string)>
  {
    set p | p in s && Lookup(m, p.0, p.1).Some?
  }

  ghost function PickPair(s: set<(string, string)>): (string, string)
    requires s != {}
  {
    var p :| p in s; p
  }

  /** The tally over the pairs of `s`, in no particular order. */
  ghost function TallyOver(m: Metrics, s: set<(string, string)>): Tally
    decreases s
  {
    if s == {} then Tally(0.0, 0)
    else
      var p := PickPair(s);
      TallyOver(m, s - {p}).Add(Lookup(m, p.0, p.1))
  }

  /** Any pair can be the one tallied last: the tally does not depend on the
      order in which the hash sets hand out their members. */
  lemma {:induction false} TallyOverRemove(m: Metrics, s: set<(string, string)>, p: (string, string))
    requires p in s
    ensures TallyOver(m, s) == TallyOver(m, s - {p}).Add(Lookup(m, p.0, p.1))
    decreases s
  {
    var q := PickPair(s);
    if p != q {
      TallyOverRemove(m, s - {q}, p);
      TallyOverRemove(m, s - {p}, q);
      assert s - {q} - {p} == s - {p} - {q};
    }
  }

  /** Tallying one more pair. */
  lemma TallyOverInsert(m: Metrics, s: set<(string, string)>, p: (string, string))
    requires p !in s
    ensures TallyOver(m, s + {p}) == TallyOver(m, s).Add(Lookup(m, p.0, p.1))
  {
    TallyOverRemove(m, s + {p}, p);
    assert s + {p} - {p} == s;
  }

  /** Absent pairs contribute nothing, and the count is the number of
      present pairs. */
  lemma {:induction false} TallyOverPresent(m: Metrics, s: set<(string, string)>)
    ensures TallyOver(m, s) == TallyOver(m, Present(m, s))
    ensures TallyOver(m, s).count == |Present(m, s)|
    decreases s
  {
    if s != {} {
      var p := PickPair(s);
      TallyOverPresent(m, s - {p});
      if Lookup(m, p.0, p.1).Some? {
        assert Present(m, s) == Present(m, s - {p}) + {p};
        TallyOverInsert(m, Present(m, s - {p}), p);
      } else {
        assert Present(m, s) == Present(m, s - {p});
      }
    } else {
      assert Present(m, s) == {};
    }
  }

  /** With every weight within [lo, hi], so is the tally. */
  lemma {:induction false} TallyOverWithin(m: Metrics, s: set<(string, string)>, lo: real, hi: real)
    requires WeightsWithin(m, lo, hi)
    ensures TallyOver(m, s).Within(lo, hi)
    decreases s
  {
    if s != {} {
      var p := PickPair(s);
      TallyOverWithin(m, s - {p}, lo, hi);
      AddWithin(TallyOver(m, s - {p}), Lookup(m, p.0, p.1), lo, hi);
    }
  }

  /** The average coupling between member sets `a` and `b`: the mean of the
      present weights `m[x][y]`, `x` in `a`, `y` in `b`, or 0 when none is
      present. */
  ghost function InterAverage(m: Metrics, a: set<string>, b: set<string>): real
  {
    TallyOver(m, Pairs(a, b)).Average()
  }

  /** The average between two clusters is 0 when no pair of members has a
      weight, and lies within the bounds of the weights otherwise. */
  lemma InterAverageBounds(m: Metrics, a: set<string>, b: set<string>, lo: real, hi: real)
    requires WeightsWithin(m, lo, hi)
    ensures Present(m, Pairs(a, b)) == {} ==> InterAverage(m, a, b) == 0.0
    ensures Present(m, Pairs(a, b)) != {} ==> lo <= InterAverage(m, a, b) <= hi
  {
    TallyOverPresent(m, Pairs(a, b));
    TallyOverWithin(m, Pairs(a, b), lo, hi);
    AverageWithin(TallyOver(m, Pairs(a, b)), lo, hi);
  }

  /** With non-negative weights no average is negative. */
  lemma InterAverageNonNegative(m: Metrics, a: set<string>, b: set<string>)
    requires WeightsWithin(m, 0.0, 1.0)
    ensures 0.0 <= InterAverage(m, a, b) <= 1.0
  {
    InterAverageBounds(m, a, b, 0.0, 1.0);
  }

  /** One (classA, classB) cell of the nested loop has been tallied. */
  lemma PairsStep(done: set<string>, b: set<string>, x: string, doneB: set<string>, y: string)
    requires x !in done && y !in doneB
    ensures (x, y) !in Pairs(done, b) + Pairs({x}, doneB)
    ensures Pairs(done, b) + Pairs({x}, doneB + {y}) == Pairs(done, b) + Pairs({x}, doneB) + {(x, y)}
  {
  }

  /** A row of the nested loop is complete. */
  lemma PairsRow(done: set<string>, b: set<string>, x: string)
    ensures Pairs(done, b) + Pairs({x}, b) == Pairs(done + {x}, b)
  {
  }

  // ---------------------------------------------------------------------------
  // Clusters

  /** A cluster: the set of classes it holds, updated in place by `Merge`. */
  class Cluster {
    var classes: set<string>

    /** `new Cluster(className)`: a singleton. */
    constructor (className: string)
      ensures classes == {className}
    {
      classes := {className};
    }

    /** `merge(other)`: this cluster takes over the members of `other`. */
    method Merge(other: Cluster)
      modifies this
      ensures classes == old(classes) + old(other.classes)
    {
      classes := classes + other.classes;
    }

    /** The average coupling inside the cluster: `order` is the list made
        from the member set, and the result is the mean of the present
        weights `m[order[i]][order[j]]`, `i < j`, or 0 when none is present. */
    method AverageCoupling(m: Metrics, order: seq<string>) returns (avg: real)
      requires IsEnumeration(order, classes)
      ensures avg == RowsTally(m, order, |order|).Average()
    {
      var totalCoupling := 0.0;
      var count := 0;
      var i := 0;
      while i < |order|
        invariant 0 <= i <= |order|
        invariant Tally(totalCoupling, count) == RowsTally(m, order, i)
      {
        var j := i + 1;
        while j < |order|
          invariant i + 1 <= j <= |order|
          invariant Tally(totalCoupling, count) == RowsTally(m, order, i).Plus(RowTally(m, order, i, j))
        {
          var coupling := Lookup(m, order[i], order[j]);
          if coupling.Some? {
            totalCoupling := totalCoupling + coupling.value;
            count := count + 1;
          }
          j := j + 1;
        }
        i := i + 1;
      }
      avg := if count > 0 then totalCoupling / count as real else 0.0;
    }
  }

  /** The tally of row `i` up to column `j`: the pairs `order[i]`,
      `order[c]` with `i < c < j`, in list order. */
  function RowTally(m: Metrics, order: seq<string>, i: nat, j: nat): (r: Tally)
    requires i < j <= |order|
    ensures r.count <= j - i - 1
    decreases j
  {
    if j == i + 1 then Tally(0.0, 0)
    else RowTally(m, order, i, j - 1).Add(Lookup(m, order[i], order[j - 1]))
  }

  /** The tally of the first `i` rows: every pair `order[r]`, `order[c]` with
      `r < i` and `r < c`. */
  function RowsTally(m: Metrics, order: seq<string>, i: nat): Tally
    requires i <= |order|
  {
    if i == 0 then Tally(0.0, 0)
    else RowsTally(m, order, i - 1).Plus(RowTally(m, order, i - 1, |order|))
  }

  /** A row counts nothing exactly when none of its pairs has a weight. */
  lemma {:induction false} RowTallyCount(m: Metrics, order: seq<string>, i: nat, j: nat)
    requires i < j <= |order|
    ensures RowTally(m, order, i, j).count == 0 <==> forall c :: i < c < j ==> Lookup(m, order[i], order[c]).None?
    decreases j
  {
    if j > i + 1 {
      RowTallyCount(m, order, i, j - 1);
    }
  }

  /** A row of weights within [lo, hi] is within [lo, hi]. */
  lemma {:induction false} RowTallyWithin(m: Metrics, order: seq<string>, i: nat, j: nat, lo: real, hi: real)
    requires i < j <= |order| && WeightsWithin(m, lo, hi)
    ensures RowTally(m, order, i, j).Within(lo, hi)
    decreases j
  {
    if j > i + 1 {
      RowTallyWithin(m, order, i, j - 1, lo, hi);
      AddWithin(RowTally(m, order, i, j - 1), Lookup(m, order[i], order[j - 1]), lo, hi);
    }
  }

  /** The first `i` rows count nothing exactly when no pair `r < c` with
      `r < i` has a weight. */
  lemma {:induction false} RowsTallyCount(m: Metrics, order: seq<string>, i: nat)
    requires i <= |order|
    ensures RowsTally(m, order, i).count == 0 <==>
      forall r, c :: 0 <= r < i && r < c < |order| ==> Lookup(m, order[r], order[c]).None?
  {
    if i > 0 {
      RowsTallyCount(m, order, i - 1);
      RowTallyCount(m, order, i - 1, |order|);
    }
  }

  /** Rows of weights within [lo, hi] are within [lo, hi]. */
  lemma {:induction false} RowsTallyWithin(m: Metrics, order: seq<string>, i: nat, lo: real, hi: real)
    requires i <= |order| && WeightsWithin(m, lo, hi)
    ensures RowsTally(m, order, i).Within(lo, hi)
  {
    if i > 0 {
      RowsTallyWithin(m, order, i - 1, lo, hi);
      RowTallyWithin(m, order, i - 1, |order|, lo, hi);
      PlusWithin(RowsTally(m, order, i - 1), RowTally(m, order, i - 1, |order|), lo, hi);
    }
  }

  /** The intra-cluster average: 0 when no pair of the list has a weight,
      within the bounds of the weights otherwise. */
  lemma IntraAverageBounds(m: Metrics, order: seq<string>, lo: real, hi: real)
    requires WeightsWithin(m, lo, hi)
    ensures (forall r, c :: 0 <= r < c < |order| ==> Lookup(m, order[r], order[c]).None?) ==>
      RowsTally(m, order, |order|).Average() == 0.0
    ensures (exists r, c :: 0 <= r < c < |order| && Lookup(m, order[r], order[c]).Some?) ==>
      lo <= RowsTally(m, order, |order|).Average() <= hi
  {
    RowsTallyCount(m, order, |order|);
    RowsTallyWithin(m, order, |order|, lo, hi);
    AverageWithin(RowsTally(m, order, |order|), lo, hi);
  }

  /** Adding a weight after taking two tallies together is taking the first
      together with the second after the weight. */
  lemma PlusAdd(t: Tally, u: Tally, w: Option<real>)
    ensures t.Plus(u).Add(w) == t.Plus(u.Add(w))
  {
  }

  /** Tallying two disjoint sets of pairs together is adding their tallies. */
  lemma {:induction false} TallyOverUnion(m: Metrics, a: set<(string, string)>, b: set<(string, string)>)
    requires a !! b
    ensures TallyOver(m, a + b) == TallyOver(m, a).Plus(TallyOver(m, b))
    decreases b
  {
    if b == {} {
      assert a + b == a;
    } else {
      var p := PickPair(b);
      var rest := b - {p};
      var w := Lookup(m, p.0, p.1);
      assert TallyOver(m, a + b) == TallyOver(m, a + rest).Add(w) by {
        assert a + b - {p} == a + rest;
        TallyOverRemove(m, a + b, p);
      }
      TallyOverUnion(m, a, rest);
      PlusAdd(TallyOver(m, a), TallyOver(m, rest), w);
    }
  }

  /** The pairs of row `i` up to column `j`. */
  function RowPairs(order: seq<string>, i: nat, j: nat): set<(string, string)>
    requires i < j <= |order|
  {
    set c | i < c < j :: (order[i], order[c])
  }

  /** The pairs of the first `i` rows. */
  function RowsPairs(order: seq<string>, i: nat): set<(string, string)>
    requires i <= |order|
  {
    set r, c | 0 <= r < i && r < c < |order| :: (order[r], order[c])
  }

  /** The pairs of the first `i` rows are those of the first `i - 1` rows and,
      apart from them, those of row `i - 1`. */
  lemma RowsPairsSnoc(order: seq<string>, i: nat)
    requires NoDuplicates(order) && 0 < i <= |order|
    ensures RowsPairs(order, i - 1) !! RowPairs(order, i - 1, |order|)
    ensures RowsPairs(order, i) == RowsPairs(order, i - 1) + RowPairs(order, i - 1, |order|)
  {
    forall q | q in RowsPairs(order, i - 1) ensures q.0 != order[i - 1] {
      var r, c :| 0 <= r < i - 1 && r < c < |order| && q == (order[r], order[c]);
    }
  }

  /** Over a list without duplicates, a row tallies each of its pairs once. */
  lemma {:induction false} RowTallyOver(m: Metrics, order: seq<string>, i: nat, j: nat)
    requires NoDuplicates(order) && i < j <= |order|
    ensures RowTally(m, order, i, j) == TallyOver(m, RowPairs(order, i, j))
    decreases j
  {
    if j == i + 1 {
      assert RowPairs(order, i, j) == {};
    } else {
      var p, before := (order[i], order[j - 1]), RowPairs(order, i, j - 1);
      assert p !in before && RowPairs(order, i, j) == before + {p} by {
        forall q | q in before ensures q.1 != order[j - 1] {
          var c :| i < c < j - 1 && q == (order[i], order[c]);
        }
      }
      RowTallyOver(m, order, i, j - 1);
      TallyOverInsert(m, before, p);
    }
  }

  /** Over a list without duplicates, the first `i` rows tally each of their
      pairs once. */
  lemma {:induction false} RowsTallyOver(m: Metrics, order: seq<string>, i: nat)
    requires NoDuplicates(order) && i <= |order|
    ensures RowsTally(m, order, i) == TallyOver(m, RowsPairs(order, i))
  {
    if i == 0 {
      assert RowsPairs(order, 0) == {};
    } else {
      RowsTallyOver(m, order, i - 1);
      RowsTallyOverStep(m, order, i);
    }
  }

  /** The inductive step of `RowsTallyOver`: one more row. */
  lemma RowsTallyOverStep(m: Metrics, order: seq<string>, i: nat)
    requires NoDuplicates(order) && 0 < i <= |order|
    requires RowsTally(m, order, i - 1) == TallyOver(m, RowsPairs(order, i - 1))
    ensures RowsTally(m, order, i) == TallyOver(m, RowsPairs(order, i))
  {
    RowsPairsSnoc(order, i);
    RowTallyOver(m, order, i - 1, |order|);
    TallyOverUnion(m, RowsPairs(order, i - 1), RowPairs(order, i - 1, |order|));
  }

  /** The intra-cluster sums run over every unordered pair of distinct
      members exactly once: for a list without duplicates the tally is the
      tally of the pairs `(order[r], order[c])`, `r < c`. */
  lemma IntraTallyIsPairTally(m: Metrics, order: seq<string>)
    requires NoDuplicates(order)
    ensures RowsTally(m, order, |order|) == TallyOver(m, set r, c | 0 <= r < c < |order| :: (order[r], order[c]))
  {
    RowsTallyOver(m, order, |order|);
    assert RowsPairs(order, |order|) == set r, c | 0 <= r < c < |order| :: (order[r], order[c]);
  }

  /** `calculateAverageCoupling(a, b, couplingMetrics)`: both member sets are
      walked in hash order, each present weight is added and counted. */
  method AverageCouplingBetween(a: Cluster, b: Cluster, m: Metrics) returns (avg: real)
    ensures avg == InterAverage(m, a.classes, b.classes)
  {
    var totalCoupling := 0.0;
    var count := 0;
    var restA := a.classes;
    ghost var doneA: set<string> := {};
    while restA != {}
      invariant restA + doneA == a.classes && restA !! doneA
      invariant Tally(totalCoupling, count) == TallyOver(m, Pairs(doneA, b.classes))
      decreases restA
    {
      var classA :| classA in restA;
      var restB := b.classes;
      ghost var doneB: set<string> := {};
      assert Pairs(doneA, b.classes) + Pairs({classA}, doneB) == Pairs(doneA, b.classes);
      while restB != {}
        invariant restB + doneB == b.classes && restB !! doneB
        invariant Tally(totalCoupling, count) == TallyOver(m, Pairs(doneA, b.classes) + Pairs({classA}, doneB))
        decreases restB
      {
        var classB :| classB in restB;
        PairsStep(doneA, b.classes, classA, doneB, classB);
        TallyOverInsert(m, Pairs(doneA, b.classes) + Pairs({classA}, doneB), (classA, classB));
        var coupling := Lookup(m, classA, classB);
        if coupling.Some? {
          totalCoupling := totalCoupling + coupling.value;
          count := count + 1;
        }
        restB := restB - {classB};
        doneB := doneB + {classB};
      }
      assert doneB == b.classes;
      PairsRow(doneA, b.classes, classA);
      restA := restA - {classA};
      doneA := doneA + {classA};
    }
    assert doneA == a.classes;
    avg := if count > 0 then totalCoupling / count as real else 0.0;
  }

  // ---------------------------------------------------------------------------
  // The list of clusters

  /** The member sets of the listed clusters, in list order. */
  ghost function Members(clusters: seq<Cluster>): (r: seq<set<string>>)
    reads clusters
    ensures |r| == |clusters|
    ensures forall k :: 0 <= k < |clusters| ==> r[k] == clusters[k].classes
  {
    seq(|clusters|, k reads clusters requires 0 <= k < |clusters| => clusters[k].classes)
  }

  /** One singleton member set per key, in key-iteration order. */
  function Singletons(keyOrder: seq<string>): (r: seq<set<string>>)
    ensures |r| == |keyOrder|
    ensures forall k :: 0 <= k < |keyOrder| ==> r[k] == {keyOrder[k]}
  {
    seq(|keyOrder|, k requires 0 <= k < |keyOrder| => {keyOrder[k]})
  }

  /** Every class of some cluster. */
  function Union(ps: seq<set<string>>): set<string>
  {
    set k, x | 0 <= k < |ps| && x in ps[k] :: x
  }

  /** The clusters are non-empty, pairwise disjoint, and together hold
      exactly `keys`. */
  ghost predicate IsPartition(ps: seq<set<string>>, keys: set<string>)
  {
    && (forall k :: 0 <= k < |ps| ==> ps[k] != {})
    && (forall p, q :: 0 <= p < q < |ps| ==> ps[p] !! ps[q])
    && Union(ps) == keys
  }

  /** `clusterA.merge(clusterB); clusters.remove(clusterB)` for the clusters
      at `i < j`: cluster `i` becomes the union, cluster `j` disappears, every
      other cluster keeps its members and its relative order. */
  function MergeAt(ps: seq<set<string>>, i: nat, j: nat): (r: seq<set<string>>)
    requires i < j < |ps|
    ensures |r| == |ps| - 1
    ensures r[i] == ps[i] + ps[j]
    ensures forall k :: 0 <= k < j && k != i ==> r[k] == ps[k]
    ensures forall k :: j <= k < |r| ==> r[k] == ps[k + 1]
  {
    ps[..j][i := ps[i] + ps[j]] + ps[j + 1..]
  }

  /** One singleton per key of the metric map is a partition of the keys. */
  lemma SingletonsPartition(keyOrder: seq<string>, keys: set<string>)
    requires IsEnumeration(keyOrder, keys)
    ensures IsPartition(Singletons(keyOrder), keys)
  {
    var ps := Singletons(keyOrder);
    forall x | x in keys ensures x in Union(ps) {
      var k :| 0 <= k < |keyOrder| && keyOrder[k] == x;
      assert x in ps[k];
    }
  }

  /** A merge keeps the partition. */
  lemma MergePartition(ps: seq<set<string>>, keys: set<string>, i: nat, j: nat)
    requires IsPartition(ps, keys) && i < j < |ps|
    ensures IsPartition(MergeAt(ps, i, j), keys)
  {
    var r := MergeAt(ps, i, j);
    forall x | x in Union(ps) ensures x in Union(r) {
      var k :| 0 <= k < |ps| && x in ps[k];
      if k == i || k == j {
        assert x in r[i];
      } else if k < j {
        assert x in r[k];
      } else {
        assert x in r[k - 1];
      }
    }
    forall x | x in Union(r) ensures x in Union(ps) {
      var k :| 0 <= k < |r| && x in r[k];
      if k == i {
        assert x in ps[i] || x in ps[j];
      } else if k < j {
        assert x in ps[k];
      } else {
        assert x in ps[k + 1];
      }
    }
    forall p, q | 0 <= p < q < |r| ensures r[p] !! r[q] {
      var p' := if p < j then p else p + 1;
      var q' := if q < j then q else q + 1;
      if p == i {
        assert ps[i] !! ps[q'] && ps[j] !! ps[q'];
      } else if q == i {
        assert ps[p'] !! ps[i] && ps[p'] !! ps[j];
      } else {
        assert ps[p'] !! ps[q'];
      }
    }
  }

  /** A partition has at most as many clusters as keys, and one of the empty
      key set has none. */
  lemma {:induction false} PartitionSize(ps: seq<set<string>>, keys: set<string>)
    requires IsPartition(ps, keys)
    ensures keys == {} <==> |ps| == 0
    ensures |ps| <= |keys|
    decreases |ps|
  {
    if |ps| > 0 {
      var x :| x in ps[0];
      assert x in Union(ps);
      var init := ps[..|ps| - 1];
      PartitionInit(ps, keys);
      PartitionSize(init, Union(init));
    }
  }

  /** Without its last cluster a partition is a partition of the other keys,
      and the last cluster adds at least one key. */
  lemma PartitionInit(ps: seq<set<string>>, keys: set<string>)
    requires IsPartition(ps, keys) && |ps| > 0
    ensures IsPartition(ps[..|ps| - 1], Union(ps[..|ps| - 1]))
    ensures |Union(ps[..|ps| - 1])| < |keys|
  {
    var before, last := Union(ps[..|ps| - 1]), ps[|ps| - 1];
    PartitionLast(ps, keys);
    PrefixPartition(ps, keys, |ps| - 1);
    assert |last| > 0;
    assert |before + last| + |before * last| == |before| + |last|;
  }

  /** The first `n` clusters of a partition partition their own keys. */
  lemma PrefixPartition(ps: seq<set<string>>, keys: set<string>, n: nat)
    requires IsPartition(ps, keys) && n <= |ps|
    ensures IsPartition(ps[..n], Union(ps[..n]))
  {
    var init := ps[..n];
    assert forall k :: 0 <= k < n ==> init[k] == ps[k];
  }

  /** The keys of a partition are those of all clusters but the last, and,
      apart from them, those of the last. */
  lemma PartitionLast(ps: seq<set<string>>, keys: set<string>)
    requires IsPartition(ps, keys) && |ps| > 0
    ensures keys == Union(ps[..|ps| - 1]) + ps[|ps| - 1]
    ensures Union(ps[..|ps| - 1]) * ps[|ps| - 1] == {}
  {
    var n := |ps| - 1;
    forall y | y in Union(ps[..n]) ensures y in Union(ps) && y !in ps[n] {
      var k :| 0 <= k < n && y in ps[..n][k];
      assert ps[k] !! ps[n];
    }
  }

  // ---------------------------------------------------------------------------
  // Choosing the pair to merge

  /** The averages of member set `a` against each of `qs`. */
  ghost function AverageRow(m: Metrics, a: set<string>, qs: seq<set<string>>): (r: seq<real>)
    ensures |r| == |qs|
  {
    if qs == [] then [] else AverageRow(m, a, qs[..|qs| - 1]) + [InterAverage(m, a, qs[|qs| - 1])]
  }

  /** The table of averages of each of `rows` against each of `ps`. */
  ghost function AverageTable(m: Metrics, rows: seq<set<string>>, ps: seq<set<string>>): (t: seq<seq<real>>)
    ensures |t| == |rows|
    ensures forall p :: 0 <= p < |t| ==> |t[p]| == |ps|
  {
    if rows == [] then [] else AverageTable(m, rows[..|rows| - 1], ps) + [AverageRow(m, rows[|rows| - 1], ps)]
  }

  lemma {:induction false} AverageRowAt(m: Metrics, a: set<string>, qs: seq<set<string>>, q: nat)
    requires q < |qs|
    ensures AverageRow(m, a, qs)[q] == InterAverage(m, a, qs[q])
  {
    if q < |qs| - 1 {
      AverageRowAt(m, a, qs[..|qs| - 1], q);
    }
  }

  lemma {:induction false} AverageTableAt(m: Metrics, rows: seq<set<string>>, ps: seq<set<string>>, p: nat, q: nat)
    requires p < |rows| && q < |ps|
    ensures AverageTable(m, rows, ps)[p][q] == InterAverage(m, rows[p], ps[q])
  {
    if p < |rows| - 1 {
      AverageTableAt(m, rows[..|rows| - 1], ps, p, q);
    } else {
      AverageRowAt(m, rows[p], ps, q);
    }
  }

  /** The average coupling between the clusters at `p` and `q`. */
  ghost function PairAverages(m: Metrics, ps: seq<set<string>>): seq<seq<real>>
  {
    AverageTable(m, ps, ps)
  }

  /** Every entry of the table is the average between the two clusters. */
  lemma PairAveragesAt(m: Metrics, ps: seq<set<string>>, p: nat, q: nat)
    requires p < |ps| && q < |ps|
    ensures |PairAverages(m, ps)| == |ps| && |PairAverages(m, ps)[p]| == |ps|
    ensures PairAverages(m, ps)[p][q] == InterAverage(m, ps[p], ps[q])
  {
    AverageTableAt(m, ps, ps, p, q);
  }

  /** `(i2, j2)` comes before `(i, j)` in the `i < j` scan. */
  predicate ScannedBefore(i2: nat, j2: nat, i: nat, j: nat)
  {
    i2 < i || (i2 == i && j2 < j)
  }

  /** A table of `n` rows of `n` averages. */
  predicate IsSquare(t: seq<seq<real>>, n: nat)
  {
    |t| == n && forall p :: 0 <= p < n ==> |t[p]| == n
  }

  /** `(i, j)` is the pair the scan ends on: its average beats the initial
      `maxCoupling = -1`, no pair has a greater average, and every earlier
      pair has a strictly smaller one (`coupling > maxCoupling` is strict). */
  predicate FirstBestIn(t: seq<seq<real>>, n: nat, i: nat, j: nat)
    requires IsSquare(t, n)
  {
    && i < j < n
    && t[i][j] > -1.0
    && (forall p, q :: 0 <= p < q < n ==> t[p][q] <= t[i][j])
    && (forall p, q :: 0 <= p < q < n && ScannedBefore(p, q, i, j) ==> t[p][q] < t[i][j])
  }

  /** The pair `performClustering` merges next. */
  ghost predicate IsFirstBest(m: Metrics, ps: seq<set<string>>, i: nat, j: nat)
  {
    FirstBestIn(PairAverages(m, ps), |ps|, i, j)
  }

  /** The table is square. */
  lemma PairAveragesSquare(m: Metrics, ps: seq<set<string>>)
    ensures IsSquare(PairAverages(m, ps), |ps|)
  {
  }

  /** At most one pair is the first best: the choice is determined. */
  lemma FirstBestUnique(t: seq<seq<real>>, n: nat, i: nat, j: nat, i2: nat, j2: nat)
    requires IsSquare(t, n) && FirstBestIn(t, n, i, j) && FirstBestIn(t, n, i2, j2)
    ensures i == i2 && j == j2
  {
  }

  /** Some pair's average beats the initial `maxCoupling = -1`. */
  predicate HasSelectablePair(t: seq<seq<real>>, n: nat)
    requires IsSquare(t, n)
  {
    exists p, q :: 0 <= p < q < n && t[p][q] > -1.0
  }

  /** With at least two clusters and no negative weight, some pair beats -1. */
  lemma SomePairSelectable(m: Metrics, ps: seq<set<string>>, hi: real)
    requires |ps| >= 2 && WeightsWithin(m, 0.0, hi)
    ensures IsSquare(PairAverages(m, ps), |ps|) && HasSelectablePair(PairAverages(m, ps), |ps|)
  {
    PairAveragesAt(m, ps, 0, 1);
    InterAverageBounds(m, ps[0], ps[1], 0.0, hi);
  }

  /** The state of the scan once every pair before `(i, j)` was looked at. */
  predicate BestSoFar(t: seq<seq<real>>, n: nat, i: nat, j: nat, found: bool, bi: nat, bj: nat, best: real)
    requires IsSquare(t, n)
  {
    && (forall p, q :: 0 <= p < q < n && ScannedBefore(p, q, i, j) ==> t[p][q] <= best)
    && (!found ==> best == -1.0)
    && (found ==>
          && bi < bj < n && ScannedBefore(bi, bj, i, j)
          && best == t[bi][bj] && best > -1.0
          && forall p, q :: 0 <= p < q < n && ScannedBefore(p, q, bi, bj) ==> t[p][q] < best)
  }

  /** Before the first pair. */
  lemma ScanStart(t: seq<seq<real>>, n: nat)
    requires IsSquare(t, n)
    ensures BestSoFar(t, n, 0, 1, false, 0, 0, -1.0)
  {
  }

  /** Looking at pair `(i, j)` moves the scan on. */
  lemma ScanStep(t: seq<seq<real>>, n: nat, i: nat, j: nat, found: bool, bi: nat, bj: nat, best: real)
    requires IsSquare(t, n) && i < j < n && BestSoFar(t, n, i, j, found, bi, bj, best)
    ensures t[i][j] > best ==> BestSoFar(t, n, i, j + 1, true, i, j, t[i][j])
    ensures t[i][j] <= best ==> BestSoFar(t, n, i, j + 1, found, bi, bj, best)
  {
    forall p, q | 0 <= p < q < n && ScannedBefore(p, q, i, j + 1)
      ensures t[p][q] <= if t[i][j] > best then t[i][j] else best
    {
      if ScannedBefore(p, q, i, j) {
        assert t[p][q] <= best;
      } else {
        assert p == i && q == j;
      }
    }
  }

  /** A finished row of the scan. */
  lemma ScanRow(t: seq<seq<real>>, n: nat, i: nat, found: bool, bi: nat, bj: nat, best: real)
    requires IsSquare(t, n) && i < n && BestSoFar(t, n, i, n, found, bi, bj, best)
    ensures BestSoFar(t, n, i + 1, i + 2, found, bi, bj, best)
  {
    forall p, q | 0 <= p < q < n && ScannedBefore(p, q, i + 1, i + 2)
      ensures ScannedBefore(p, q, i, n)
    {
    }
  }

  /** The finished scan. */
  lemma ScanDone(t: seq<seq<real>>, n: nat, found: bool, bi: nat, bj: nat, best: real)
    requires IsSquare(t, n) && BestSoFar(t, n, n, n + 1, found, bi, bj, best)
    ensures found <==> HasSelectablePair(t, n)
    ensures found ==> FirstBestIn(t, n, bi, bj) && best == t[bi][bj]
  {
    forall p, q | 0 <= p < q < n ensures t[p][q] <= best {
      assert ScannedBefore(p, q, n, n + 1);
    }
  }

  /** The `i < j` scan of both phases: `found` when some pair's average beats
      -1, and then `(bi, bj)` is the first pair with the greatest average. */
  method FindClosestPair(clusters: seq<Cluster>, m: Metrics) returns (found: bool, bi: nat, bj: nat, best: real)
    ensures IsSquare(PairAverages(m, Members(clusters)), |clusters|)
    ensures found <==> HasSelectablePair(PairAverages(m, Members(clusters)), |clusters|)
    ensures found ==> IsFirstBest(m, Members(clusters), bi, bj)
    ensures found ==> best == PairAverages(m, Members(clusters))[bi][bj]
    ensures !found ==> best == -1.0
  {
    ghost var ps := Members(clusters);
    ghost var t := PairAverages(m, ps);
    var n := |clusters|;
    PairAveragesSquare(m, ps);
    found, bi, bj, best := false, 0, 0, -1.0;
    ScanStart(t, n);
    var i := 0;
    while i < n
      invariant 0 <= i <= n
      invariant BestSoFar(t, n, i, i + 1, found, bi, bj, best)
    {
      var j := i + 1;
      while j < n
        invariant i + 1 <= j <= n
        invariant BestSoFar(t, n, i, j, found, bi, bj, best)
      {
        var coupling := AverageCouplingBetween(clusters[i], clusters[j], m);
        PairAveragesAt(m, ps, i, j);
        ScanStep(t, n, i, j, found, bi, bj, best);
        if coupling > best {
          found, bi, bj, best := true, i, j, coupling;
        }
        j := j + 1;
      }
      ScanRow(t, n, i, found, bi, bj, best);
      i := i + 1;
    }
    ScanDone(t, n, found, bi, bj, best);
  }

  // ---------------------------------------------------------------------------
  // performClustering

  /** `clusterA.merge(clusterB); clusters.remove(clusterB)` for the pair at
      `i < j`. */
  method MergePair(clusters: seq<Cluster>, i: nat, j: nat) returns (rest: seq<Cluster>)
    requires i < j < |clusters| && NoDuplicates(clusters)
    modifies clusters[i]
    ensures rest == clusters[..j] + clusters[j + 1..]
    ensures NoDuplicates(rest) && forall c :: c in rest ==> c in clusters
    ensures Members(rest) == MergeAt(old(Members(clusters)), i, j)
  {
    ghost var before := Members(clusters);
    var clusterA, clusterB := clusters[i], clusters[j];
    clusterA.Merge(clusterB);
    RemoveFirstAt(clusters, j);
    rest := RemoveFirst(clusters, clusterB);
    forall k | 0 <= k < |clusters| && k != i ensures clusters[k].classes == before[k] {
      assert clusters[k] != clusterA;
    }
    forall p, q | 0 <= p < q < |rest| ensures rest[p] != rest[q] {
      var p' := if p < j then p else p + 1;
      var q' := if q < j then q else q + 1;
      assert rest[p] == clusters[p'] && rest[q] == clusters[q'];
    }
    var after := Members(rest);
    var expected := MergeAt(before, i, j);
    assert |after| == |expected|;
    forall k | 0 <= k < |after| ensures after[k] == expected[k] {
      if k < j {
        assert rest[k] == clusters[k];
      } else {
        assert rest[k] == clusters[k + 1];
      }
    }
  }

  /** A merge of the first best pair whose average exceeds `cp`: one step of
      the first phase. */
  ghost predicate Phase1Step(m: Metrics, cp: real, ps: seq<set<string>>, qs: seq<set<string>>)
  {
    exists i: nat, j: nat :: IsFirstBest(m, ps, i, j) && InterAverage(m, ps[i], ps[j]) > cp && qs == MergeAt(ps, i, j)
  }

  /** The first phase stops: at most one cluster is left, or no pair of
      clusters has an average above `cp`. */
  ghost predicate Phase1Finished(m: Metrics, cp: real, ps: seq<set<string>>)
  {
    |ps| <= 1 || forall p, q :: 0 <= p < q < |ps| ==> InterAverage(m, ps[p], ps[q]) <= cp
  }

  /** A merge of the first best pair while there are more than `maxModules`
      clusters: one step of the second phase. */
  ghost predicate Phase2Step(m: Metrics, maxModules: nat, ps: seq<set<string>>, qs: seq<set<string>>)
  {
    |ps| > maxModules && exists i: nat, j: nat :: IsFirstBest(m, ps, i, j) && qs == MergeAt(ps, i, j)
  }

  /** Every step of `run` is a `Phase1Step` (`phase == 1`) or a `Phase2Step`. */
  ghost predicate IsRun(m: Metrics, cp: real, maxModules: nat, phase: nat, run: seq<seq<set<string>>>)
  {
    forall k :: 0 <= k < |run| - 1 ==>
      if phase == 1 then Phase1Step(m, cp, run[k], run[k + 1]) else Phase2Step(m, maxModules, run[k], run[k + 1])
  }

  /** The scan picked `(i, j)` and its average is `best`. */
  lemma FirstBestAverage(m: Metrics, ps: seq<set<string>>, i: nat, j: nat, best: real)
    requires IsFirstBest(m, ps, i, j) && best == PairAverages(m, ps)[i][j]
    ensures i < j < |ps| && best == InterAverage(m, ps[i], ps[j])
    ensures forall p, q :: 0 <= p < q < |ps| ==> InterAverage(m, ps[p], ps[q]) <= best
  {
    PairAveragesAt(m, ps, i, j);
    forall p, q | 0 <= p < q < |ps| ensures InterAverage(m, ps[p], ps[q]) <= best {
      PairAveragesAt(m, ps, p, q);
    }
  }

  /** Extending a run by one step. */
  lemma RunExtend(m: Metrics, cp: real, maxModules: nat, phase: nat, run: seq<seq<set<string>>>, next: seq<set<string>>)
    requires |run| >= 1 && IsRun(m, cp, maxModules, phase, run)
    requires phase == 1 ==> Phase1Step(m, cp, run[|run| - 1], next)
    requires phase != 1 ==> Phase2Step(m, maxModules, run[|run| - 1], next)
    ensures IsRun(m, cp, maxModules, phase, run + [next])
  {
    var r := run + [next];
    forall k | 0 <= k < |r| - 1
      ensures if phase == 1 then Phase1Step(m, cp, r[k], r[k + 1]) else Phase2Step(m, maxModules, r[k], r[k + 1])
    {
      assert r[k] == run[k];
      if k < |run| - 1 {
        assert r[k + 1] == run[k + 1];
      }
    }
  }

  /** With more than `|keys| / 2` clusters of a partition of `keys`, and
      `|keys| != 1`, there are at least two clusters to merge. */
  lemma TwoClustersLeft(ps: seq<set<string>>, keys: set<string>)
    requires IsPartition(ps, keys) && |keys| != 1 && |ps| > |keys| / 2
    ensures |ps| >= 2
  {
    PartitionSize(ps, keys);
  }

  /** As written, the second phase never ends for a map with exactly one
      class (a project whose only class calls itself): the first phase
      leaves the single singleton cluster alone, `1 > 1 / 2` keeps the
      second loop running, and since the scan finds no pair nothing is
      merged, so every iteration sees the same list again. */
  lemma OneClassStallsSecondPhase(m: Metrics, keyOrder: seq<string>)
    requires IsEnumeration(keyOrder, m.Keys) && |m.Keys| == 1
    ensures var ps := Singletons(keyOrder);
      && |ps| == 1 && |ps| > |m.Keys| / 2
      && IsSquare(PairAverages(m, ps), |ps|) && !HasSelectablePair(PairAverages(m, ps), |ps|)
      && forall qs :: !Phase2Step(m, |m.Keys| / 2, ps, qs)
  {
    EnumerationSize(keyOrder, m.Keys);
    PairAveragesSquare(m, Singletons(keyOrder));
  }

  /** Above `|keys| / 2` clusters the scan always finds a pair, except for a
      single class. */
  lemma NoPairOnlyForOneClass(m: Metrics, ps: seq<set<string>>, keys: set<string>)
    requires IsPartition(ps, keys) && |ps| > |keys| / 2 && WeightsWithin(m, 0.0, 1.0)
    ensures IsSquare(PairAverages(m, ps), |ps|)
    ensures !HasSelectablePair(PairAverages(m, ps), |ps|) ==> |keys| == |ps| == 1
  {
    PairAveragesSquare(m, ps);
    if |keys| != 1 {
      TwoClustersLeft(ps, keys);
    }
    if |ps| >= 2 {
      SomePairSelectable(m, ps, 1.0);
    }
  }

  /** The first phase stops where the scan found no pair above `cp`. */
  lemma StopsAtOrBelowThreshold(m: Metrics, cp: real, ps: seq<set<string>>,
                                found: bool, bi: nat, bj: nat, best: real)
    requires |ps| >= 2 && WeightsWithin(m, 0.0, 1.0)
    requires IsSquare(PairAverages(m, ps), |ps|)
    requires found <==> HasSelectablePair(PairAverages(m, ps), |ps|)
    requires found ==> IsFirstBest(m, ps, bi, bj) && best == PairAverages(m, ps)[bi][bj]
    requires !(found && best > cp)
    ensures Phase1Finished(m, cp, ps)
  {
    SomePairSelectable(m, ps, 1.0);
    FirstBestAverage(m, ps, bi, bj, best);
  }

  /** The list made of one new singleton cluster per key, in key order. */
  method InitialClusters(keyOrder: seq<string>) returns (clusters: seq<Cluster>)
    ensures NoDuplicates(clusters) && forall c :: c in clusters ==> fresh(c)
    ensures Members(clusters) == Singletons(keyOrder)
  {
    clusters := [];
    var k := 0;
    while k < |keyOrder|
      invariant 0 <= k <= |keyOrder|
      invariant NoDuplicates(clusters) && forall c :: c in clusters ==> fresh(c)
      invariant Members(clusters) == Singletons(keyOrder[..k])
    {
      var cluster := new Cluster(keyOrder[k]);
      assert Singletons(keyOrder[..k + 1]) == Singletons(keyOrder[..k]) + [{keyOrder[k]}];
      clusters := clusters + [cluster];
      k := k + 1;
    }
    assert keyOrder[..k] == keyOrder;
  }

  /** The first phase: merge the first best pair while its average exceeds
      `cp`. `run` records the member sets after every merge. */
  method MergeWhileAboveThreshold(start: seq<Cluster>, m: Metrics, cp: real, ghost keys: set<string>)
    returns (clusters: seq<Cluster>, ghost run: seq<seq<set<string>>>)
    requires NoDuplicates(start) && IsPartition(Members(start), keys) && WeightsWithin(m, 0.0, 1.0)
    modifies set c | c in start
    ensures NoDuplicates(clusters) && forall c :: c in clusters ==> c in start
    ensures |run| >= 1 && run[0] == old(Members(start)) && IsRun(m, cp, 0, 1, run)
    ensures run[|run| - 1] == Members(clusters)
    ensures IsPartition(Members(clusters), keys) && Phase1Finished(m, cp, Members(clusters))
  {
    clusters := start;
    run := [Members(clusters)];
    while |clusters| > 1
      invariant NoDuplicates(clusters) && forall c :: c in clusters ==> c in start
      invariant IsPartition(Members(clusters), keys)
      invariant |run| >= 1 && run[0] == old(Members(start)) && IsRun(m, cp, 0, 1, run)
      invariant run[|run| - 1] == Members(clusters)
      decreases |clusters|
    {
      var found, bi, bj, best := FindClosestPair(clusters, m);
      ghost var before := Members(clusters);
      if found && best > cp {
        FirstBestAverage(m, before, bi, bj, best);
        assert clusters[bi] in clusters;
        clusters := MergePair(clusters, bi, bj);
        MergePartition(before, keys, bi, bj);
        RunExtend(m, cp, 0, 1, run, Members(clusters));
        run := run + [Members(clusters)];
      } else {
        StopsAtOrBelowThreshold(m, cp, before, found, bi, bj, best);
        break;
      }
    }
  }

  /** The second phase: merge the first best pair while more than
      `maxModules` clusters remain, and stop when the scan finds no pair
      (which happens only for a single class, where the loop as written
      would spin for ever). */
  method MergeDownTo(start: seq<Cluster>, m: Metrics, maxModules: nat, ghost cp: real, ghost keys: set<string>)
    returns (clusters: seq<Cluster>, ghost run: seq<seq<set<string>>>)
    requires NoDuplicates(start) && IsPartition(Members(start), keys) && WeightsWithin(m, 0.0, 1.0)
    requires maxModules == |keys| / 2
    modifies set c | c in start
    ensures NoDuplicates(clusters) && forall c :: c in clusters ==> c in start
    ensures |run| >= 1 && run[0] == old(Members(start)) && IsRun(m, cp, maxModules, 2, run)
    ensures run[|run| - 1] == Members(clusters)
    ensures IsPartition(Members(clusters), keys)
    ensures |clusters| <= maxModules || |keys| == |clusters| == 1
  {
    clusters := start;
    run := [Members(clusters)];
    while |clusters| > maxModules
      invariant NoDuplicates(clusters) && forall c :: c in clusters ==> c in start
      invariant IsPartition(Members(clusters), keys)
      invariant |run| >= 1 && run[0] == old(Members(start)) && IsRun(m, cp, maxModules, 2, run)
      invariant run[|run| - 1] == Members(clusters)
      decreases |clusters|
    {
      ghost var before := Members(clusters);
      NoPairOnlyForOneClass(m, before, keys);
      var found, bi, bj, best := FindClosestPair(clusters, m);
      if !found {
        break;
      }
      assert clusters[bi] in clusters;
      clusters := MergePair(clusters, bi, bj);
      MergePartition(before, keys, bi, bj);
      RunExtend(m, cp, maxModules, 2, run, Members(clusters));
      run := run + [Members(clusters)];
    }
  }

  /** `performClustering(couplingMetrics, CP)`: one singleton per key (in
      key-iteration order `keyOrder`), then merges while the best average
      exceeds `cp`, then merges while more than `|m| / 2` clusters remain.
      `phase1` and `phase2` record the member sets after every merge. */
  method PerformClustering(m: Metrics, keyOrder: seq<string>, cp: real)
    returns (clusters: seq<Cluster>, ghost phase1: seq<seq<set<string>>>, ghost phase2: seq<seq<set<string>>>)
    requires IsEnumeration(keyOrder, m.Keys)
    requires WeightsWithin(m, 0.0, 1.0)
    ensures NoDuplicates(clusters) && forall c :: c in clusters ==> fresh(c)
    ensures |phase1| >= 1 && phase1[0] == Singletons(keyOrder) && IsRun(m, cp, 0, 1, phase1)
    ensures Phase1Finished(m, cp, phase1[|phase1| - 1])
    ensures |phase2| >= 1 && phase2[0] == phase1[|phase1| - 1] && IsRun(m, cp, |m.Keys| / 2, 2, phase2)
    ensures phase2[|phase2| - 1] == Members(clusters)
    ensures IsPartition(Members(clusters), m.Keys)
    ensures |clusters| <= |m.Keys| / 2 || |m.Keys| == |clusters| == 1
  {
    var initial := InitialClusters(keyOrder);
    SingletonsPartition(keyOrder, m.Keys);
    var afterPhase1;
    afterPhase1, phase1 := MergeWhileAboveThreshold(initial, m, cp, m.Keys);
    var maxModules := |m.Keys| / 2;
    clusters, phase2 := MergeDownTo(afterPhase1, m, maxModules, cp, m.Keys);
  }
}
