/** What `partition` promises about its shards. */
module ShardingLaws {
  import opened Sorting
  import opened Mapping
  import opened Text
  import opened Lpt
  import opened Sharding

  // ------------------------------------------------------ true partition

  /** How often the shards together hold a file. */
  ghost function Copies(shards: Shards, f: string): nat {
    if shards == [] then 0 else
      Copies(shards[..|shards| - 1], f) + multiset(shards[|shards| - 1])[f]
  }

  /** The shards hold each file exactly as often as the list does. */
  ghost predicate Partitions(shards: Shards, files: seq<string>) {
    forall f :: Copies(shards, f) == multiset(files)[f]
  }

  lemma {:induction false} CopiesUpdate(shards: Shards, m: nat, shard: seq<string>, f: string)
    requires m < |shards|
    ensures Copies(shards[m := shard], f) + multiset(shards[m])[f] == Copies(shards, f) + multiset(shard)[f]
  {
    var last := |shards| - 1;
    var updated := shards[m := shard];
    if m == last {
      assert updated[..last] == shards[..last];
    } else {
      assert updated[..last] == shards[..last][m := shard] && updated[last] == shards[last];
      CopiesUpdate(shards[..last], m, shard, f);
    }
  }

  lemma {:induction false} NoCopies(shards: Shards, f: string)
    requires forall k :: 0 <= k < |shards| ==> shards[k] == []
    ensures Copies(shards, f) == 0
  {
    if shards != [] {
      NoCopies(shards[..|shards| - 1], f);
    }
  }

  lemma NoBuckets(n: nat)
    ensures Buckets([], [], n) == seq(n, _ => [])
  {
    hide Buckets;
    assert forall k :: 0 <= k < n ==> Bucket([], [], k) == [];
  }

  lemma {:induction false} BucketsCopies(items: seq<string>, asg: seq<nat>, n: nat, f: string)
    requires IsAssignment(asg, |items|, n)
    ensures Copies(Buckets(items, asg, n), f) == multiset(items)[f]
  {
    hide Bucket;
    if items == [] {
      NoBuckets(n);
      assert asg == [];
      NoCopies(Buckets(items, asg, n), f);
    } else {
      var m := |items| - 1;
      BucketsCopies(items[..m], asg[..m], n, f);
      BucketsLast(items, asg, n);
      LastElement(items);
      CopiesAppend(Buckets(items[..m], asg[..m], n), asg[m], items[m], f);
    }
  }

  lemma CopiesAppend(shards: Shards, m: nat, item: string, f: string)
    requires m < |shards|
    ensures Copies(shards[m := shards[m] + [item]], f) == Copies(shards, f) + multiset{item}[f]
  {
    CopiesUpdate(shards, m, shards[m] + [item], f);
  }

  /** Sorting jobs rearranges the files and nothing else. */
  lemma JobsFacts(files: seq<string>, weights: WeightMap, fallback: real)
    ensures var jobs := Jobs(files, weights, fallback);
            && |jobs| == |files| && Sorted(jobs, HeavierFirst)
            && multiset(Paths(jobs)) == multiset(files)
            && Weights(jobs) == Map(WeightOf(weights, fallback), Paths(jobs))
  {
    var unsorted := Map(JobOf(weights, fallback), files);
    var jobs := Jobs(files, weights, fallback);
    JobOrder();
    SortElements(unsorted, HeavierFirst);
    SortSorted(unsorted, HeavierFirst);
    MapElements((j: Job) => j.path, jobs, unsorted);
    assert Paths(unsorted) == files;
    forall i | 0 <= i < |jobs| ensures jobs[i].weight == Effective(weights, fallback, jobs[i].path) {
      assert jobs[i] in multiset(unsorted);
    }
  }

  /** There are `n` shards and together they hold each file exactly as often
      as the input does. */
  lemma TruePartition(files: seq<string>, weights: WeightMap, n: int, given: Option<real>)
    requires Partitioned(files, weights, n, given).Ok?
    ensures var shards := Partitioned(files, weights, n, given).value;
            |shards| == n && Partitions(shards, files)
  {
    var shards := Partitioned(files, weights, n, given).value;
    var fallback := FallbackWeight(weights, given);
    var jobs := Jobs(files, weights, fallback);
    JobsFacts(files, weights, fallback);
    forall f ensures Copies(shards, f) == multiset(files)[f] {
      if files == [] {
        NoCopies(shards, f);
      } else {
        BucketsCopies(Paths(jobs), Greedy(Weights(jobs), n), n, f);
      }
    }
  }

  /** Rejected exactly for a shard count below 1, or a negative given fallback
      that would be used. */
  lemma RejectedIff(files: seq<string>, weights: WeightMap, n: int, given: Option<real>)
    ensures Partitioned(files, weights, n, given).Err? <==>
            n < 1 || (files != [] && given.Some? && given.value < 0.0)
  {
  }

  // --------------------------------------------------------- determinism

  /** The shards do not depend on the order of the file list. */
  lemma FileOrderIrrelevant(files: seq<string>, other: seq<string>, weights: WeightMap, n: int, given: Option<real>)
    requires multiset(files) == multiset(other)
    ensures Partitioned(files, weights, n, given) == Partitioned(other, weights, n, given)
  {
    assert |files| == |multiset(files)| == |multiset(other)| == |other|;
    var fallback := FallbackWeight(weights, given);
    MapElements(JobOf(weights, fallback), files, other);
    JobOrder();
    SortOrderIndependent(Map(JobOf(weights, fallback), files), Map(JobOf(weights, fallback), other), HeavierFirst);
  }

  // ------------------------------------------------------- the 4/3 bound

  /** The total weight of a shard. */
  function Total(weights: WeightMap, fallback: real, shard: seq<string>): real {
    Sum(Map(WeightOf(weights, fallback), shard))
  }

  /** The largest shard total. */
  function Makespan(weights: WeightMap, fallback: real, shards: Shards): (m: real)
    requires shards != []
    ensures forall k :: 0 <= k < |shards| ==> Total(weights, fallback, shards[k]) <= m
    ensures exists k :: 0 <= k < |shards| && Total(weights, fallback, shards[k]) == m
  {
    var last := Total(weights, fallback, shards[|shards| - 1]);
    if |shards| == 1 then last else
      var rest := Makespan(weights, fallback, shards[..|shards| - 1]);
      if last > rest then last else rest
  }

  ghost predicate NonNegativeWeights(weights: WeightMap) {
    forall f :: f in weights ==> weights[f] >= 0.0
  }

  lemma SumAppend(s: seq<real>, x: real)
    ensures Sum(s + [x]) == Sum(s) + x
  {
    assert (s + [x])[..|s|] == s;
  }

  lemma TotalAppend(weights: WeightMap, fallback: real, shard: seq<string>, f: string)
    ensures Total(weights, fallback, shard + [f]) == Total(weights, fallback, shard) + Effective(weights, fallback, f)
  {
    MapAppend(WeightOf(weights, fallback), shard, f);
    SumAppend(Map(WeightOf(weights, fallback), shard), Effective(weights, fallback, f));
  }

  lemma {:induction false} TotalWithout(weights: WeightMap, fallback: real, shard: seq<string>, j: nat)
    requires j < |shard|
    ensures Total(weights, fallback, shard) ==
            Total(weights, fallback, Without(shard, j)) + Effective(weights, fallback, shard[j])
  {
    var last := |shard| - 1;
    assert shard == shard[..last] + [shard[last]];
    TotalAppend(weights, fallback, shard[..last], shard[last]);
    if j == last {
      assert Without(shard, j) == shard[..last];
    } else {
      TotalWithout(weights, fallback, shard[..last], j);
      assert Without(shard, j) == Without(shard[..last], j) + [shard[last]];
      TotalAppend(weights, fallback, Without(shard[..last], j), shard[last]);
    }
  }

  /** A shard's total is the load of its machine. */
  lemma {:induction false} BucketTotal(weights: WeightMap, fallback: real, paths: seq<string>, asg: seq<nat>, k: nat)
    requires |asg| == |paths|
    ensures Total(weights, fallback, Bucket(paths, asg, k)) == Load(Map(WeightOf(weights, fallback), paths), asg, k)
  {
    if paths != [] {
      var m := |paths| - 1;
      BucketTotal(weights, fallback, paths[..m], asg[..m], k);
      MapPrefix(WeightOf(weights, fallback), paths, m);
      var before := Bucket(paths[..m], asg[..m], k);
      TotalAppend(weights, fallback, before, paths[m]);
      assert before + [] == before;
    }
  }

  lemma {:induction false} FindShard(shards: Shards, f: string) returns (k: nat, j: nat)
    requires Copies(shards, f) > 0
    ensures k < |shards| && j < |shards[k]| && shards[k][j] == f
  {
    var last := |shards| - 1;
    if f in shards[last] {
      k := last;
      j :| 0 <= j < |shards[last]| && shards[last][j] == f;
    } else {
      k, j := FindShard(shards[..last], f);
    }
  }

  /** Any way to spread the files over shards is an assignment of the jobs
      with the same totals. */
  lemma {:induction false} AsAssignment(weights: WeightMap, fallback: real, paths: seq<string>, other: Shards)
    returns (asg: seq<nat>)
    requires Partitions(other, paths)
    ensures IsAssignment(asg, |paths|, |other|)
    ensures forall k :: 0 <= k < |other| ==>
      Load(Map(WeightOf(weights, fallback), paths), asg, k) == Total(weights, fallback, other[k])
  {
    if paths == [] {
      asg := [];
      forall k | 0 <= k < |other| ensures other[k] == [] { HoldsNothing(other, k); }
    } else {
      var m := |paths| - 1;
      assert paths == paths[..m] + [paths[m]];
      assert multiset(paths)[paths[m]] > 0;
      var k, j := FindShard(other, paths[m]);
      var smaller := other[k := Without(other[k], j)];
      forall f ensures Copies(smaller, f) == multiset(paths[..m])[f] {
        CopiesUpdate(other, k, Without(other[k], j), f);
        WithoutElements(other[k], j);
        assert Copies(other, f) == multiset(paths)[f];
      }
      var before := AsAssignment(weights, fallback, paths[..m], smaller);
      asg := before + [k];
      assert asg[..m] == before;
      LoadsWithLast(weights, fallback, paths, asg, other, smaller, j);
    }
  }

  lemma LoadsWithLast(weights: WeightMap, fallback: real, paths: seq<string>, asg: seq<nat>,
                      other: Shards, smaller: Shards, j: nat)
    requires |asg| == |paths| > 0
    requires var m := |paths| - 1;
             && asg[m] < |other| && j < |other[asg[m]]| && other[asg[m]][j] == paths[m]
             && smaller == other[asg[m] := Without(other[asg[m]], j)]
             && forall q :: 0 <= q < |smaller| ==>
               Load(Map(WeightOf(weights, fallback), paths[..m]), asg[..m], q) == Total(weights, fallback, smaller[q])
    ensures forall q :: 0 <= q < |other| ==>
      Load(Map(WeightOf(weights, fallback), paths), asg, q) == Total(weights, fallback, other[q])
  {
    var m := |paths| - 1;
    MapPrefix(WeightOf(weights, fallback), paths, m);
    TotalWithout(weights, fallback, other[asg[m]], j);
  }

  lemma {:induction false} HoldsNothing(shards: Shards, k: nat)
    requires k < |shards| && forall f :: Copies(shards, f) == 0
    ensures shards[k] == []
  {
    var last := |shards| - 1;
    if k < last {
      forall f ensures Copies(shards[..last], f) == 0 { assert Copies(shards, f) == 0; }
      HoldsNothing(shards[..last], k);
    } else {
      forall f ensures multiset(shards[last])[f] == 0 { assert Copies(shards, f) == 0; }
      assert |multiset(shards[last])| == |shards[last]|;
    }
  }

  lemma FallbackNonNegative(weights: WeightMap, given: Option<real>)
    requires NonNegativeWeights(weights) && (given.Some? ==> given.value >= 0.0)
    ensures FallbackWeight(weights, given) >= 0.0
  {
    var values := WeightValues(weights);
    if values != [] {
      QuantilePosition(values, 0.75);
    }
  }

  /** The header's claim, made exact: on non-negative weights the largest
      shard total is within 4/3 - 1/(3n) of the largest total of ANY way to
      spread the same files over `n` shards. */
  lemma WithinFourThirds(files: seq<string>, weights: WeightMap, n: int, given: Option<real>, other: Shards)
    requires NonNegativeWeights(weights)
    requires Partitioned(files, weights, n, given).Ok?
    requires |other| == n && Partitions(other, files)
    ensures var fallback := FallbackWeight(weights, given);
            Makespan(weights, fallback, Partitioned(files, weights, n, given).value)
            <= Guarantee(n, Makespan(weights, fallback, other))
  {
    hide Guarantee;
    hide Makespan;
    hide Load;
    hide Bucket;
    hide Greedy;
    hide FallbackWeight;
    hide Copies;
    var fallback := FallbackWeight(weights, given);
    var jobs := Jobs(files, weights, fallback);
    var shards := Partitioned(files, weights, n, given).value;
    JobsFacts(files, weights, fallback);
    var asg := AsAssignment(weights, fallback, Paths(jobs), other);
    var M := Makespan(weights, fallback, other);
    if files == [] {
      NoLoad(asg, 0);
      LargeJob(n, 0.0, M);
    } else {
      FallbackNonNegative(weights, given);
      forall k | 0 <= k < n ensures Total(weights, fallback, shards[k]) <= Guarantee(n, M) {
        GreedyBound(Weights(jobs), n, asg, M, k);
        BucketTotal(weights, fallback, Paths(jobs), Greedy(Weights(jobs), n), k);
      }
    }
  }

  lemma NoLoad(asg: seq<nat>, k: nat)
    requires asg == []
    ensures Load([], asg, k) == 0.0
  {
  }

  /** Two shard totals differ by no more than the heaviest file. */
  lemma TotalsClose(files: seq<string>, weights: WeightMap, n: int, given: Option<real>, k: nat, q: nat) returns (f: string)
    requires files != [] && NonNegativeWeights(weights)
    requires Partitioned(files, weights, n, given).Ok? && k < n && q < n
    ensures f in files
    ensures var fallback := FallbackWeight(weights, given);
            var shards := Partitioned(files, weights, n, given).value;
            && Total(weights, fallback, shards[k]) - Total(weights, fallback, shards[q])
               <= Effective(weights, fallback, f)
            && forall g :: g in files ==> Effective(weights, fallback, g) <= Effective(weights, fallback, f)
  {
    hide FallbackWeight;
    hide Jobs;
    hide Greedy;
    hide Load;
    hide Bucket;
    hide Total;
    hide StringLe;
    var fallback := FallbackWeight(weights, given);
    var jobs := Jobs(files, weights, fallback);
    var paths, ws := Paths(jobs), Weights(jobs);
    JobsFacts(files, weights, fallback);
    FallbackNonNegative(weights, given);
    GreedyGap(ws, n, k, q);
    BucketTotal(weights, fallback, paths, Greedy(ws, n), k);
    BucketTotal(weights, fallback, paths, Greedy(ws, n), q);
    f := paths[0];
    assert f in multiset(paths);
    forall g | g in files ensures Effective(weights, fallback, g) <= Effective(weights, fallback, f) {
      assert g in multiset(paths);
      var i :| 0 <= i < |paths| && paths[i] == g;
      assert i == 0 || HeavierFirst(jobs[0], jobs[i]);
      assert ws[i] == Effective(weights, fallback, g) && ws[0] == Effective(weights, fallback, f);
    }
  }

  /** The smallest shard total. */
  function Lightest(weights: WeightMap, fallback: real, shards: Shards): (m: real)
    requires shards != []
    ensures forall k :: 0 <= k < |shards| ==> m <= Total(weights, fallback, shards[k])
    ensures exists k :: 0 <= k < |shards| && Total(weights, fallback, shards[k]) == m
  {
    var last := Total(weights, fallback, shards[|shards| - 1]);
    if |shards| == 1 then last else
      var rest := Lightest(weights, fallback, shards[..|shards| - 1]);
      if last < rest then last else rest
  }

  datatype Imbalance = Infinite | Finite(ratio: real)

  /** `imbalanceRatio` */
  function ImbalanceRatio(shards: Shards, weights: WeightMap, fallback: real): Imbalance {
    if shards == [] then Finite(1.0) else
      var max, min := Makespan(weights, fallback, shards), Lightest(weights, fallback, shards);
      if min == 0.0 then (if max == 0.0 then Finite(1.0) else Infinite) else Finite(max / min)
  }

  /** The heaviest shard over the lightest: 1 when all are empty of weight or
      there is none, infinite when only some are. */
  lemma ImbalanceMeans(shards: Shards, weights: WeightMap, fallback: real)
    ensures shards == [] ==> ImbalanceRatio(shards, weights, fallback) == Finite(1.0)
    ensures shards != [] ==>
              exists k, q :: Extremes(shards, weights, fallback, k, q) &&
                             IsRatio(ImbalanceRatio(shards, weights, fallback), Total(weights, fallback, shards[k]),
                                     Total(weights, fallback, shards[q]))
  {
    hide Total;
    if shards != [] {
      var r := ImbalanceRatio(shards, weights, fallback);
      var k :| 0 <= k < |shards| && Total(weights, fallback, shards[k]) == Makespan(weights, fallback, shards);
      var q :| 0 <= q < |shards| && Total(weights, fallback, shards[q]) == Lightest(weights, fallback, shards);
      hide Makespan;
      hide Lightest;
      assert Extremes(shards, weights, fallback, k, q);
      RatioOf(r, Total(weights, fallback, shards[k]), Total(weights, fallback, shards[q]));
    }
  }

  /** Shard `k` is the heaviest and shard `q` the lightest. */
  ghost predicate Extremes(shards: Shards, weights: WeightMap, fallback: real, k: int, q: int) {
    && 0 <= k < |shards| && 0 <= q < |shards|
    && forall j :: 0 <= j < |shards| ==>
      Total(weights, fallback, shards[q]) <= Total(weights, fallback, shards[j]) <= Total(weights, fallback, shards[k])
  }

  ghost predicate IsRatio(r: Imbalance, max: real, min: real) {
    && (r == Infinite <==> min == 0.0 && max != 0.0)
    && (r.Finite? ==> if min == 0.0 then r.ratio == 1.0 else r.ratio * min == max)
  }

  lemma RatioOf(r: Imbalance, max: real, min: real)
    requires r == if min == 0.0 then (if max == 0.0 then Finite(1.0) else Infinite) else Finite(max / min)
    ensures IsRatio(r, max, min)
  {
  }

  lemma Quotients(max: real, min: real, gap: real)
    requires 0.0 < min <= max && max - min <= gap
    ensures 1.0 <= max / min <= 1.0 + gap / min
  {
    var q, g := max / min, gap / min;
    assert q * min == max && g * min == gap;
    Scale(min, 1.0, q);
    Scale(min, q, 1.0 + g);
    assert (1.0 + g) * min == min + gap;
  }

  /** The imbalance of a packing is infinite only when some shard weighs
      nothing; otherwise it exceeds 1 by at most the heaviest file over the
      lightest shard. */
  lemma ImbalanceBound(files: seq<string>, weights: WeightMap, n: int, given: Option<real>)
    returns (f: string)
    requires NonNegativeWeights(weights) && files != []
    requires Partitioned(files, weights, n, given).Ok?
    ensures f in files
    ensures var fallback := FallbackWeight(weights, given);
            var shards := Partitioned(files, weights, n, given).value;
            var min := Lightest(weights, fallback, shards);
            match ImbalanceRatio(shards, weights, fallback)
            case Infinite => min == 0.0
            case Finite(ratio) => min > 0.0 ==> 1.0 <= ratio <= 1.0 + Effective(weights, fallback, f) / min
  {
    hide Total;
    hide FallbackWeight;
    hide Effective;
    var fallback := FallbackWeight(weights, given);
    var shards := Partitioned(files, weights, n, given).value;
    var max, min := Makespan(weights, fallback, shards), Lightest(weights, fallback, shards);
    var k :| 0 <= k < |shards| && Total(weights, fallback, shards[k]) == max;
    var q :| 0 <= q < |shards| && Total(weights, fallback, shards[q]) == min;
    f := TotalsClose(files, weights, n, given, k, q);
    if min > 0.0 {
      Quotients(max, min, Effective(weights, fallback, f));
    }
  }

  // ------------------------------------------------------- shard order

  lemma {:induction false} BucketSorted(items: seq<string>, asg: seq<nat>, k: nat, le: (string, string) -> bool)
    requires |asg| == |items| && Sorted(items, le)
    ensures Sorted(Bucket(items, asg, k), le)
    ensures forall x :: x in Bucket(items, asg, k) ==> x in items
  {
    if items != [] {
      var m := |items| - 1;
      BucketSorted(items[..m], asg[..m], k, le);
      forall x | x in items[..m] ensures le(x, items[m]) {}
    }
  }

  /** Each shard lists its files heaviest first, ties by path. */
  lemma HeaviestFirst(files: seq<string>, weights: WeightMap, n: int, given: Option<real>, k: nat)
    requires Partitioned(files, weights, n, given).Ok? && k < n
    ensures var job := JobOf(weights, FallbackWeight(weights, given));
            Sorted(Partitioned(files, weights, n, given).value[k], (a, b) => HeavierFirst(job(a), job(b)))
  {
    var fallback := FallbackWeight(weights, given);
    var jobs := Jobs(files, weights, fallback);
    JobsFacts(files, weights, fallback);
    if files != [] {
      var job := JobOf(weights, fallback);
      forall i | 0 <= i < |jobs| ensures job(Paths(jobs)[i]) == jobs[i] {
        assert Weights(jobs)[i] == Effective(weights, fallback, Paths(jobs)[i]);
      }
      BucketSorted(Paths(jobs), Greedy(Weights(jobs), n), k, (a, b) => HeavierFirst(job(a), job(b)));
    }
  }

  /** What a file weighs: what the map says, or the fallback. */
  ghost predicate Weighs(weights: WeightMap, fallback: real, f: string, w: real) {
    if f in weights then w == weights[f] else w == fallback
  }

  /** So of two files in a shard the earlier is heavier by the map, or as heavy
      and earlier by path. */
  lemma EarlierIsHeavier(files: seq<string>, weights: WeightMap, n: int, given: Option<real>, k: nat, i: nat, j: nat,
                         w: real, v: real)
    requires Partitioned(files, weights, n, given).Ok? && k < n
    requires var shard := Partitioned(files, weights, n, given).value[k];
             && i < j < |shard| && Weighs(weights, FallbackWeight(weights, given), shard[i], w)
             && Weighs(weights, FallbackWeight(weights, given), shard[j], v)
    ensures var shard := Partitioned(files, weights, n, given).value[k];
            w > v || (w == v && StringLe(shard[i], shard[j]))
  {
    hide FallbackWeight;
    hide Packed;
    hide Jobs;
    HeaviestFirst(files, weights, n, given, k);
    var job := JobOf(weights, FallbackWeight(weights, given));
    var shard := Partitioned(files, weights, n, given).value[k];
    assert HeavierFirst(job(shard[i]), job(shard[j]));
  }

  // --------------------------------------------------------- round robin

  /** Items dealt to `n` shards in turn, the l-th to shard l mod n. */
  function Dealt(items: seq<string>, n: nat): (r: Shards)
    requires n > 0
    ensures |r| == n
  {
    if items == [] then seq(n, _ => []) else
      var m := |items| - 1;
      var d := Dealt(items[..m], n);
      d[m % n := d[m % n] + [items[m]]]
  }

  lemma {:induction false} TurnsAreDealt(items: seq<string>, asg: seq<nat>, n: nat)
    requires n > 0 && |asg| == |items| && forall l :: 0 <= l < |asg| ==> asg[l] == l % n
    ensures Buckets(items, asg, n) == Dealt(items, n)
  {
    hide Bucket;
    if items == [] {
      NoBuckets(n);
      assert asg == [];
    } else {
      var m := |items| - 1;
      TurnsAreDealt(items[..m], asg[..m], n);
      BucketsLast(items, asg, n);
    }
  }

  /** With equal positive effective weights the files are dealt in path order. */
  lemma EqualWeightsDealt(files: seq<string>, weights: WeightMap, n: int, given: Option<real>, c: real)
    requires Partitioned(files, weights, n, given).Ok? && c > 0.0
    requires forall f :: f in files ==> Effective(weights, FallbackWeight(weights, given), f) == c
    ensures Partitioned(files, weights, n, given).value == Dealt(Sort(files, StringLe), n)
  {
    var fallback := FallbackWeight(weights, given);
    var jobs := Jobs(files, weights, fallback);
    var paths, ws := Paths(jobs), Weights(jobs);
    JobsFacts(files, weights, fallback);
    forall i | 0 <= i < |paths| ensures ws[i] == c { assert paths[i] in multiset(paths); }
    forall i, j | 0 <= i < j < |paths| ensures StringLe(paths[i], paths[j]) {
      assert HeavierFirst(jobs[i], jobs[j]);
    }
    SortedPaths(paths, files);
    EqualWeightsRoundRobin(ws, c, n);
    TurnsAreDealt(paths, Greedy(ws, n), n);
  }

  lemma SortedPaths(paths: seq<string>, files: seq<string>)
    requires Sorted(paths, StringLe) && multiset(paths) == multiset(files)
    ensures paths == Sort(files, StringLe)
  {
    StringOrder();
    SortElements(files, StringLe);
    SortSorted(files, StringLe);
    SortedUnique(paths, Sort(files, StringLe), StringLe);
  }

  /** The cold start: no mined weights and no given fallback deal the files
      out in turn instead of piling them on the first shard. */
  lemma ColdStart(files: seq<string>, n: int)
    requires n > 0
    ensures Partitioned(files, map[], n, None) == Ok(Dealt(Sort(files, StringLe), n))
  {
    assert |WeightValues(map[])| == 0;
    EqualWeightsDealt(files, map[], n, None, 1.0);
  }
}
