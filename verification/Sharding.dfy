/** `scripts/sharding.ts`: weight-aware partitioning of test files. */
module Sharding {
  import opened Sorting
  import opened Mapping
  import opened Text
  import opened Lpt

  datatype RangeError = BadShardCount(n: int) | BadFallback(weight: real)
  datatype Result<+T> = Ok(value: T) | Err(error: RangeError)

  type WeightMap = map<string, real>
  type Shards = seq<seq<string>>

  datatype Job = Job(path: string, weight: real)

  /** Weight descending, then path ascending. */
  predicate HeavierFirst(a: Job, b: Job) {
    a.weight > b.weight || (a.weight == b.weight && StringLe(a.path, b.path))
  }

  lemma JobOrder()
    ensures TotalOrder(HeavierFirst)
  {
    StringOrder();
  }

  // -------------------------------------------------------- the quantile

  predicate RealLe(a: real, b: real) { a <= b }

  function Ceil(x: real): (c: int)
    ensures x <= c as real < x + 1.0
  {
    -((-x).Floor)
  }

  function Min(a: int, b: int): int { if a < b then a else b }

  function Max(a: int, b: int): int { if a > b then a else b }

  /** The nearest rank, clamped to a position. */
  function Rank(n: nat, q: real): (i: nat)
    requires n > 0
    ensures i < n
  {
    RankAt(n, q * n as real)
  }

  function RankAt(n: nat, x: real): (i: nat)
    requires n > 0
    ensures i < n
  {
    Min(n - 1, Max(0, Ceil(x) - 1))
  }

  /** Nearest-rank quantile; 0 for no values. */
  function ComputeQuantile(values: seq<real>, q: real): real {
    if values == [] then 0.0 else
      SortElements(values, RealLe);
      var sorted := Sort(values, RealLe);
      sorted[Rank(|sorted|, q)]
  }

  /** How many values lie at or below `x`. */
  function AtMost(values: seq<real>, x: real): nat {
    if values == [] then 0 else (if values[0] <= x then 1 else 0) + AtMost(values[1..], x)
  }

  /** How many values lie strictly below `x`. */
  function Below(values: seq<real>, x: real): nat {
    if values == [] then 0 else (if values[0] < x then 1 else 0) + Below(values[1..], x)
  }

  lemma {:induction false} InsertCounts(y: real, values: seq<real>, x: real)
    ensures AtMost(Insert(y, values, RealLe), x) == AtMost([y] + values, x)
    ensures Below(Insert(y, values, RealLe), x) == Below([y] + values, x)
  {
    assert ([y] + values)[1..] == values;
    if values != [] && !RealLe(y, values[0]) {
      InsertCounts(y, values[1..], x);
      assert ([y] + values[1..])[1..] == values[1..];
      var s := [values[0]] + Insert(y, values[1..], RealLe);
      assert s[1..] == Insert(y, values[1..], RealLe);
    }
  }

  lemma {:induction false} SortCounts(values: seq<real>, x: real)
    ensures AtMost(Sort(values, RealLe), x) == AtMost(values, x)
    ensures Below(Sort(values, RealLe), x) == Below(values, x)
  {
    if values != [] {
      var rest := Sort(values[1..], RealLe);
      SortCounts(values[1..], x);
      InsertCounts(values[0], rest, x);
      assert ([values[0]] + rest)[1..] == rest;
    }
  }

  lemma {:induction false} SortedCounts(s: seq<real>, i: nat)
    requires Sorted(s, RealLe) && i < |s|
    ensures AtMost(s, s[i]) >= i + 1
    ensures Below(s, s[i]) <= i
  {
    if i == 0 {
      NoneBelow(s, s[0]);
    } else {
      assert s[0] <= s[i];
      SortedCounts(s[1..], i - 1);
    }
  }

  lemma {:induction false} NoneBelow(s: seq<real>, x: real)
    requires forall j :: 0 <= j < |s| ==> s[j] >= x
    ensures Below(s, x) == 0
  {
    if s != [] {
      NoneBelow(s[1..], x);
    }
  }

  lemma QuantilePosition(values: seq<real>, q: real)
    requires values != []
    ensures ComputeQuantile(values, q) in values
    ensures AtMost(values, ComputeQuantile(values, q)) >= Rank(|values|, q) + 1
    ensures Below(values, ComputeQuantile(values, q)) <= Rank(|values|, q)
  {
    var sorted := Sort(values, RealLe);
    SortElements(values, RealLe);
    SortSorted(values, RealLe);
    var i := Rank(|values|, q);
    assert sorted[i] in multiset(sorted);
    SortCounts(values, sorted[i]);
    SortedCounts(sorted, i);
  }

  /** The quantile is one of the values; a share of at least `q` of them lies
      at or below it and a share of less than `q` strictly below. */
  lemma QuantileRank(values: seq<real>, q: real, n: nat)
    requires n == |values| > 0 && 0.0 < q <= 1.0
    ensures var x := ComputeQuantile(values, q);
            x in values && Below(values, x) as real < q * n as real <= AtMost(values, x) as real
  {
    QuantilePosition(values, q);
    var x := ComputeQuantile(values, q);
    RankShare(n, q, AtMost(values, x), Below(values, x));
  }

  lemma RankShare(n: nat, q: real, atMost: nat, below: nat)
    requires n > 0 && 0.0 < q <= 1.0 && below <= Rank(n, q) < atMost
    ensures below as real < q * n as real <= atMost as real
  {
    RankPosition(n, q);
  }

  lemma RankPosition(n: nat, q: real)
    requires n > 0 && 0.0 < q <= 1.0
    ensures Rank(n, q) as real < q * n as real <= Rank(n, q) as real + 1.0
  {
    ProperShare(q, n as real);
    RankAtPosition(n, q * n as real);
  }

  lemma ProperShare(q: real, r: real)
    requires 0.0 < q <= 1.0 && 0.0 < r
    ensures 0.0 < q * r <= r
  {
    Scale(r, q, 1.0);
  }

  lemma RankAtPosition(n: nat, x: real)
    requires n > 0 && 0.0 < x <= n as real
    ensures RankAt(n, x) as real < x <= RankAt(n, x) as real + 1.0
  {
  }

  // ------------------------------------------------------- the partition

  /** `weights.get(f) ?? fallback` */
  function Effective(weights: WeightMap, fallback: real, f: string): real {
    if f in weights then weights[f] else fallback
  }

  function WeightOf(weights: WeightMap, fallback: real): string -> real {
    f => Effective(weights, fallback, f)
  }

  function JobOf(weights: WeightMap, fallback: real): string -> Job {
    f => Job(f, Effective(weights, fallback, f))
  }

  function Paths(jobs: seq<Job>): seq<string> { Map((j: Job) => j.path, jobs) }

  function Weights(jobs: seq<Job>): seq<real> { Map((j: Job) => j.weight, jobs) }

  /** The files in packing order with their effective weights. */
  function Jobs(files: seq<string>, weights: WeightMap, fallback: real): seq<Job> {
    Sort(Map(JobOf(weights, fallback), files), HeavierFirst)
  }

  /** The weights of a map, listed by path. */
  ghost function WeightValues(weights: WeightMap): (r: seq<real>)
    ensures |r| == |weights.Keys|
    ensures forall x :: x in r ==> exists f :: f in weights && weights[f] == x
  {
    StringOrder();
    var keys := Listing(weights.Keys, StringLe);
    NoDuplicates(keys, weights.Keys);
    Map(WeightOf(weights, 0.0), keys)
  }

  /** The weight of files the map does not know. */
  ghost function FallbackWeight(weights: WeightMap, given: Option<real>): real {
    if given.Some? then given.value
    else if ComputeQuantile(WeightValues(weights), 0.75) == 0.0 then 1.0
    else ComputeQuantile(WeightValues(weights), 0.75)
  }

  ghost function Lighter(weights: WeightMap, x: real): set<string> {
    set f | f in weights && weights[f] < x
  }

  ghost function NoHeavier(weights: WeightMap, x: real): set<string> {
    set f | f in weights && weights[f] <= x
  }

  /** `keys` lists the keys of `weights`, each once. */
  ghost predicate ListsKeys(weights: WeightMap, keys: seq<string>) {
    && (forall i, j :: 0 <= i < j < |keys| ==> keys[i] != keys[j])
    && (forall f :: f in keys <==> f in weights)
  }

  lemma TailListsKeys(weights: WeightMap, keys: seq<string>)
    requires ListsKeys(weights, keys) && keys != []
    ensures keys[0] in weights && ListsKeys(weights - {keys[0]}, keys[1..])
  {
    assert keys[0] in keys && keys == [keys[0]] + keys[1..];
    assert forall f :: f in keys <==> f == keys[0] || f in keys[1..];
    assert keys[0] !in keys[1..];
  }

  lemma TailValues(weights: WeightMap, keys: seq<string>)
    requires keys != [] && keys[0] in weights && ListsKeys(weights - {keys[0]}, keys[1..])
    ensures Map(WeightOf(weights, 0.0), keys)[0] == weights[keys[0]]
    ensures Map(WeightOf(weights, 0.0), keys)[1..] == Map(WeightOf(weights - {keys[0]}, 0.0), keys[1..])
  {
    var f, rest := keys[0], keys[1..];
    forall i | 0 <= i < |rest| ensures Effective(weights, 0.0, rest[i]) == Effective(weights - {f}, 0.0, rest[i]) {
      assert rest[i] in rest;
    }
  }

  lemma {:induction false} KeysCounted(weights: WeightMap, keys: seq<string>, x: real)
    requires ListsKeys(weights, keys)
    ensures var values := Map(WeightOf(weights, 0.0), keys);
            AtMost(values, x) == |NoHeavier(weights, x)| && Below(values, x) == |Lighter(weights, x)|
  {
    if keys == [] {
      assert NoHeavier(weights, x) == {} && Lighter(weights, x) == {};
    } else {
      TailListsKeys(weights, keys);
      TailValues(weights, keys);
      hide ListsKeys;
      hide NoHeavier;
      hide Lighter;
      KeysCounted(weights - {keys[0]}, keys[1..], x);
      CountedOneMore(weights, keys[0], x);
    }
  }

  lemma CountedOneMore(weights: WeightMap, f: string, x: real)
    requires f in weights
    ensures |NoHeavier(weights, x)| == |NoHeavier(weights - {f}, x)| + if weights[f] <= x then 1 else 0
    ensures |Lighter(weights, x)| == |Lighter(weights - {f}, x)| + if weights[f] < x then 1 else 0
  {
    var a, b := NoHeavier(weights - {f}, x), Lighter(weights - {f}, x);
    assert NoHeavier(weights, x) == if weights[f] <= x then a + {f} else a;
    assert Lighter(weights, x) == if weights[f] < x then b + {f} else b;
  }

  /** A weight that at least three files in four do not exceed, and fewer than
      three in four stay below. */
  ghost predicate IsThirdQuartile(weights: WeightMap, p: real) {
    && (exists f :: f in weights && weights[f] == p)
    && 4 * |Lighter(weights, p)| < 3 * |weights| <= 4 * |NoHeavier(weights, p)|
  }

  /** A file the map does not know weighs what the caller says; else the third
      quartile of the known weights, or 1 where that is 0 or nothing is known. */
  lemma FallbackIff(weights: WeightMap, given: Option<real>)
    ensures var x := FallbackWeight(weights, given);
            && (given.Some? ==> x == given.value)
            && (given.None? && |weights| == 0 ==> x == 1.0)
            && (given.None? && |weights| > 0 ==>
                  exists p :: IsThirdQuartile(weights, p) && x == if p == 0.0 then 1.0 else p)
  {
    hide IsThirdQuartile;
    hide WeightValues;
    if given.None? && |weights| > 0 {
      ThirdQuartile(weights);
    }
    hide ComputeQuantile;
    if given.None? && |weights| == 0 {
      NoWeights(weights);
    }
  }

  lemma NoWeights(weights: WeightMap)
    requires |weights| == 0
    ensures ComputeQuantile(WeightValues(weights), 0.75) == 0.0
  {
    hide Listing;
    StringOrder();
  }

  lemma ValuesAre(weights: WeightMap) returns (keys: seq<string>)
    ensures WeightValues(weights) == Map(WeightOf(weights, 0.0), keys) && ListsKeys(weights, keys)
    ensures |keys| == |weights|
  {
    hide Listing;
    hide StringLe;
    StringOrder();
    keys := Listing(weights.Keys, StringLe);
    NoDuplicates(keys, weights.Keys);
  }

  lemma ThirdQuartile(weights: WeightMap)
    requires |weights| > 0
    ensures IsThirdQuartile(weights, ComputeQuantile(WeightValues(weights), 0.75))
  {
    hide WeightValues;
    hide ComputeQuantile;
    hide AtMost;
    hide Below;
    hide NoHeavier;
    hide Lighter;
    hide ListsKeys;
    var keys := ValuesAre(weights);
    var values, p := WeightValues(weights), ComputeQuantile(WeightValues(weights), 0.75);
    QuantileRank(values, 0.75, |values|);
    KeysCounted(weights, keys, p);
  }

  /** The items assigned to `k`, in order. */
  function Bucket(items: seq<string>, asg: seq<nat>, k: nat): seq<string>
    requires |items| == |asg|
  {
    if items == [] then [] else
      Bucket(items[..|items| - 1], asg[..|items| - 1], k)
      + if asg[|items| - 1] == k then [items[|items| - 1]] else []
  }

  function Buckets(items: seq<string>, asg: seq<nat>, n: nat): (r: Shards)
    requires |items| == |asg|
    ensures |r| == n && forall k :: 0 <= k < n ==> r[k] == Bucket(items, asg, k)
  {
    seq(n, k requires 0 <= k < n => Bucket(items, asg, k))
  }

  /** The shards greedy packing yields for jobs in packing order. */
  function Packed(jobs: seq<Job>, n: nat): (r: Shards)
    requires n > 0
    ensures |r| == n
  {
    Buckets(Paths(jobs), Greedy(Weights(jobs), n), n)
  }

  /** What `partition` answers. */
  ghost function Partitioned(files: seq<string>, weights: WeightMap, n: int, given: Option<real>): Result<Shards> {
    if n <= 0 then Err(BadShardCount(n))
    else if files == [] then Ok(seq(n, _ => []))
    else if given.Some? && given.value < 0.0 then Err(BadFallback(given.value))
    else Ok(Packed(Jobs(files, weights, FallbackWeight(weights, given)), n))
  }

  method ValuesInMapOrder(weights: WeightMap) returns (values: seq<real>)
    ensures multiset(values) == multiset(WeightValues(weights))
  {
    values := [];
    ghost var seen: seq<string> := [];
    var left := weights.Keys;
    while left != {}
      invariant left <= weights.Keys
      invariant multiset(seen) == multiset(weights.Keys - left)
      invariant values == Map(WeightOf(weights, 0.0), seen)
      decreases left
    {
      var f :| f in left;
      MapAppend(WeightOf(weights, 0.0), seen, f);
      values := values + [weights[f]];
      seen := seen + [f];
      assert weights.Keys - (left - {f}) == (weights.Keys - left) + {f};
      left := left - {f};
    }
    assert weights.Keys - left == weights.Keys;
    ValuesOfKeys(weights, seen);
  }

  lemma ValuesOfKeys(weights: WeightMap, keys: seq<string>)
    requires multiset(keys) == multiset(weights.Keys)
    ensures multiset(Map(WeightOf(weights, 0.0), keys)) == multiset(WeightValues(weights))
  {
    StringOrder();
    MapElements(WeightOf(weights, 0.0), keys, Listing(weights.Keys, StringLe));
  }

  method Partition(files: seq<string>, weights: WeightMap, n: int, fallbackWeight: Option<real>)
    returns (r: Result<Shards>)
    ensures r == Partitioned(files, weights, n, fallbackWeight)
  {
    if n <= 0 {
      return Err(BadShardCount(n));
    }
    if files == [] {
      return Ok(seq(n, _ => []));
    }
    var fallback;
    if fallbackWeight.Some? {
      if fallbackWeight.value < 0.0 {
        return Err(BadFallback(fallbackWeight.value));
      }
      fallback := fallbackWeight.value;
    } else {
      var values := ValuesInMapOrder(weights);
      fallback := ComputeQuantile(values, 0.75);
      QuantileOrderIndependent(values, WeightValues(weights), 0.75);
    }
    if fallback == 0.0 && fallbackWeight == None {
      fallback := 1.0;
    }
    var tuples := Jobs(files, weights, fallback);
    var shards := Pack(tuples, n, Paths(tuples), Weights(tuples));
    return Ok(shards);
  }

  /** The inner scan: a strict comparison keeps the lowest index among equals. */
  method LowestTotal(totals: array<real>) returns (minIdx: nat)
    requires totals.Length > 0
    ensures minIdx == ArgMin(totals[..])
  {
    minIdx := 0;
    for j := 1 to totals.Length
      invariant minIdx < j
      invariant forall k :: 0 <= k < j ==> totals[minIdx] <= totals[k]
      invariant forall k :: 0 <= k < minIdx ==> totals[minIdx] < totals[k]
    {
      if totals[j] < totals[minIdx] {
        minIdx := j;
      }
    }
  }

  /** The loop body: the job joins the lightest shard and its running total. */
  method Place(t: Job, shards: array<seq<string>>, totals: array<real>)
    requires shards.Length == totals.Length > 0
    modifies shards, totals
    ensures var m := ArgMin(old(totals[..]));
            && totals[..] == old(totals[..])[m := old(totals[m]) + t.weight]
            && shards[..] == old(shards[..])[m := old(shards[m]) + [t.path]]
  {
    var minIdx := LowestTotal(totals);
    shards[minIdx] := shards[minIdx] + [t.path];
    totals[minIdx] := totals[minIdx] + t.weight;
  }

  /** The packing loop: each job goes to the shard with the lowest running
      total, the lowest index among equals. */
  method Pack(tuples: seq<Job>, n: nat, ghost ps: seq<string>, ghost ws: seq<real>) returns (r: Shards)
    requires n > 0 && |tuples| == |ps| == |ws|
    requires forall i :: 0 <= i < |tuples| ==> tuples[i] == Job(ps[i], ws[i])
    ensures r == Buckets(ps, Greedy(ws, n), n)
  {
    hide Greedy;
    hide Loads;
    hide Buckets;
    hide ArgMin;
    var shards := new seq<string>[n](_ => []);
    var totals := new real[n](_ => 0.0);
    NothingPacked(ws, ps, n);
    for i := 0 to |tuples|
      invariant totals[..] == Loads(ws[..i], Greedy(ws[..i], n), n)
      invariant shards[..] == Buckets(ps[..i], Greedy(ws[..i], n), n)
    {
      PackedStep(ws, ps, i, n, totals[..], shards[..]);
      Place(tuples[i], shards, totals);
    }
    assert ws[..|tuples|] == ws && ps[..|tuples|] == ps;
    r := shards[..];
  }

  lemma RealOrder()
    ensures TotalOrder(RealLe)
  {
  }

  lemma QuantileOrderIndependent(a: seq<real>, b: seq<real>, q: real)
    requires multiset(a) == multiset(b)
    ensures ComputeQuantile(a, q) == ComputeQuantile(b, q)
  {
    RealOrder();
    SortOrderIndependent(a, b, RealLe);
    assert |a| == |multiset(a)| == |multiset(b)| == |b|;
  }

  lemma NothingPacked(ws: seq<real>, ps: seq<string>, n: nat)
    requires n > 0
    ensures forall k :: 0 <= k < n ==> Loads(ws[..0], Greedy(ws[..0], n), n)[k] == 0.0
    ensures forall k :: 0 <= k < n ==> Buckets(ps[..0], Greedy(ws[..0], n), n)[k] == []
  {
  }

  /** What one more job does to totals and shards. */
  lemma PackedStep(ws: seq<real>, ps: seq<string>, i: nat, n: nat, t: seq<real>, s: Shards)
    requires n > 0 && i < |ws| == |ps|
    requires t == Loads(ws[..i], Greedy(ws[..i], n), n) && s == Buckets(ps[..i], Greedy(ws[..i], n), n)
    ensures Loads(ws[..i + 1], Greedy(ws[..i + 1], n), n) == t[ArgMin(t) := t[ArgMin(t)] + ws[i]]
    ensures Buckets(ps[..i + 1], Greedy(ws[..i + 1], n), n) == s[ArgMin(t) := s[ArgMin(t)] + [ps[i]]]
  {
    hide Greedy;
    hide Load;
    hide Bucket;
    assert ws[..i + 1] == ws[..i] + [ws[i]];
    GreedyStep(ws[..i], ws[i], n);
    BucketsLast(ps[..i + 1], Greedy(ws[..i + 1], n), n);
    assert ps[..i + 1][..i] == ps[..i];
    assert Greedy(ws[..i + 1], n)[..i] == Greedy(ws[..i], n);
  }

  /** The last item joins the bucket it is assigned to. */
  lemma BucketsLast(items: seq<string>, asg: seq<nat>, n: nat)
    requires |asg| == |items| > 0 && asg[|items| - 1] < n
    ensures var m := |items| - 1;
            var s := Buckets(items[..m], asg[..m], n);
            Buckets(items, asg, n) == s[asg[m] := s[asg[m]] + [items[m]]]
  {
    var m := |items| - 1;
    forall k | 0 <= k < n && k != asg[m] ensures Bucket(items, asg, k) == Bucket(items[..m], asg[..m], k) {
      assert Bucket(items[..m], asg[..m], k) + [] == Bucket(items[..m], asg[..m], k);
    }
  }
}
