/** Longest-processing-time-first list scheduling over job weights, and its
    4/3 - 1/(3n) makespan bound.

    A job is a position in the weight list, an assignment names the machine
    of every job. Every counting argument below is one fact used with
    different weights: machine loads add up to the total weight. */
module Lpt {

  ghost predicate IsAssignment(asg: seq<nat>, jobs: nat, n: nat) {
    |asg| == jobs && forall l :: 0 <= l < |asg| ==> asg[l] < n
  }

  ghost predicate NonNegative(w: seq<real>) {
    forall l :: 0 <= l < |w| ==> w[l] >= 0.0
  }

  ghost predicate Descending(w: seq<real>) {
    forall l, m :: 0 <= l < m < |w| ==> w[l] >= w[m]
  }

  function Sum(w: seq<real>): real {
    if w == [] then 0.0 else Sum(w[..|w| - 1]) + w[|w| - 1]
  }

  /** Total weight of the jobs assigned to machine `k`. */
  function Load(w: seq<real>, asg: seq<nat>, k: nat): real
    requires |w| == |asg|
  {
    if w == [] then 0.0 else
      Load(w[..|w| - 1], asg[..|w| - 1], k) + if asg[|w| - 1] == k then w[|w| - 1] else 0.0
  }

  function Loads(w: seq<real>, asg: seq<nat>, n: nat): (t: seq<real>)
    requires |w| == |asg|
    ensures |t| == n && forall k :: 0 <= k < n ==> t[k] == Load(w, asg, k)
  {
    seq(n, k requires 0 <= k < n => Load(w, asg, k))
  }

  /** The lowest position holding the least value. */
  function ArgMin(t: seq<real>): (i: nat)
    requires t != []
    ensures i < |t|
    ensures forall k :: 0 <= k < |t| ==> t[i] <= t[k]
    ensures forall k :: 0 <= k < i ==> t[i] < t[k]
  {
    if |t| == 1 then 0 else
      var i := ArgMin(t[..|t| - 1]);
      if t[|t| - 1] < t[i] then |t| - 1 else i
  }

  /** Each job in turn goes to the machine with the least load so far. */
  function Greedy(w: seq<real>, n: nat): (asg: seq<nat>)
    requires n > 0
    ensures |asg| == |w| && forall l :: 0 <= l < |asg| ==> asg[l] < n
  {
    if w == [] then [] else
      var before := w[..|w| - 1];
      var asg := Greedy(before, n);
      asg + [ArgMin(Loads(before, asg, n))]
  }

  /** One greedy step: one machine gains the new job. */
  lemma GreedyStep(before: seq<real>, x: real, n: nat)
    requires n > 0
    ensures Greedy(before + [x], n) == Greedy(before, n) + [ArgMin(Loads(before, Greedy(before, n), n))]
    ensures Loads(before + [x], Greedy(before + [x], n), n) ==
            var t := Loads(before, Greedy(before, n), n);
            t[ArgMin(t) := t[ArgMin(t)] + x]
  {
    var w := before + [x];
    assert w[..|before|] == before;
    assert Greedy(w, n)[..|before|] == Greedy(before, n);
  }

  lemma GreedyStepAt(before: seq<real>, x: real, n: nat, k: nat)
    requires n > 0 && k < n
    ensures Load(before + [x], Greedy(before + [x], n), k) ==
            var t := Loads(before, Greedy(before, n), n);
            if k == ArgMin(t) then t[k] + x else t[k]
  {
    GreedyStep(before, x, n);
    assert Loads(before + [x], Greedy(before + [x], n), n)[k] == Load(before + [x], Greedy(before + [x], n), k);
  }

  // ------------------------------------------------- loads and the total

  /** Loads of machines 0..k-1 together. */
  ghost function LoadUpTo(w: seq<real>, asg: seq<nat>, k: nat): real
    requires |w| == |asg|
  {
    if k == 0 then 0.0 else LoadUpTo(w, asg, k - 1) + Load(w, asg, k - 1)
  }

  lemma {:induction false} LoadUpToStep(w: seq<real>, asg: seq<nat>, k: nat)
    requires |w| == |asg| > 0
    ensures LoadUpTo(w, asg, k) == LoadUpTo(w[..|w| - 1], asg[..|w| - 1], k)
                                   + if asg[|w| - 1] < k then w[|w| - 1] else 0.0
  {
    if k > 0 {
      LoadUpToStep(w, asg, k - 1);
    }
  }

  lemma {:induction false} EmptyLoadUpTo(k: nat)
    ensures LoadUpTo([], [], k) == 0.0
  {
    if k > 0 {
      EmptyLoadUpTo(k - 1);
    }
  }

  /** The loads of all machines add up to the weight of all jobs. */
  lemma {:induction false} LoadsSumToTotal(w: seq<real>, asg: seq<nat>, n: nat)
    requires IsAssignment(asg, |w|, n)
    ensures LoadUpTo(w, asg, n) == Sum(w)
  {
    if w == [] {
      EmptyLoadUpTo(n);
    } else {
      LoadUpToStep(w, asg, n);
      LoadsSumToTotal(w[..|w| - 1], asg[..|w| - 1], n);
    }
  }

  lemma {:induction false} LowerUpTo(w: seq<real>, asg: seq<nat>, k: nat, lo: real)
    requires |w| == |asg|
    requires forall i :: 0 <= i < k ==> lo <= Load(w, asg, i)
    ensures k as real * lo <= LoadUpTo(w, asg, k)
  {
    if k > 0 {
      LowerUpTo(w, asg, k - 1, lo);
      assert k as real * lo == (k - 1) as real * lo + lo;
    }
  }

  lemma {:induction false} UpperUpTo(w: seq<real>, asg: seq<nat>, k: nat, hi: real)
    requires |w| == |asg|
    requires forall i :: 0 <= i < k ==> Load(w, asg, i) <= hi
    ensures LoadUpTo(w, asg, k) <= k as real * hi
  {
    if k > 0 {
      UpperUpTo(w, asg, k - 1, hi);
      assert k as real * hi == (k - 1) as real * hi + hi;
    }
  }

  /** n machines with at least `lo` each carry at least n times `lo`. */
  lemma LowerAverage(w: seq<real>, asg: seq<nat>, n: nat, lo: real)
    requires IsAssignment(asg, |w|, n)
    requires forall i :: 0 <= i < n ==> lo <= Load(w, asg, i)
    ensures n as real * lo <= Sum(w)
  {
    LoadsSumToTotal(w, asg, n);
    LowerUpTo(w, asg, n, lo);
  }

  /** n machines with at most `hi` each carry at most n times `hi`. */
  lemma UpperAverage(w: seq<real>, asg: seq<nat>, n: nat, hi: real)
    requires IsAssignment(asg, |w|, n)
    requires forall i :: 0 <= i < n ==> Load(w, asg, i) <= hi
    ensures Sum(w) <= n as real * hi
  {
    LoadsSumToTotal(w, asg, n);
    UpperUpTo(w, asg, n, hi);
  }

  // ------------------------------------------------ jobs on one machine

  lemma {:induction false} LoadNonNegative(w: seq<real>, asg: seq<nat>, k: nat)
    requires |w| == |asg| && NonNegative(w)
    ensures Load(w, asg, k) >= 0.0
  {
    if w != [] {
      LoadNonNegative(w[..|w| - 1], asg[..|w| - 1], k);
    }
  }

  /** Taking job `l` out of machine `k` lowers its load by that job. */
  lemma {:induction false} TakeOut(w: seq<real>, asg: seq<nat>, k: nat, l: nat)
    requires |w| == |asg| && l < |w| && asg[l] == k
    ensures Load(w, asg, k) == w[l] + Load(w[l := 0.0], asg, k)
  {
    var m := |w| - 1;
    var z := w[l := 0.0];
    if l == m {
      assert z[..m] == w[..m];
    } else {
      TakeOut(w[..m], asg[..m], k, l);
      assert z[..m] == w[..m][l := 0.0];
    }
  }

  lemma {:induction false} NothingThere(w: seq<real>, asg: seq<nat>, k: nat)
    requires |w| == |asg|
    requires forall q :: 0 <= q < |w| && asg[q] == k ==> w[q] == 0.0
    ensures Load(w, asg, k) == 0.0
  {
    if w != [] {
      NothingThere(w[..|w| - 1], asg[..|w| - 1], k);
    }
  }

  /** The only job of a machine is its load. */
  lemma Alone(w: seq<real>, asg: seq<nat>, k: nat, l: nat)
    requires |w| == |asg| && l < |w| && asg[l] == k
    requires forall q :: 0 <= q < |w| && q != l ==> asg[q] != k
    ensures Load(w, asg, k) == w[l]
  {
    TakeOut(w, asg, k, l);
    NothingThere(w[l := 0.0], asg, k);
  }

  /** Two jobs of a machine weigh no more than its load. */
  lemma AtLeastTwo(w: seq<real>, asg: seq<nat>, k: nat, l: nat, q: nat)
    requires |w| == |asg| && NonNegative(w)
    requires l < |w| && q < |w| && l != q && asg[l] == k && asg[q] == k
    ensures Load(w, asg, k) >= w[l] + w[q]
  {
    var z := w[l := 0.0];
    TakeOut(w, asg, k, l);
    TakeOut(z, asg, k, q);
    LoadNonNegative(z[q := 0.0], asg, k);
  }

  lemma AtLeastThree(w: seq<real>, asg: seq<nat>, k: nat, l: nat, q: nat, r: nat)
    requires |w| == |asg| && NonNegative(w)
    requires l < |w| && q < |w| && r < |w| && l != q && l != r && q != r
    requires asg[l] == k && asg[q] == k && asg[r] == k
    ensures Load(w, asg, k) >= w[l] + w[q] + w[r]
  {
    TakeOut(w, asg, k, l);
    AtLeastTwo(w[l := 0.0], asg, k, q, r);
  }

  /** The only two jobs of a machine are its load. */
  lemma ExactlyTwo(w: seq<real>, asg: seq<nat>, k: nat, l: nat, q: nat)
    requires |w| == |asg| && l < |w| && q < |w| && l != q && asg[l] == k && asg[q] == k
    requires forall r :: 0 <= r < |w| && r != l && r != q ==> asg[r] != k
    ensures Load(w, asg, k) == w[l] + w[q]
  {
    var z := w[l := 0.0];
    TakeOut(w, asg, k, l);
    TakeOut(z, asg, k, q);
    NothingThere(z[q := 0.0], asg, k);
  }

  // ---------------------------------------- large jobs: greedy is optimal

  /** Job `l` shares its machine with no other. */
  ghost predicate Single(asg: seq<nat>, l: nat)
    requires l < |asg|
  {
    forall q :: 0 <= q < |asg| && q != l ==> asg[q] != asg[l]
  }

  /** Two tokens for a job that is alone under `asg`, one for any other job. */
  ghost function Tokens(asg: seq<nat>): (v: seq<real>)
    ensures |v| == |asg|
    ensures forall l :: 0 <= l < |v| ==> v[l] == if Single(asg, l) then 2.0 else 1.0
  {
    seq(|asg|, l requires 0 <= l < |asg| => if Single(asg, l) then 2.0 else 1.0)
  }

  /** A machine with work holds two tokens or more. */
  lemma BusyHoldsTwo(w: seq<real>, g: seq<nat>, k: nat)
    requires |w| == |g| && Load(w, g, k) != 0.0
    ensures Load(Tokens(g), g, k) >= 2.0
  {
    if forall q :: 0 <= q < |w| ==> g[q] != k {
      NothingThere(w, g, k);
    }
    var l :| 0 <= l < |g| && g[l] == k;
    if Single(g, l) {
      Alone(Tokens(g), g, k, l);
    } else {
      var q :| 0 <= q < |g| && q != l && g[q] == k;
      AtLeastTwo(Tokens(g), g, k, l, q);
    }
  }

  /** The setting of the counting argument: `a` packs the jobs `w + [x]`, all
      heavier than a third of `M`, under height `M`; a job alone on its machine
      under `g` leaves no room there for `x`. */
  ghost predicate Crowded(w: seq<real>, x: real, g: seq<nat>, a: seq<nat>, n: nat, M: real) {
    && |g| == |w| && IsAssignment(a, |w| + 1, n)
    && Descending(w + [x]) && 3.0 * x > M
    && (forall k :: 0 <= k < n ==> Load(w + [x], a, k) <= M)
    && (forall p :: 0 <= p < |w| && Single(g, p) ==> w[p] + x > M)
  }

  /** Such crowding is possible: of the jobs 3 and 2 the first fills a machine
      of height 3, and two machines hold both. */
  lemma CrowdedWitness()
    ensures Crowded([3.0], 2.0, [0], [0, 1], 2, 3.0)
  {
    var jobs, a := [3.0] + [2.0], [0, 1];
    assert jobs == [3.0, 2.0] && jobs[..1] == [3.0] && a[..1] == [0] && jobs[..1][..0] == [] && a[..1][..0] == [];
    forall k | 0 <= k < 2 ensures Load(jobs, a, k) <= 3.0 {
      assert Load(jobs[..1], a[..1], k) == if k == 0 then 3.0 else 0.0;
    }
  }

  /** A job alone under `g` is alone in the packing of height `M`. */
  lemma SingleStaysAlone(w: seq<real>, x: real, g: seq<nat>, a: seq<nat>, n: nat, M: real, p: nat, q: nat)
    requires Crowded(w, x, g, a, n, M) && x >= 0.0
    requires p < |w| && q < |w| + 1 && p != q && Single(g, p)
    ensures a[p] != a[q]
  {
    var jobs := w + [x];
    assert jobs[p] == w[p];
    assert jobs[q] >= x by { assert jobs[|w|] == x; }
    forall l | 0 <= l < |jobs| ensures jobs[l] >= 0.0 { assert jobs[|w|] == x; }
    if a[p] == a[q] {
      AtLeastTwo(jobs, a, a[p], p, q);
    }
  }

  /** No machine of such a packing holds more than two tokens. */
  lemma PackedHoldsTwo(w: seq<real>, x: real, g: seq<nat>, a: seq<nat>, n: nat, M: real, k: nat)
    requires Crowded(w, x, g, a, n, M) && x >= 0.0 && k < n
    ensures 0.0 <= Load(Tokens(g) + [1.0], a, k) <= 2.0
  {
    var jobs := w + [x];
    var v := Tokens(g) + [1.0];
    assert forall l :: 0 <= l < |jobs| ==> jobs[l] >= x by { assert jobs[|w|] == x; }
    LoadNonNegative(v, a, k);
    if l :| 0 <= l < |v| && a[l] == k {
      if q :| 0 <= q < |v| && q != l && a[q] == k {
        if r :| 0 <= r < |v| && r != l && r != q && a[r] == k {
          AtLeastThree(jobs, a, k, l, q, r);
          assert false;
        }
        ExactlyTwo(v, a, k, l, q);
        if l < |w| && Single(g, l) { SingleStaysAlone(w, x, g, a, n, M, l, q); }
        if q < |w| && Single(g, q) { SingleStaysAlone(w, x, g, a, n, M, q, l); }
      } else {
        Alone(v, a, k, l);
      }
    } else {
      NothingThere(v, a, k);
    }
  }

  /** Large jobs: when every job is heavier than a third of `M` and some
      assignment packs them all under `M`, the job greedy places next fits
      under `M` on some machine. Were there no room, greedy's machines would
      hold 2n tokens on `w` alone, and the packing, which holds one job more,
      could not stay within its own 2n. */
  lemma RoomRemains(w: seq<real>, x: real, g: seq<nat>, a: seq<nat>, n: nat, M: real)
    requires IsAssignment(g, |w|, n) && IsAssignment(a, |w| + 1, n)
    requires Descending(w + [x]) && 0.0 <= x <= M < 3.0 * x
    requires forall k :: 0 <= k < n ==> Load(w + [x], a, k) <= M
    ensures exists k :: 0 <= k < n && Load(w, g, k) + x <= M
  {
    if forall k :: 0 <= k < n ==> Load(w, g, k) + x > M {
      var v := Tokens(g);
      forall p | 0 <= p < |w| && Single(g, p) ensures w[p] + x > M {
        Alone(w, g, g[p], p);
      }
      forall k | 0 <= k < n ensures 2.0 <= Load(v, g, k) {
        BusyHoldsTwo(w, g, k);
      }
      forall k | 0 <= k < n ensures Load(v + [1.0], a, k) <= 2.0 {
        PackedHoldsTwo(w, x, g, a, n, M, k);
      }
      LowerAverage(v, g, n, 2.0);
      assert (v + [1.0])[..|v|] == v;
      UpperAverage(v + [1.0], a, n, 2.0);
      assert false;
    }
  }

  // --------------------------------------------------------- the theorem

  lemma {:induction false} JobBelowHeight(w: seq<real>, asg: seq<nat>, n: nat, M: real)
    requires w != [] && NonNegative(w) && IsAssignment(asg, |w|, n)
    requires forall k :: 0 <= k < n ==> Load(w, asg, k) <= M
    ensures w[|w| - 1] <= M
  {
    var k := asg[|w| - 1];
    LoadNonNegative(w[..|w| - 1], asg[..|w| - 1], k);
    assert Load(w, asg, k) <= M;
  }

  lemma Scale(r: real, x: real, y: real)
    requires 0.0 <= r && x <= y
    ensures r * x <= r * y
  {
  }

  /** The 4/3 - 1/(3n) guarantee for n machines against height `M`. */
  ghost function Guarantee(n: nat, M: real): real
    requires n > 0
  {
    (4.0 / 3.0 - 1.0 / (3.0 * n as real)) * M
  }

  lemma GuaranteeFromProduct(n: nat, M: real, t: real)
    requires n > 0 && n as real * t <= n as real * M + (n as real - 1.0) * M / 3.0
    ensures t <= Guarantee(n, M)
  {
    var r := n as real;
    var inv := 1.0 / r;
    assert inv * r == 1.0;
    assert 1.0 / (3.0 * r) == inv / 3.0;
    var rhs := r * M + (r - 1.0) * M / 3.0;
    Scale(inv, r * t, rhs);
    assert inv * (r * t) == inv * r * t == t;
    assert inv * rhs == (inv * r) * M + ((inv * r) - inv) * M / 3.0;
    assert Guarantee(n, M) == 4.0 / 3.0 * M - inv / 3.0 * M;
  }

  /** Jobs small against `M`: the averaging bound. */
  lemma SmallJob(n: nat, t: real, x: real, total: real, M: real)
    requires n > 0 && 3.0 * x <= M
    requires n as real * t <= total && total + x <= n as real * M
    ensures t + x <= Guarantee(n, M)
  {
    var r := n as real;
    Scale(r - 1.0, x, M / 3.0);
    assert r * (t + x) == r * t + r * x;
    assert r * x == x + (r - 1.0) * x;
    assert (r - 1.0) * M / 3.0 == (r - 1.0) * (M / 3.0);
    GuaranteeFromProduct(n, M, t + x);
  }

  lemma LargeJob(n: nat, t: real, M: real)
    requires n > 0 && t <= M && 0.0 <= M
    ensures t <= Guarantee(n, M)
  {
    var r := n as real;
    Scale(r, t, M);
    Scale(r - 1.0, 0.0, M);
    GuaranteeFromProduct(n, M, t);
  }

  /** A job placed on the least loaded machine keeps it within the bound. */
  lemma PlacedWithinBound(before: seq<real>, x: real, n: nat, g: seq<nat>, a: seq<nat>, M: real, t: real)
    requires n > 0 && NonNegative(before + [x]) && Descending(before + [x])
    requires IsAssignment(g, |before|, n) && IsAssignment(a, |before| + 1, n)
    requires forall i :: 0 <= i < n ==> Load(before + [x], a, i) <= M
    requires forall i :: 0 <= i < n ==> t <= Load(before, g, i)
    ensures t + x <= Guarantee(n, M)
  {
    var w := before + [x];
    assert w[..|before|] == before && w[|before|] == x;
    JobBelowHeight(w, a, n, M);
    if 3.0 * x <= M {
      LowerAverage(before, g, n, t);
      UpperAverage(w, a, n, M);
      SmallJob(n, t, x, Sum(before), M);
    } else {
      RoomRemains(before, x, g, a, n, M);
      LargeJob(n, t + x, M);
    }
  }

  lemma PrefixHeight(w: seq<real>, a: seq<nat>, n: nat, M: real, i: nat)
    requires w != [] && NonNegative(w) && IsAssignment(a, |w|, n) && i < n
    requires Load(w, a, i) <= M
    ensures Load(w[..|w| - 1], a[..|w| - 1], i) <= M
  {
  }

  /** Placing one more job keeps every machine within the bound. */
  lemma BoundKept(before: seq<real>, x: real, n: nat, g: seq<nat>, a: seq<nat>, M: real, k: nat)
    requires n > 0 && k < n && NonNegative(before + [x]) && Descending(before + [x])
    requires IsAssignment(g, |before|, n) && IsAssignment(a, |before| + 1, n)
    requires forall i :: 0 <= i < n ==> Load(before + [x], a, i) <= M
    requires Load(before, g, k) <= Guarantee(n, M)
    ensures var t := Loads(before, g, n);
            (if k == ArgMin(t) then t[k] + x else t[k]) <= Guarantee(n, M)
  {
    var t := Loads(before, g, n);
    if k == ArgMin(t) {
      PlacedWithinBound(before, x, n, g, a, M, t[k]);
    }
  }

  lemma BoundAfterLast(w: seq<real>, n: nat, a: seq<nat>, M: real, k: nat)
    requires w != [] && n > 0 && k < n && NonNegative(w) && Descending(w)
    requires IsAssignment(a, |w|, n)
    requires forall i :: 0 <= i < n ==> Load(w, a, i) <= M
    requires Load(w[..|w| - 1], Greedy(w[..|w| - 1], n), k) <= Guarantee(n, M)
    ensures Load(w, Greedy(w, n), k) <= Guarantee(n, M)
  {
    var before, x := w[..|w| - 1], w[|w| - 1];
    assert w == before + [x];
    BoundKept(before, x, n, Greedy(before, n), a, M, k);
    GreedyStepAt(before, x, n, k);
  }

  /** On jobs in descending order no greedy load exceeds 4/3 - 1/(3n) times
      the height of any assignment whatsoever. */
  lemma {:induction false} GreedyBound(w: seq<real>, n: nat, a: seq<nat>, M: real, k: nat)
    requires n > 0 && k < n && NonNegative(w) && Descending(w)
    requires IsAssignment(a, |w|, n)
    requires forall i :: 0 <= i < n ==> Load(w, a, i) <= M
    ensures Load(w, Greedy(w, n), k) <= Guarantee(n, M)
  {
    if w == [] {
      assert Load(w, a, 0) <= M;
      LargeJob(n, 0.0, M);
    } else {
      var m := |w| - 1;
      forall i | 0 <= i < n ensures Load(w[..m], a[..m], i) <= M { PrefixHeight(w, a, n, M, i); }
      GreedyBound(w[..m], n, a[..m], M, k);
      BoundAfterLast(w, n, a, M, k);
    }
  }

  /** Greedy loads differ by no more than the first, heaviest, job. */
  lemma {:induction false} GreedyGap(w: seq<real>, n: nat, k: nat, q: nat)
    requires n > 0 && k < n && q < n && w != [] && NonNegative(w) && Descending(w)
    ensures Load(w, Greedy(w, n), k) - Load(w, Greedy(w, n), q) <= w[0]
  {
    var m := |w| - 1;
    var before, g := w[..m], Greedy(w[..m], n);
    assert Greedy(w, n)[..m] == g;
    assert w[m] <= w[0];
    if m > 0 {
      GreedyGap(before, n, k, q);
    } else {
      NothingThere(before, g, k);
      NothingThere(before, g, q);
    }
  }

  lemma PlaceOn(w: seq<real>, l: nat, t: seq<real>, i: nat)
    requires l < |w| && |t| == 2 && i == (if t[0] <= t[1] then 0 else 1)
    requires Loads(w[..l], Greedy(w[..l], 2), 2) == t
    ensures Loads(w[..l + 1], Greedy(w[..l + 1], 2), 2) == t[i := t[i] + w[l]]
  {
    hide Greedy;
    hide Load;
    assert w[..l + 1] == w[..l] + [w[l]];
    GreedyStep(w[..l], w[l], 2);
  }

  /** The guarantee is tight: on weights 3, 3, 2, 2, 2 and two machines greedy
      reaches exactly the 7 it guarantees against the possible 6. */
  lemma GreedyBoundTight()
    ensures var w := [3.0, 3.0, 2.0, 2.0, 2.0];
            && Load(w, Greedy(w, 2), 0) == 7.0
            && Load(w, [0, 0, 1, 1, 1], 0) == 6.0 && Load(w, [0, 0, 1, 1, 1], 1) == 6.0
    ensures Guarantee(2, 6.0) == 7.0
  {
    var w := [3.0, 3.0, 2.0, 2.0, 2.0];
    hide Greedy;
    hide Load;
    NoLoads(w);
    PlaceOn(w, 0, [0.0, 0.0], 0);
    PlaceOn(w, 1, [3.0, 0.0], 1);
    PlaceOn(w, 2, [3.0, 3.0], 0);
    LastTwo(w);
    TightPacking(w);
  }

  lemma NoLoads(w: seq<real>)
    ensures Loads(w[..0], Greedy(w[..0], 2), 2) == [0.0, 0.0]
  {
  }

  lemma LastTwo(w: seq<real>)
    requires w == [3.0, 3.0, 2.0, 2.0, 2.0]
    requires Loads(w[..3], Greedy(w[..3], 2), 2) == [5.0, 3.0]
    ensures Load(w, Greedy(w, 2), 0) == 7.0
  {
    hide Greedy;
    hide Load;
    PlaceOn(w, 3, [5.0, 3.0], 1);
    PlaceOn(w, 4, [5.0, 5.0], 0);
    assert w[..5] == w;
    assert Loads(w, Greedy(w, 2), 2)[0] == 7.0;
  }

  lemma TightPacking(w: seq<real>)
    requires w == [3.0, 3.0, 2.0, 2.0, 2.0]
    ensures Load(w, [0, 0, 1, 1, 1], 0) == 6.0 && Load(w, [0, 0, 1, 1, 1], 1) == 6.0
  {
    var a := [0, 0, 1, 1, 1];
    ExactlyTwo(w, a, 0, 0, 1);
    TakeOut(w, a, 1, 2);
    TakeOut(w[2 := 0.0], a, 1, 3);
    TakeOut(w[2 := 0.0][3 := 0.0], a, 1, 4);
    NothingThere(w[2 := 0.0][3 := 0.0][4 := 0.0], a, 1);
  }

  // ------------------------------------------------------ equal weights

  /** What machine `k` carries once `jobs` jobs of weight `c` went round. */
  ghost function Turns(c: real, jobs: nat, n: nat, k: nat): real
    requires n > 0
  {
    c * (jobs / n) as real + if k < jobs % n then c else 0.0
  }

  /** Jobs of one positive weight go round the machines in turn. */
  lemma {:induction false} EqualWeightsRoundRobin(w: seq<real>, c: real, n: nat)
    requires n > 0 && c > 0.0 && forall l :: 0 <= l < |w| ==> w[l] == c
    ensures forall l :: 0 <= l < |w| ==> Greedy(w, n)[l] == l % n
    ensures forall k :: 0 <= k < n ==> Load(w, Greedy(w, n), k) == Turns(c, |w|, n, k)
  {
    if w == [] {
      assert 0 / n == 0 && 0 % n == 0;
    } else {
      var m := |w| - 1;
      var before := w[..m];
      EqualWeightsRoundRobin(before, c, n);
      assert w == before + [c];
      GreedyStep(before, c, n);
      var t := Loads(before, Greedy(before, n), n);
      LeastTurn(c, m, n, t);
      var t' := Loads(w, Greedy(w, n), n);
      forall k | 0 <= k < n ensures t'[k] == Turns(c, m + 1, n, k) { TurnsStep(c, m, n, k); }
    }
  }

  lemma LeastTurn(c: real, m: nat, n: nat, t: seq<real>)
    requires n > 0 && c > 0.0 && |t| == n && forall k :: 0 <= k < n ==> t[k] == Turns(c, m, n, k)
    ensures ArgMin(t) == m % n
  {
    assert t[m % n] == c * (m / n) as real;
  }

  lemma TurnsStep(c: real, m: nat, n: nat, k: nat)
    requires n > 0 && k < n
    ensures Turns(c, m + 1, n, k) == Turns(c, m, n, k) + if k == m % n then c else 0.0
  {
    NextTurn(m, n);
    assert c * (m / n + 1) as real == c * (m / n) as real + c;
  }

  lemma NextTurn(m: nat, n: nat)
    requires n > 0
    ensures m % n + 1 < n ==> (m + 1) / n == m / n && (m + 1) % n == m % n + 1
    ensures m % n + 1 == n ==> (m + 1) / n == m / n + 1 && (m + 1) % n == 0
  {
    assert m == m / n * n + m % n;
    if m % n + 1 < n {
      Quotient(m + 1, m / n, m % n + 1, n);
    } else {
      Quotient(m + 1, m / n + 1, 0, n);
    }
  }

  lemma Quotient(a: nat, q: nat, r: nat, n: nat)
    requires a == q * n + r && r < n
    ensures a / n == q && a % n == r
  {
    assert a == a / n * n + a % n;
    QuotientUnique(a / n, a % n, q, r, n);
  }

  lemma QuotientUnique(p: nat, s: nat, q: nat, r: nat, n: nat)
    requires p * n + s == q * n + r && s < n && r < n
    ensures p == q && s == r
  {
    if p < q {
      Multiples(p, q, n);
    } else if q < p {
      Multiples(q, p, n);
    }
  }

  lemma Multiples(p: nat, q: nat, n: nat)
    requires p < q
    ensures p * n + n <= q * n
  {
    assert q * n == p * n + (q - p) * n;
    assert (q - p) * n == n + (q - p - 1) * n;
  }
}
