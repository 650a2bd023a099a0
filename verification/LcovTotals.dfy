/** `scripts/merge-lcov.ts`: what every number of the merged map is worth, in
    terms of the records the lanes hold. */
module LcovTotals {
  import opened Mapping
  import opened MapFold
  import opened Lcov
  import opened LcovMerge
  import SfPath

  // ------------------------------------------------- one list of entries

  /** The values of `k` added up. */
  function SumOf<K(==)>(pairs: seq<(K, int)>, k: K): int {
    if pairs == [] then 0 else
      var last := |pairs| - 1;
      SumOf(pairs[..last], k) + if pairs[last].0 == k then pairs[last].1 else 0
  }

  lemma {:induction false} AddsUp<K(!new)>(pairs: seq<(K, int)>, k: K)
    ensures k in BumpAll(map[], pairs, Add) <==> exists v :: (k, v) in pairs
    ensures k in BumpAll(map[], pairs, Add) ==> BumpAll(map[], pairs, Add)[k] == SumOf(pairs, k)
    ensures k !in BumpAll(map[], pairs, Add) ==> SumOf(pairs, k) == 0
  {
    KeyIff(pairs, k, Add);
    if pairs != [] {
      AddsUp(pairs[..|pairs| - 1], k);
    }
  }

  /** The lowest value of `k`. */
  ghost predicate IsLowest<K(!new)>(pairs: seq<(K, int)>, k: K, low: int) {
    (k, low) in pairs && forall v :: (k, v) in pairs ==> low <= v
  }

  lemma {:induction false} KeepsLowest<K(!new)>(pairs: seq<(K, int)>, k: K)
    requires k in BumpAll(map[], pairs, Lower)
    ensures IsLowest(pairs, k, BumpAll(map[], pairs, Lower)[k])
  {
    var last := |pairs| - 1;
    forall v { InLast(pairs, (k, v)); }
    if k in BumpAll(map[], pairs[..last], Lower) {
      KeepsLowest(pairs[..last], k);
    } else {
      KeyIff(pairs[..last], k, Lower);
    }
  }

  lemma KeyIff<K(!new)>(pairs: seq<(K, int)>, k: K, f: (int, int) -> int)
    ensures k in BumpAll(map[], pairs, f) <==> exists v :: (k, v) in pairs
  {
    hide BumpAll;
    BumpKeys(pairs, f);
    if v :| (k, v) in pairs {
      var i :| 0 <= i < |pairs| && pairs[i] == (k, v);
      assert pairs[i].0 == k;
    }
    if i :| 0 <= i < |pairs| && pairs[i].0 == k {
      var v := pairs[i].1;
      assert pairs[i] == (k, v);
      assert (k, v) in pairs;
    }
  }

  // --------------------------------------------------- records by file

  /** Hits of a line over all records of a file. */
  function DaTotal(recs: seq<(string, Record)>, f: string, l: int): int {
    if recs == [] then 0 else
      var last := recs[|recs| - 1];
      DaTotal(recs[..|recs| - 1], f, l) + if last.0 == f then SumOf(last.1.da, l) else 0
  }

  /** Calls of a function over all records of a file. */
  function FndaTotal(recs: seq<(string, Record)>, f: string, name: string): int {
    if recs == [] then 0 else
      var last := recs[|recs| - 1];
      FndaTotal(recs[..|recs| - 1], f, name) + if last.0 == f then SumOf(Map(ByName, last.1.fnda), name) else 0
  }

  ghost predicate HasDa(recs: seq<(string, Record)>, f: string, l: int) {
    exists r, h :: (f, r) in recs && (l, h) in r.da
  }

  ghost predicate HasFn(recs: seq<(string, Record)>, f: string, name: string, ln: int) {
    exists r :: (f, r) in recs && (ln, name) in r.fn
  }

  ghost predicate HasFnda(recs: seq<(string, Record)>, f: string, name: string) {
    exists r, h :: (f, r) in recs && (h, name) in r.fnda
  }

  ghost predicate DaMeans(m: Merged, recs: seq<(string, Record)>, f: string, l: int)
    requires f in m
  {
    && (l in m[f].da <==> HasDa(recs, f, l))
    && (if l in m[f].da then m[f].da[l] == DaTotal(recs, f, l) else DaTotal(recs, f, l) == 0)
  }

  ghost predicate FndaMeans(m: Merged, recs: seq<(string, Record)>, f: string, name: string)
    requires f in m
  {
    && (name in m[f].fnda <==> HasFnda(recs, f, name))
    && (if name in m[f].fnda then m[f].fnda[name] == FndaTotal(recs, f, name) else FndaTotal(recs, f, name) == 0)
  }

  ghost predicate FnMeans(m: Merged, recs: seq<(string, Record)>, f: string, name: string)
    requires f in m
  {
    && (name in m[f].fnLine <==> exists ln :: HasFn(recs, f, name, ln))
    && (name in m[f].fnLine ==>
          HasFn(recs, f, name, m[f].fnLine[name]) && forall ln :: HasFn(recs, f, name, ln) ==> m[f].fnLine[name] <= ln)
  }

  lemma SwapPairs(entries: seq<(int, string)>, n: int, name: string)
    ensures (name, n) in Map(ByName, entries) <==> (n, name) in entries
  {
    var swapped := Map(ByName, entries);
    if (n, name) in entries {
      var i :| 0 <= i < |entries| && entries[i] == (n, name);
      assert swapped[i] == (name, n);
    }
    if (name, n) in swapped {
      var i :| 0 <= i < |swapped| && swapped[i] == (name, n);
      assert entries[i] == (n, name);
    }
  }

  /** One record alone. */
  lemma RecordMeans(r: Record, l: int, name: string)
    ensures var f := FileOf(r);
            && (l in f.da <==> exists h :: (l, h) in r.da)
            && (if l in f.da then f.da[l] == SumOf(r.da, l) else SumOf(r.da, l) == 0)
            && (name in f.fnda <==> exists h :: (h, name) in r.fnda)
            && (var calls := SumOf(Map(ByName, r.fnda), name);
                if name in f.fnda then f.fnda[name] == calls else calls == 0)
            && (name in f.fnLine <==> exists ln :: (ln, name) in r.fn)
            && (name in f.fnLine ==> (f.fnLine[name], name) in r.fn)
            && (forall ln :: name in f.fnLine && (ln, name) in r.fn ==> f.fnLine[name] <= ln)
  {
    hide SumOf;
    hide BumpAll;
    hide Map;
    hide ByName;
    AddsUp(r.da, l);
    AddsUp(Map(ByName, r.fnda), name);
    KeyIff(Map(ByName, r.fn), name, Lower);
    if name in FileOf(r).fnLine { KeepsLowest(Map(ByName, r.fn), name); }
    forall h { SwapPairs(r.fnda, h, name); }
    forall ln { SwapPairs(r.fn, ln, name); }
  }

  /** One record more. */
  lemma MergedNext(recs: seq<(string, Record)>, n: nat)
    requires |recs| == n + 1
    ensures MergeAll(recs) == Merge(MergeAll(recs[..n]), recs[n].0, recs[n].1)
  {
    assert recs == recs[..n] + [recs[n]];
    MergeLast(recs[..n], recs[n]);
  }

  lemma DaNext(m: Merged, recs: seq<(string, Record)>, n: nat, f: string, l: int)
    requires |recs| == n + 1 && f in Merge(m, recs[n].0, recs[n].1)
    requires f in m ==> DaMeans(m, recs[..n], f, l)
    requires f !in m ==> forall r :: (f, r) !in recs[..n]
    requires f !in m ==> DaTotal(recs[..n], f, l) == 0
    ensures DaMeans(Merge(m, recs[n].0, recs[n].1), recs, f, l)
  {
    var (sf, r) := recs[n];
    RecordMeans(r, l, "");
    hide SumOf;
    hide FileOf;
    forall r { InLast(recs, (f, r)); }
    if sf == f {
      assert (f, r) in recs;
    }
  }

  lemma FndaNext(m: Merged, recs: seq<(string, Record)>, n: nat, f: string, name: string)
    requires |recs| == n + 1 && f in Merge(m, recs[n].0, recs[n].1)
    requires f in m ==> FndaMeans(m, recs[..n], f, name)
    requires f !in m ==> forall r :: (f, r) !in recs[..n]
    requires f !in m ==> FndaTotal(recs[..n], f, name) == 0
    ensures FndaMeans(Merge(m, recs[n].0, recs[n].1), recs, f, name)
  {
    var (sf, r) := recs[n];
    RecordMeans(r, 0, name);
    hide SumOf;
    hide FileOf;
    forall r { InLast(recs, (f, r)); }
    if sf == f {
      assert (f, r) in recs;
    }
  }

  lemma HasFnNext(recs: seq<(string, Record)>, n: nat, f: string, name: string, ln: int)
    requires |recs| == n + 1
    ensures HasFn(recs, f, name, ln) <==>
            HasFn(recs[..n], f, name, ln) || (recs[n].0 == f && (ln, name) in recs[n].1.fn)
  {
    forall r { InLast(recs, (f, r)); }
    if recs[n].0 == f && (ln, name) in recs[n].1.fn {
      assert (f, recs[n].1) in recs;
    }
  }

  lemma FnNext(m: Merged, recs: seq<(string, Record)>, n: nat, f: string, name: string)
    requires |recs| == n + 1 && f in Merge(m, recs[n].0, recs[n].1)
    requires f in m ==> FnMeans(m, recs[..n], f, name)
    requires f !in m ==> forall r :: (f, r) !in recs[..n]
    ensures FnMeans(Merge(m, recs[n].0, recs[n].1), recs, f, name)
  {
    var (sf, r) := recs[n];
    RecordMeans(r, 0, name);
    forall ln { HasFnNext(recs, n, f, name, ln); }
    assert f !in m ==> forall ln :: !HasFn(recs[..n], f, name, ln);
    hide FileOf;
    hide HasFn;
  }

  /** Everything the merged map says about one file. */
  ghost predicate FileMeans(m: Merged, recs: seq<(string, Record)>, f: string) {
    && (f in m <==> exists r :: (f, r) in recs)
    && (f in m ==>
          && (forall l :: DaMeans(m, recs, f, l))
          && (forall name :: FndaMeans(m, recs, f, name))
          && (forall name :: FnMeans(m, recs, f, name)))
  }

  lemma {:induction false} NothingTotal(recs: seq<(string, Record)>, f: string)
    requires forall r :: (f, r) !in recs
    ensures forall l :: DaTotal(recs, f, l) == 0
    ensures forall name :: FndaTotal(recs, f, name) == 0
  {
    if recs != [] {
      var last := |recs| - 1;
      forall r { InLast(recs, (f, r)); }
      assert (recs[last].0, recs[last].1) in recs;
      NothingTotal(recs[..last], f);
    }
  }

  /** Merging records: a file is there if some record is about it, a line or
      function if some such record lists it; hits and calls are the sums over
      those records, and a function's line the lowest they give. */
  lemma {:induction false} MergedMeans(recs: seq<(string, Record)>, f: string)
    ensures FileMeans(MergeAll(recs), recs, f)
  {
    hide MergeAll;
    hide DaMeans;
    hide FndaMeans;
    hide FnMeans;
    hide DaTotal;
    hide FndaTotal;
    if recs == [] {
      assert MergeAll([]) == map[] by { NoRecords(); }
    } else {
      var n := |recs| - 1;
      MergedMeans(recs[..n], f);
      MergedNext(recs, n);
      NextMeans(MergeAll(recs[..n]), recs, n, f);
    }
  }

  lemma NextMeans(m: Merged, recs: seq<(string, Record)>, n: nat, f: string)
    requires |recs| == n + 1 && FileMeans(m, recs[..n], f)
    ensures FileMeans(Merge(m, recs[n].0, recs[n].1), recs, f)
  {
    hide DaMeans;
    hide FndaMeans;
    hide FnMeans;
    hide DaTotal;
    hide FndaTotal;
    hide FileOf;
    hide PlusFile;
    var m' := Merge(m, recs[n].0, recs[n].1);
    forall r { InLast(recs, (f, r)); }
    if f !in m { NothingTotal(recs[..n], f); }
    if recs[n].0 == f { assert (f, recs[n].1) in recs; }
    if f in m' {
      forall l ensures DaMeans(m', recs, f, l) { DaNext(m, recs, n, f, l); }
      forall name ensures FndaMeans(m', recs, f, name) { FndaNext(m, recs, n, f, name); }
      forall name ensures FnMeans(m', recs, f, name) { FnNext(m, recs, n, f, name); }
    }
  }

  lemma NoRecords()
    ensures MergeAll([]) == map[]
  {
  }

  // ------------------------------------------------------------ the lanes

  /** Record `r` of some lane is about file `f`. */
  ghost predicate FromLanes(texts: seq<string>, repoRoot: string, f: string, r: Record) {
    f != "" && exists i :: 0 <= i < |texts| && r in Parse(texts[i]).records && SfPath.NormalizedSf(r.sf, repoRoot) == f
  }

  /** Some record of a lane about `f` places function `name` at line `ln`. */
  ghost predicate GivesLine(texts: seq<string>, repoRoot: string, f: string, name: string, ln: int) {
    exists r :: FromLanes(texts, repoRoot, f, r) && (ln, name) in r.fn
  }

  lemma {:induction false} PlacedIff(records: seq<Record>, repoRoot: string, f: string, r: Record)
    ensures (f, r) in Placed(records, repoRoot) <==>
            f != "" && r in records && SfPath.NormalizedSf(r.sf, repoRoot) == f
  {
    if records != [] {
      var last := |records| - 1;
      PlacedIff(records[..last], repoRoot, f, r);
      InLast(records, r);
    }
  }

  lemma {:induction false} AllRecordsIff(texts: seq<string>, repoRoot: string, f: string, r: Record)
    ensures (f, r) in AllRecords(texts, repoRoot) <==> FromLanes(texts, repoRoot, f, r)
  {
    hide Placed;
    hide Parse;
    hide SfPath.NormalizedSf;
    if texts != [] {
      var last := |texts| - 1;
      AllRecordsIff(texts[..last], repoRoot, f, r);
      PlacedIff(Parse(texts[last]).records, repoRoot, f, r);
      assert forall i :: 0 <= i < last ==> texts[i] == texts[..last][i];
    }
  }

  /** Hits of a line of `f` in the records of one lane. */
  function LaneHits(records: seq<Record>, repoRoot: string, f: string, l: int): int {
    if records == [] then 0 else
      var r := records[|records| - 1];
      LaneHits(records[..|records| - 1], repoRoot, f, l)
      + if SfPath.NormalizedSf(r.sf, repoRoot) == f then SumOf(r.da, l) else 0
  }

  function LaneCalls(records: seq<Record>, repoRoot: string, f: string, name: string): int {
    if records == [] then 0 else
      var r := records[|records| - 1];
      LaneCalls(records[..|records| - 1], repoRoot, f, name)
      + if SfPath.NormalizedSf(r.sf, repoRoot) == f then SumOf(Map(ByName, r.fnda), name) else 0
  }

  /** Hits and calls over all lanes; a malformed one has no records. */
  function AllHits(texts: seq<string>, repoRoot: string, f: string, l: int): int {
    if texts == [] then 0 else
      AllHits(texts[..|texts| - 1], repoRoot, f, l) + LaneHits(Parse(texts[|texts| - 1]).records, repoRoot, f, l)
  }

  function AllCalls(texts: seq<string>, repoRoot: string, f: string, name: string): int {
    if texts == [] then 0 else
      AllCalls(texts[..|texts| - 1], repoRoot, f, name) + LaneCalls(Parse(texts[|texts| - 1]).records, repoRoot, f, name)
  }

  lemma {:induction false} TotalConcat(a: seq<(string, Record)>, b: seq<(string, Record)>, f: string, l: int, name: string)
    ensures DaTotal(a + b, f, l) == DaTotal(a, f, l) + DaTotal(b, f, l)
    ensures FndaTotal(a + b, f, name) == FndaTotal(a, f, name) + FndaTotal(b, f, name)
  {
    hide SumOf;
    if b == [] {
      assert a + b == a;
    } else {
      var last := |b| - 1;
      TotalConcat(a, b[..last], f, l, name);
      assert (a + b)[..|a + b| - 1] == a + b[..last];
    }
  }

  lemma SingleTotal(sf: string, r: Record, f: string, l: int, name: string)
    ensures DaTotal([(sf, r)], f, l) == if sf == f then SumOf(r.da, l) else 0
    ensures FndaTotal([(sf, r)], f, name) == if sf == f then SumOf(Map(ByName, r.fnda), name) else 0
    ensures DaTotal([], f, l) == 0 && FndaTotal([], f, name) == 0
  {
    hide SumOf;
    assert [(sf, r)][..0] == [];
  }

  lemma {:induction false} PlacedTotal(records: seq<Record>, repoRoot: string, f: string, l: int, name: string)
    requires f != ""
    ensures DaTotal(Placed(records, repoRoot), f, l) == LaneHits(records, repoRoot, f, l)
    ensures FndaTotal(Placed(records, repoRoot), f, name) == LaneCalls(records, repoRoot, f, name)
  {
    hide SumOf;
    hide SfPath.NormalizedSf;
    hide DaTotal;
    hide FndaTotal;
    if records == [] {
      SingleTotal("", Record("", [], [], []), f, l, name);
    } else {
      var last := |records| - 1;
      PlacedTotal(records[..last], repoRoot, f, l, name);
      var sf := SfPath.NormalizedSf(records[last].sf, repoRoot);
      SingleTotal(sf, records[last], f, l, name);
      TotalConcat(Placed(records[..last], repoRoot), if sf == "" then [] else [(sf, records[last])], f, l, name);
    }
  }

  lemma {:induction false} LanesTotal(texts: seq<string>, repoRoot: string, f: string, l: int, name: string)
    requires f != ""
    ensures DaTotal(AllRecords(texts, repoRoot), f, l) == AllHits(texts, repoRoot, f, l)
    ensures FndaTotal(AllRecords(texts, repoRoot), f, name) == AllCalls(texts, repoRoot, f, name)
  {
    hide Parse;
    hide Placed;
    hide DaTotal;
    hide FndaTotal;
    hide LaneHits;
    hide LaneCalls;
    if texts == [] {
      NothingTotal([], f);
    } else {
      var last := |texts| - 1;
      LanesTotal(texts[..last], repoRoot, f, l, name);
      PlacedTotal(Parse(texts[last]).records, repoRoot, f, l, name);
      TotalConcat(AllRecords(texts[..last], repoRoot), LaneRecords(texts[last], repoRoot), f, l, name);
    }
  }

  /** The merged coverage of the lanes: exactly the files their records are
      about, with exactly the lines and functions those records list. */
  lemma MergedKeys(texts: seq<string>, repoRoot: string, f: string)
    ensures var m := MergeLanes(texts, repoRoot);
            && (f in m <==> exists r :: FromLanes(texts, repoRoot, f, r))
            && (f in m ==>
                  && (forall l :: l in m[f].da <==> exists r, h :: FromLanes(texts, repoRoot, f, r) && (l, h) in r.da)
                  && (forall name :: name in m[f].fnda <==>
                        exists r, h :: FromLanes(texts, repoRoot, f, r) && (h, name) in r.fnda)
                  && (forall name :: name in m[f].fnLine <==>
                        exists ln :: GivesLine(texts, repoRoot, f, name, ln)))
  {
    hide MergeAll;
    hide AllRecords;
    hide DaTotal;
    hide FndaTotal;
    hide FromLanes;
    MergedMeans(AllRecords(texts, repoRoot), f);
    forall r { AllRecordsIff(texts, repoRoot, f, r); }
    var m := MergeLanes(texts, repoRoot);
    if f in m {
      forall l ensures l in m[f].da <==> exists r, h :: FromLanes(texts, repoRoot, f, r) && (l, h) in r.da {
        assert DaMeans(m, AllRecords(texts, repoRoot), f, l);
      }
      forall name ensures name in m[f].fnda <==>
                          exists r, h :: FromLanes(texts, repoRoot, f, r) && (h, name) in r.fnda {
        assert FndaMeans(m, AllRecords(texts, repoRoot), f, name);
      }
      forall name ensures name in m[f].fnLine <==>
                          exists ln :: GivesLine(texts, repoRoot, f, name, ln) {
        assert FnMeans(m, AllRecords(texts, repoRoot), f, name);
        forall ln { LineFromLanes(texts, repoRoot, f, name, ln); }
      }
    }
  }

  lemma LineFromLanes(texts: seq<string>, repoRoot: string, f: string, name: string, ln: int)
    requires forall r :: (f, r) in AllRecords(texts, repoRoot) <==> FromLanes(texts, repoRoot, f, r)
    ensures HasFn(AllRecords(texts, repoRoot), f, name, ln) <==> GivesLine(texts, repoRoot, f, name, ln)
  {
    hide FromLanes;
    hide AllRecords;
  }

  /** And every number in it: hits and calls summed over all of them, and the
      lowest line any of them gives a function. */
  lemma MergedNumbers(texts: seq<string>, repoRoot: string, f: string)
    requires f in MergeLanes(texts, repoRoot)
    ensures var file := MergeLanes(texts, repoRoot)[f];
            && (forall l :: l in file.da ==> file.da[l] == AllHits(texts, repoRoot, f, l))
            && (forall name :: name in file.fnda ==> file.fnda[name] == AllCalls(texts, repoRoot, f, name))
            && (forall name :: name in file.fnLine ==>
                  && GivesLine(texts, repoRoot, f, name, file.fnLine[name])
                  && (forall ln :: GivesLine(texts, repoRoot, f, name, ln) ==> file.fnLine[name] <= ln))
  {
    hide MergeAll;
    hide AllRecords;
    hide DaTotal;
    hide FndaTotal;
    hide AllHits;
    hide AllCalls;
    MergedMeans(AllRecords(texts, repoRoot), f);
    forall r { AllRecordsIff(texts, repoRoot, f, r); }
    var m := MergeLanes(texts, repoRoot);
    var r :| (f, r) in AllRecords(texts, repoRoot);
    assert f != "";
    hide FromLanes;
    forall l ensures l in m[f].da ==> m[f].da[l] == AllHits(texts, repoRoot, f, l) {
      assert DaMeans(m, AllRecords(texts, repoRoot), f, l);
      LanesTotal(texts, repoRoot, f, l, "");
    }
    forall name ensures name in m[f].fnda ==> m[f].fnda[name] == AllCalls(texts, repoRoot, f, name) {
      assert FndaMeans(m, AllRecords(texts, repoRoot), f, name);
      LanesTotal(texts, repoRoot, f, 0, name);
    }
    forall name | name in m[f].fnLine
      ensures GivesLine(texts, repoRoot, f, name, m[f].fnLine[name])
      ensures forall ln :: GivesLine(texts, repoRoot, f, name, ln) ==> m[f].fnLine[name] <= ln
    {
      assert FnMeans(m, AllRecords(texts, repoRoot), f, name);
      forall ln { LineFromLanes(texts, repoRoot, f, name, ln); }
    }
  }
}
