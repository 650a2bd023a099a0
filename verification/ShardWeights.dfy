/** `scripts/mine-shard-weights.ts`: mining per-file weights from the start
    events of many jobs. */
module ShardWeights {
  import opened Sharding
  import opened ShardingLaws
  import opened Lpt
  import opened Text

  datatype Event = Event(job: string, ts: int, file: string)

  /** The events of one job, in stream order. */
  function OfJob(events: seq<Event>, job: string): seq<Event> {
    if events == [] then [] else
      var last := events[|events| - 1];
      OfJob(events[..|events| - 1], job) + if last.job == job then [last] else []
  }

  /** Event `i` of a job starts `file`, and the next event of the job is `ms`
      later, not earlier. */
  predicate GapAt(js: seq<Event>, i: int, file: string, ms: int) {
    0 <= i && i + 1 < |js| && js[i].file == file && ms == js[i + 1].ts - js[i].ts && ms >= 0
  }

  predicate Gap(js: seq<Event>, file: string, ms: int) {
    exists i :: 0 <= i < |js| && GapAt(js, i, file, ms)
  }

  /** Some job ran `file` for `ms`. */
  ghost predicate Observed(events: seq<Event>, file: string, ms: int) {
    exists job :: Gap(OfJob(events, job), file, ms)
  }

  type Weights = map<string, int>

  /** The weight of every file observed, and of no other, is its longest
      observation. */
  ghost predicate IsMined(w: Weights, events: seq<Event>) {
    && (forall f :: f in w ==> Observed(events, f, w[f]))
    && (forall f, ms :: Observed(events, f, ms) ==> f in w && ms <= w[f])
  }

  // ----------------------------------------------------------- the loops

  ghost predicate Bucketed(byJob: map<string, seq<Event>>, jobs: seq<string>, events: seq<Event>) {
    && (forall job :: job in byJob <==> job in jobs)
    && (forall job :: job in byJob ==> byJob[job] == OfJob(events, job))
    && (forall e :: e in events ==> e.job in byJob)
  }

  lemma {:induction false} NoEvents(events: seq<Event>, job: string)
    requires forall e :: e in events ==> e.job != job
    ensures OfJob(events, job) == []
  {
    if events != [] {
      NoEvents(events[..|events| - 1], job);
    }
  }

  lemma NextBucket(byJob: map<string, seq<Event>>, jobs: seq<string>, events: seq<Event>)
    requires events != [] && Bucketed(byJob, jobs, events[..|events| - 1])
    ensures var e := events[|events| - 1];
            if e.job in byJob then Bucketed(byJob[e.job := byJob[e.job] + [e]], jobs, events)
            else Bucketed(byJob[e.job := [e]], jobs + [e.job], events)
  {
    var before, e := events[..|events| - 1], events[|events| - 1];
    assert forall x :: x in events <==> x in before || x == e;
    if e.job !in byJob {
      NoEvents(before, e.job);
    }
  }

  method ByJob(events: seq<Event>) returns (byJob: map<string, seq<Event>>, jobs: seq<string>)
    ensures Bucketed(byJob, jobs, events)
  {
    byJob, jobs := map[], [];
    for i := 0 to |events|
      invariant Bucketed(byJob, jobs, events[..i])
    {
      hide Bucketed;
      var e := events[i];
      assert events[..i + 1][..i] == events[..i];
      NextBucket(byJob, jobs, events[..i + 1]);
      if e.job !in byJob {
        byJob := byJob[e.job := []];
        jobs := jobs + [e.job];
      }
      byJob := byJob[e.job := byJob[e.job] + [e]];
    }
    assert events[..|events|] == events;
  }

  /** Seen in the jobs done so far, or in the first `n` events of the current one. */
  ghost predicate Sofar(events: seq<Event>, jobs: seq<string>, js: seq<Event>, n: int, file: string, ms: int) {
    || (exists job :: job in jobs && Gap(OfJob(events, job), file, ms))
    || (exists i :: 0 <= i < n && GapAt(js, i, file, ms))
  }

  ghost predicate MinedSofar(w: Weights, events: seq<Event>, jobs: seq<string>, js: seq<Event>, n: int) {
    && (forall f :: f in w ==> Sofar(events, jobs, js, n, f, w[f]))
    && (forall f, ms :: Sofar(events, jobs, js, n, f, ms) ==> f in w && ms <= w[f])
  }

  lemma SofarNext(events: seq<Event>, jobs: seq<string>, js: seq<Event>, i: nat, n: nat, f: string, m: int)
    requires i + 1 == n < |js|
    ensures Sofar(events, jobs, js, n, f, m) <==>
            Sofar(events, jobs, js, i, f, m) || GapAt(js, i, f, m)
  {
    hide OfJob;
    hide GapAt;
  }

  lemma NextEvent(w: Weights, events: seq<Event>, jobs: seq<string>, js: seq<Event>, i: nat, n: nat)
    requires i + 1 == n < |js| && MinedSofar(w, events, jobs, js, i)
    ensures var file, ms := js[i].file, js[n].ts - js[i].ts;
            var w' := if ms < 0 || (file in w && ms <= w[file]) then w else w[file := ms];
            MinedSofar(w', events, jobs, js, n)
  {
    hide Sofar;
    forall f, m { SofarNext(events, jobs, js, i, n, f, m); }
  }

  lemma JobDone(w: Weights, events: seq<Event>, jobs: seq<string>, job: string, n: int)
    requires MinedSofar(w, events, jobs, OfJob(events, job), n) && n >= |OfJob(events, job)| - 1
    ensures MinedSofar(w, events, jobs + [job], [], 0)
  {
    var js := OfJob(events, job);
    forall f, ms ensures Sofar(events, jobs, js, n, f, ms) <==> Sofar(events, jobs + [job], [], 0, f, ms) {
      if Gap(js, f, ms) {
        var i :| 0 <= i < |js| && GapAt(js, i, f, ms);
        assert 0 <= i < n;
        assert job in jobs + [job];
      }
    }
  }

  method ComputeWeights(events: seq<Event>) returns (w: Weights)
    ensures IsMined(w, events)
  {
    hide OfJob;
    hide MinedSofar;
    hide IsMined;
    var byJob, jobs := ByJob(events);
    w := map[];
    NothingYet(events);
    for k := 0 to |jobs|
      invariant MinedSofar(w, events, jobs[..k], [], 0)
    {
      var job := jobs[k];
      var js := byJob[job];
      var i := 0;
      OtherJob(w, events, jobs[..k], js);
      while i + 1 < |js|
        invariant 0 <= i && (|js| == 0 || i < |js|)
        invariant MinedSofar(w, events, jobs[..k], js, i)
      {
        NextEvent(w, events, jobs[..k], js, i, i + 1);
        var file, ms := js[i].file, js[i + 1].ts - js[i].ts;
        i := i + 1;
        if ms < 0 { continue; }
        if file !in w || ms > w[file] {
          w := w[file := ms];
        }
      }
      JobDone(w, events, jobs[..k], job, i);
      assert jobs[..k + 1] == jobs[..k] + [job];
    }
    assert jobs[..|jobs|] == jobs;
    AllDone(w, events, byJob, jobs);
  }

  lemma NothingYet(events: seq<Event>)
    ensures MinedSofar(map[], events, [], [], 0)
  {
  }

  lemma OtherJob(w: Weights, events: seq<Event>, jobs: seq<string>, js: seq<Event>)
    requires MinedSofar(w, events, jobs, [], 0)
    ensures MinedSofar(w, events, jobs, js, 0)
  {
    assert forall f, ms :: Sofar(events, jobs, js, 0, f, ms) <==> Sofar(events, jobs, [], 0, f, ms);
  }

  lemma AllDone(w: Weights, events: seq<Event>, byJob: map<string, seq<Event>>, jobs: seq<string>)
    requires Bucketed(byJob, jobs, events) && MinedSofar(w, events, jobs, [], 0)
    ensures IsMined(w, events)
  {
    forall f, ms ensures Observed(events, f, ms) <==> Sofar(events, jobs, [], 0, f, ms) {
      if Observed(events, f, ms) {
        var job :| Gap(OfJob(events, job), f, ms);
        if job !in jobs {
          NoEvents(events, job);
        }
      }
    }
  }

  // ------------------------------------------------------------ the laws

  /** Each job's own events come in the same order in both streams. */
  ghost predicate SameJobs(a: seq<Event>, b: seq<Event>) {
    forall job :: OfJob(a, job) == OfJob(b, job)
  }

  /** However the jobs' lines are interleaved, the weights are the same. */
  lemma InterleavingIrrelevant(a: seq<Event>, b: seq<Event>, wa: Weights, wb: Weights)
    requires SameJobs(a, b) && IsMined(wa, a) && IsMined(wb, b)
    ensures wa == wb
  {
    hide OfJob;
    forall f, ms ensures Observed(a, f, ms) <==> Observed(b, f, ms) {
      if Observed(a, f, ms) {
        var job :| Gap(OfJob(a, job), f, ms);
        assert Gap(OfJob(b, job), f, ms);
      }
      if Observed(b, f, ms) {
        var job :| Gap(OfJob(b, job), f, ms);
        assert Gap(OfJob(a, job), f, ms);
      }
    }
    assert forall f :: f in wa <==> f in wb;
    assert forall f :: f in wa ==> wa[f] == wb[f];
  }

  /** One job, in order of time, starting every file once. */
  predicate OneJob(events: seq<Event>) {
    && (forall i, j :: 0 <= i < j < |events| ==> events[i].job == events[j].job)
    && (forall i, j :: 0 <= i < j < |events| ==> events[i].ts <= events[j].ts && events[i].file != events[j].file)
  }

  lemma {:induction false} OfItsJob(events: seq<Event>, job: string)
    requires forall e :: e in events ==> e.job == job
    ensures OfJob(events, job) == events
  {
    if events != [] {
      OfItsJob(events[..|events| - 1], job);
    }
  }

  /** The weights of the first `n` files of the job. */
  function WeightSum(w: Weights, events: seq<Event>, n: nat): int
    requires n <= |events| && forall i :: 0 <= i < n ==> events[i].file in w
  {
    if n == 0 then 0 else WeightSum(w, events, n - 1) + w[events[n - 1].file]
  }

  lemma OneJobWeight(w: Weights, events: seq<Event>)
    requires OneJob(events) && IsMined(w, events)
    ensures forall f :: f in w <==> exists i :: 0 <= i < |events| - 1 && events[i].file == f
    ensures forall i :: 0 <= i < |events| - 1 ==> events[i].file in w && w[events[i].file] == events[i + 1].ts - events[i].ts
  {
    hide OfJob;
    if events == [] {
      assert forall job :: OfJob(events, job) == [] by { forall job ensures OfJob(events, job) == [] { NoEvents(events, job); } }
    } else {
      var its := events[0].job;
      assert forall e :: e in events ==> e.job == its;
      OfItsJob(events, its);
      forall job | job != its ensures OfJob(events, job) == [] { NoEvents(events, job); }
      forall f, ms ensures Observed(events, f, ms) <==> Gap(events, f, ms) {
        if Observed(events, f, ms) {
          var job :| Gap(OfJob(events, job), f, ms);
          assert job == its;
        }
      }
    }
    forall i | 0 <= i < |events| - 1
      ensures events[i].file in w && w[events[i].file] == events[i + 1].ts - events[i].ts
    {
      var f, ms := events[i].file, events[i + 1].ts - events[i].ts;
      assert GapAt(events, i, f, ms);
      assert Observed(events, f, ms);
      var j :| 0 <= j < |events| && GapAt(events, j, f, w[f]);
      assert j == i;
    }
    forall f | f in w ensures exists i :: 0 <= i < |events| - 1 && events[i].file == f {
      var j :| 0 <= j < |events| && GapAt(events, j, f, w[f]);
    }
  }

  lemma {:induction false} SumTo(w: Weights, events: seq<Event>, n: nat)
    requires OneJob(events) && IsMined(w, events) && n < |events|
    ensures forall i :: 0 <= i < n ==> events[i].file in w
    ensures WeightSum(w, events, n) == events[n].ts - events[0].ts
  {
    hide IsMined;
    OneJobWeight(w, events);
    if n > 0 {
      SumTo(w, events, n - 1);
    }
  }

  /** Over one job the weights - one for every file but the last - add up to
      the time from its first event to its last. */
  lemma Telescopes(w: Weights, events: seq<Event>)
    requires OneJob(events) && IsMined(w, events) && events != []
    ensures w.Keys == set i | 0 <= i < |events| - 1 :: events[i].file
    ensures forall i :: 0 <= i < |events| - 1 ==> events[i].file in w
    ensures WeightSum(w, events, |events| - 1) == events[|events| - 1].ts - events[0].ts
  {
    hide IsMined;
    hide OneJob;
    OneJobWeight(w, events);
    SumTo(w, events, |events| - 1);
  }

  /** The weights as the sharder reads them. */
  function AsWeightMap(w: Weights): WeightMap {
    map f | f in w :: w[f] as real
  }

  /** Whatever the log, sharding by the weights mined from it keeps the
      sharder's bound. */
  lemma MinedWeightsPackWell(events: seq<Event>, w: Weights, files: seq<string>, n: int, given: Option<real>, other: Shards)
    requires IsMined(w, events)
    requires Partitioned(files, AsWeightMap(w), n, given).Ok?
    requires |other| == n && Partitions(other, files)
    ensures var fallback := FallbackWeight(AsWeightMap(w), given);
            Makespan(AsWeightMap(w), fallback, Partitioned(files, AsWeightMap(w), n, given).value)
            <= Guarantee(n, Makespan(AsWeightMap(w), fallback, other))
  {
    hide Partitioned;
    hide Partitions;
    hide Makespan;
    hide Guarantee;
    forall f | f in w ensures w[f] >= 0 {
      assert Observed(events, f, w[f]);
    }
    WithinFourThirds(files, AsWeightMap(w), n, given, other);
  }
}
