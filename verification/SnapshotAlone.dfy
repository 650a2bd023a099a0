/** `scripts/build-pglite-snapshot.ts`: one builder running to its end while
    nobody else moves, from any state it may find. */
module SnapshotAlone {
  import opened SnapshotLock

  /** `n` steps of builder `i`; `aged` is what the lock directory looks like. */
  function Alone(s: State, i: nat, aged: bool, n: nat): (t: State)
    requires WellFormed(s) && i < |s.stages|
    ensures WellFormed(t) && t.targets == s.targets && |t.stages| == |s.stages|
    ensures forall j :: 0 <= j < |s.stages| && j != i ==> t.stages[j] == s.stages[j]
  {
    if n == 0 then s else Go(Alone(s, i, aged, n - 1), i, aged)
  }

  lemma {:induction false} AloneThen(s: State, i: nat, aged: bool, m: nat, n: nat)
    requires WellFormed(s) && i < |s.stages|
    ensures Alone(Alone(s, i, aged, m), i, aged, n) == Alone(s, i, aged, m + n)
  {
    hide Go;
    if n > 0 {
      AloneThen(s, i, aged, m, n - 1);
    }
  }

  lemma {:induction false} DoneIsDone(s: State, i: nat, aged: bool, n: nat)
    requires WellFormed(s) && i < |s.stages| && s.stages[i] == Done
    ensures Alone(s, i, aged, n) == s
  {
    hide LooksFresh;
    if n > 0 {
      DoneIsDone(s, i, aged, n - 1);
    }
  }

  lemma OneStep(s: State, i: nat, aged: bool)
    requires WellFormed(s) && i < |s.stages|
    ensures Alone(s, i, aged, 1) == Go(s, i, aged)
  {
    hide Go;
    assert Alone(s, i, aged, 0) == s;
  }

  lemma StepThen(s: State, i: nat, aged: bool, t: State, n: nat, m: nat)
    requires WellFormed(s) && i < |s.stages| && t == Go(s, i, aged) && m == n + 1
    ensures Alone(s, i, aged, m) == Alone(t, i, aged, n)
  {
    hide Go;
    OneStep(s, i, aged);
    AloneThen(s, i, aged, 1, n);
  }

  /** Where the lock leads: taken when free, taken over when it looks old,
      and otherwise the build goes on without it. */
  predicate Takes(s: State, aged: bool) {
    !s.lock || aged
  }

  predicate OthersIdle(s: State, i: nat) {
    forall j :: 0 <= j < |s.stages| && j != i ==> !s.stages[j].TarOpen?
  }

  /** From the build on: tar, version, and the lock given back if it is owned. */
  lemma BuildsWhole(s: State, i: nat, aged: bool, own: bool)
    requires WellFormed(s) && i < |s.stages| && s.stages[i] == Build(own) && OthersIdle(s, i)
    ensures var h, t := s.targets[i], Alone(s, i, aged, 5);
            && t.stages == s.stages[i := Done] && t.tar == Whole(h) && t.version == Of(h)
            && t.lock == (s.lock && !own)
  {
    hide LooksFresh;
    var h := s.targets[i];
    var s1 := s.(tar := Torn, clean := true, over := s.version, committed := false, stages := s.stages[i := TarOpen(own)]);
    assert NobodyElseWrites(s, i) && s1 == Go(s, i, aged);
    var s2 := s1.(tar := Whole(h), stages := s.stages[i := TarDone(own)]);
    assert s2.stages == s1.stages[i := TarDone(own)];
    assert s2 == Go(s1, i, aged);
    var s3 := s2.(version := Partial, committed := true, stages := s.stages[i := VersionOpen(own)]);
    assert s3.stages == s2.stages[i := VersionOpen(own)];
    var s4 := s3.(version := Of(h), stages := s.stages[i := Finish(own)]);
    assert s4.stages == s3.stages[i := Finish(own)];
    var s5 := s4.(lock := s4.lock && !own, stages := s.stages[i := Done]);
    assert s5.stages == s4.stages[i := Done];
    assert s3 == Go(s2, i, aged) && s4 == Go(s3, i, aged) && s5 == Go(s4, i, aged);
    hide Go;
    FiveSteps(s, s1, s2, s3, s4, s5, i, aged);
  }

  lemma FiveSteps(s: State, s1: State, s2: State, s3: State, s4: State, s5: State, i: nat, aged: bool)
    requires WellFormed(s) && i < |s.stages| && s1 == Go(s, i, aged) && s2 == Go(s1, i, aged)
    requires s3 == Go(s2, i, aged) && s4 == Go(s3, i, aged) && s5 == Go(s4, i, aged)
    ensures Alone(s, i, aged, 5) == s5
  {
    hide Go;
    assert Alone(s5, i, aged, 0) == s5;
    StepThen(s4, i, aged, s5, 0, 1);
    StepThen(s3, i, aged, s4, 1, 2);
    StepThen(s2, i, aged, s3, 2, 3);
    StepThen(s1, i, aged, s2, 3, 4);
    StepThen(s, i, aged, s1, 4, 5);
  }

  /** A builder that sees the version it wants stops at once and touches nothing. */
  lemma FreshStops(s: State, i: nat, aged: bool, n: nat)
    requires WellFormed(s) && i < |s.stages| && s.stages[i] == Start && LooksFresh(s, s.targets[i]) && n >= 1
    ensures Alone(s, i, aged, n) == s.(stages := s.stages[i := Done])
  {
    var t := s.(stages := s.stages[i := Done]);
    assert t == Go(s, i, aged);
    StepThen(s, i, aged, t, n - 1, n);
    DoneIsDone(t, i, aged, n - 1);
  }

  /** From the start to the build, with the lock free. */
  lemma TakesFreeLock(s: State, i: nat, aged: bool)
    requires WellFormed(s) && i < |s.stages| && s.stages[i] == Start && !LooksFresh(s, s.targets[i]) && !s.lock
    ensures Alone(s, i, aged, 2) == s.(lock := true, stages := s.stages[i := Build(true)])
  {
    hide LooksFresh;
    var s1 := s.(stages := s.stages[i := Acquire]);
    var s2 := s.(lock := true, stages := s.stages[i := Build(true)]);
    assert s1.stages[i := Build(true)] == s2.stages;
    assert s1 == Go(s, i, aged) && s2 == Go(s1, i, aged);
    hide Go;
    assert Alone(s2, i, aged, 0) == s2;
    StepThen(s1, i, aged, s2, 0, 1);
    StepThen(s, i, aged, s1, 1, 2);
  }

  /** ... and with the lock held: it waits, looks again, and finds it still there. */
  lemma WaitsForLock(s: State, i: nat, aged: bool)
    requires WellFormed(s) && i < |s.stages| && s.stages[i] == Start && !LooksFresh(s, s.targets[i]) && s.lock
    ensures Alone(s, i, aged, 5) == s.(stages := s.stages[i := Stat])
  {
    var s1, s2 := s.(stages := s.stages[i := Acquire]), s.(stages := s.stages[i := Waiting]);
    var s3, s4 := s.(stages := s.stages[i := Recheck]), s.(stages := s.stages[i := Peek]);
    var s5 := s.(stages := s.stages[i := Stat]);
    assert s1.stages[i := Waiting] == s2.stages && s2.stages[i := Recheck] == s3.stages;
    assert s3.stages[i := Peek] == s4.stages && s4.stages[i := Stat] == s5.stages;
    assert LooksFresh(s3, s.targets[i]) == LooksFresh(s, s.targets[i]);
    hide LooksFresh;
    assert s1 == Go(s, i, aged) && s2 == Go(s1, i, aged) && s3 == Go(s2, i, aged);
    assert s4 == Go(s3, i, aged) && s5 == Go(s4, i, aged);
    hide Go;
    FiveSteps(s, s1, s2, s3, s4, s5, i, aged);
  }

  /** A lock that looks old is removed and taken. */
  lemma TakesOver(s: State, i: nat)
    requires WellFormed(s) && i < |s.stages| && s.stages[i] == Stat && s.lock
    ensures Alone(s, i, true, 3) == s.(stages := s.stages[i := Build(true)])
  {
    hide LooksFresh;
    var s1 := s.(stages := s.stages[i := Remove]);
    var s2 := s.(lock := false, stages := s.stages[i := Retry]);
    var s3 := s.(lock := true, stages := s.stages[i := Build(true)]);
    assert s1.stages[i := Retry] == s2.stages && s2.stages[i := Build(true)] == s3.stages;
    assert s1 == Go(s, i, true) && s2 == Go(s1, i, true) && s3 == Go(s2, i, true);
    hide Go;
    assert Alone(s3, i, true, 0) == s3;
    StepThen(s2, i, true, s3, 0, 1);
    StepThen(s1, i, true, s2, 1, 2);
    StepThen(s, i, true, s1, 2, 3);
  }

  /** One that does not is left alone, and the build goes on without it. */
  lemma GoesOnUnlocked(s: State, i: nat)
    requires WellFormed(s) && i < |s.stages| && s.stages[i] == Stat && s.lock
    ensures Alone(s, i, false, 2) == s.(stages := s.stages[i := Build(false)])
  {
    hide LooksFresh;
    var s1, s2 := s.(stages := s.stages[i := Retry]), s.(stages := s.stages[i := Build(false)]);
    assert s1.stages[i := Build(false)] == s2.stages;
    assert s1 == Go(s, i, false) && s2 == Go(s1, i, false);
    hide Go;
    assert Alone(s2, i, false, 0) == s2;
    StepThen(s1, i, false, s2, 0, 1);
    StepThen(s, i, false, s1, 1, 2);
  }

  /** A builder left to itself always ends, within 13 steps. If it finds the
      version it wants it leaves everything as it is; else it leaves a whole
      tar and the version it wants, and the lock only where it was held and
      did not look old. */
  lemma BuilderAloneEnds(s: State, i: nat, aged: bool)
    requires WellFormed(s) && i < |s.stages| && s.stages[i] == Start && OthersIdle(s, i)
    ensures var h, t := s.targets[i], Alone(s, i, aged, 13);
            && t.stages == s.stages[i := Done]
            && if s.tar != Missing && s.version == Of(h) then t == s.(stages := s.stages[i := Done])
               else t.tar == Whole(h) && t.version == Of(h) && t.lock == (s.lock && !aged)
  {
    hide Go;
    hide Alone;
    if LooksFresh(s, s.targets[i]) {
      FreshStops(s, i, aged, 13);
    } else {
      hide LooksFresh;
      var own, b := Takes(s, aged), if s.lock then if aged then 8 else 7 else 2;
      var built := s.(lock := true, stages := s.stages[i := Build(own)]);
      if !s.lock {
        TakesFreeLock(s, i, aged);
      } else {
        WaitsForLock(s, i, aged);
        var stat := s.(stages := s.stages[i := Stat]);
        assert stat.stages[i := Build(own)] == built.stages;
        if aged { TakesOver(stat, i); } else { GoesOnUnlocked(stat, i); }
        AloneThen(s, i, aged, 5, b - 5);
      }
      assert Alone(s, i, aged, b) == built;
      BuildsWhole(built, i, aged, own);
      var done := Alone(built, i, aged, 5);
      assert built.stages[i := Done] == s.stages[i := Done];
      DoneIsDone(done, i, aged, 13 - b - 5);
      AloneThen(s, i, aged, b, 5);
      AloneThen(s, i, aged, b + 5, 13 - b - 5);
    }
  }
}
