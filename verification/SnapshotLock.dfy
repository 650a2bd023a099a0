/** `scripts/build-pglite-snapshot.ts`: any number of builders stepping over
    one lock directory, one tar and one version file. */
module SnapshotLock {
  import opened Text

  type Hash = string

  datatype Tar = Missing | Torn | Whole(hash: Hash)

  /** `Partial` is the file between its truncation and the end of its write. */
  datatype Version = Absent | Partial | Of(hash: Hash)

  /** Where one builder stands; `own` is the script's `ownLock`. */
  datatype Stage =
    | Start | Acquire | Waiting | Recheck | Peek | Stat | Remove | Retry
    | Build(own: bool) | TarOpen(own: bool) | TarDone(own: bool) | VersionOpen(own: bool) | Finish(own: bool)
    | Done | Crashed(own: bool)

  /** `clean`: no two tar writes overlapped since the last one was opened.
      `over`: the version file when the tar was last opened. `committed`: the
      version file has been opened since. The three only record history. */
  datatype State = State(
    lock: bool, tar: Tar, version: Version, targets: seq<Hash>, stages: seq<Stage>,
    clean: bool, over: Version, committed: bool)

  predicate WellFormed(s: State) {
    |s.stages| == |s.targets|
  }

  /** `isFresh()` for target `h` */
  predicate LooksFresh(s: State, h: Hash) {
    s.tar != Missing && s.version == Of(h)
  }

  predicate Owns(stage: Stage) {
    match stage
    case Build(own) => own
    case TarOpen(own) => own
    case TarDone(own) => own
    case VersionOpen(own) => own
    case Finish(own) => own
    case Crashed(own) => own
    case _ => false
  }

  predicate NobodyElseWrites(s: State, i: nat) {
    forall j :: 0 <= j < |s.stages| && j != i ==> !s.stages[j].TarOpen?
  }

  /** What a builder does next; `aged` is whether the lock directory looks
      older than the waiting time. */
  function Go(s: State, i: nat, aged: bool): (s': State)
    requires WellFormed(s) && i < |s.stages|
    ensures WellFormed(s') && s'.targets == s.targets
    ensures forall j :: 0 <= j < |s.stages| && j != i ==> s'.stages[j] == s.stages[j]
  {
    var h := s.targets[i];
    match s.stages[i]
    case Start => s.(stages := s.stages[i := if LooksFresh(s, h) then Done else Acquire])
    case Acquire =>
      if s.lock then s.(stages := s.stages[i := Waiting]) else s.(lock := true, stages := s.stages[i := Build(true)])
    case Waiting => s.(stages := s.stages[i := Recheck])
    case Recheck => s.(stages := s.stages[i := if LooksFresh(s, h) then Done else Peek])
    case Peek => s.(stages := s.stages[i := if s.lock then Stat else Retry])
    case Stat => s.(stages := s.stages[i := if !s.lock then Build(false) else if aged then Remove else Retry])
    case Remove =>
      if s.lock then s.(lock := false, stages := s.stages[i := Retry]) else s.(stages := s.stages[i := Build(false)])
    case Retry =>
      if s.lock then s.(stages := s.stages[i := Build(false)])
      else s.(lock := true, stages := s.stages[i := Build(true)])
    case Build(own) =>
      s.(tar := Torn, clean := NobodyElseWrites(s, i), over := s.version, committed := false,
         stages := s.stages[i := TarOpen(own)])
    case TarOpen(own) => s.(tar := if s.clean then Whole(h) else Torn, stages := s.stages[i := TarDone(own)])
    case TarDone(own) => s.(version := Partial, committed := true, stages := s.stages[i := VersionOpen(own)])
    case VersionOpen(own) => s.(version := Of(h), stages := s.stages[i := Finish(own)])
    case Finish(own) => s.(lock := s.lock && !own, stages := s.stages[i := Done])
    case Done => s
    case Crashed(own) => s
  }

  datatype Kind = Run(aged: bool) | Throw | Crash

  datatype Step = Step(i: nat, kind: Kind)

  /** Stages an exception leaves through the `finally` block. */
  predicate InTry(stage: Stage) {
    stage.Build? || stage.TarOpen? || stage.TarDone? || stage.VersionOpen?
  }

  predicate Enabled(s: State, step: Step) {
    && step.i < |s.stages|
    && match step.kind
       case Run(_) => true
       case Throw => InTry(s.stages[step.i])
       case Crash => !s.stages[step.i].Done? && !s.stages[step.i].Crashed?
  }

  function Apply(s: State, step: Step): (s': State)
    requires WellFormed(s) && Enabled(s, step)
    ensures WellFormed(s') && s'.targets == s.targets
    ensures forall j :: 0 <= j < |s.stages| && j != step.i ==> s'.stages[j] == s.stages[j]
  {
    var stage := s.stages[step.i];
    match step.kind
    case Run(aged) => Go(s, step.i, aged)
    case Throw => s.(stages := s.stages[step.i := Finish(Owns(stage))])
    case Crash => s.(stages := s.stages[step.i := Crashed(Owns(stage))])
  }

  /** Where `steps` lead from `s`; None when one is not enabled or not `allowed`. */
  function After(s: State, steps: seq<Step>, allowed: (State, Step) -> bool): (r: Option<State>)
    requires WellFormed(s)
    ensures r.Some? ==> WellFormed(r.value) && r.value.targets == s.targets
  {
    if steps == [] then Some(s) else
      var last := steps[|steps| - 1];
      match After(s, steps[..|steps| - 1], allowed)
      case Some(before) => if Enabled(before, last) && allowed(before, last) then Some(Apply(before, last)) else None
      case None => None
  }

  // ------------------------------------------------------------ the files

  /** From the opening of the tar to the closing of the version file. */
  predicate Writes(stage: Stage) {
    stage.TarOpen? || stage.TarDone? || stage.VersionOpen?
  }

  predicate OthersWrite(s: State, i: nat) {
    exists j :: 0 <= j < |s.stages| && j != i && Writes(s.stages[j])
  }

  predicate OpensTar(s: State, step: Step) {
    step.i < |s.stages| && step.kind.Run? && s.stages[step.i].Build?
  }

  /** The step does not open the tar beside another builder's unfinished write. */
  predicate OpensAlone(s: State, step: Step) {
    OpensTar(s, step) ==> !OthersWrite(s, step.i)
  }

  predicate OpensNothing(s: State, step: Step) {
    !OpensTar(s, step)
  }

  predicate OneWriter(s: State) {
    forall i, j :: 0 <= i < |s.stages| && 0 <= j < |s.stages| && Writes(s.stages[i]) && Writes(s.stages[j]) ==> i == j
  }

  /** A version file names the tar wholly written for it. */
  predicate Intact(s: State) {
    s.version.Of? ==> s.tar == Whole(s.version.hash)
  }

  /** What the files are while a builder stands at `stage`. */
  predicate FilesAt(s: State, stage: Stage, h: Hash) {
    && (stage.TarOpen? ==> !s.committed && s.tar == Torn && s.clean)
    && (stage.TarDone? ==> !s.committed && s.tar == Whole(h))
    && (stage.VersionOpen? ==> s.committed && s.version == Partial && s.tar == Whole(h))
  }

  predicate FileInvariant(s: State) {
    && WellFormed(s)
    && OneWriter(s)
    && (forall i :: 0 <= i < |s.stages| ==> FilesAt(s, s.stages[i], s.targets[i]))
    && (s.committed ==> Intact(s))
    && (!s.committed ==> s.version == s.over && s.tar != Missing)
  }

  /** Nobody has started and the files agree; a lock may have been abandoned. */
  predicate Settled(s: State) {
    && WellFormed(s) && s.committed && Intact(s)
    && forall i :: 0 <= i < |s.stages| ==> s.stages[i] == Start
  }

  /** ... and nobody holds the lock. */
  predicate Fresh(s: State) {
    Settled(s) && !s.lock
  }

  lemma WriterAlone(s: State, i: nat)
    requires FileInvariant(s) && i < |s.stages| && Writes(s.stages[i])
    ensures forall j :: 0 <= j < |s.stages| && j != i ==> !Writes(s.stages[j])
  {
  }

  lemma AloneIsClean(s: State, i: nat)
    requires i < |s.stages| && !OthersWrite(s, i)
    ensures NobodyElseWrites(s, i)
  {
  }

  /** The steps that touch the files. */
  predicate Touches(s: State, step: Step) {
    step.i < |s.stages| && step.kind.Run? && (Writes(s.stages[step.i]) || s.stages[step.i].Build?)
  }

  lemma UntouchedFiles(s: State, step: Step)
    requires WellFormed(s) && Enabled(s, step) && !Touches(s, step)
    ensures var s' := Apply(s, step);
            && s'.tar == s.tar && s'.version == s.version && s'.clean == s.clean
            && s'.over == s.over && s'.committed == s.committed && !Writes(s'.stages[step.i])
  {
    hide Owns;
    hide LooksFresh;
    hide NobodyElseWrites;
  }

  lemma TouchedFiles(s: State, step: Step)
    requires FileInvariant(s) && Enabled(s, step) && OpensAlone(s, step) && Touches(s, step)
    ensures var s' := Apply(s, step);
            && FilesAt(s', s'.stages[step.i], s'.targets[step.i])
            && (s'.committed ==> Intact(s')) && (!s'.committed ==> s'.version == s'.over && s'.tar != Missing)
  {
    hide Owns;
    hide OneWriter;
    hide LooksFresh;
    hide NobodyElseWrites;
    hide OthersWrite;
    if OpensTar(s, step) {
      AloneIsClean(s, step.i);
    }
    assert FilesAt(s, s.stages[step.i], s.targets[step.i]);
  }

  lemma StepKeepsOwnFiles(s: State, step: Step)
    requires FileInvariant(s) && Enabled(s, step) && OpensAlone(s, step)
    ensures var s' := Apply(s, step);
            && FilesAt(s', s'.stages[step.i], s'.targets[step.i])
            && (s'.committed ==> Intact(s')) && (!s'.committed ==> s'.version == s'.over && s'.tar != Missing)
  {
    hide Apply;
    hide OneWriter;
    hide OpensAlone;
    hide Touches;
    if Touches(s, step) {
      TouchedFiles(s, step);
    } else {
      UntouchedFiles(s, step);
    }
  }

  lemma OthersKeepFiles(s: State, step: Step)
    requires FileInvariant(s) && Enabled(s, step) && OpensAlone(s, step)
    ensures forall j :: 0 <= j < |s.stages| && j != step.i ==> FilesAt(Apply(s, step), s.stages[j], s.targets[j])
  {
    hide Owns;
    hide OneWriter;
    hide Intact;
    hide LooksFresh;
    if Writes(s.stages[step.i]) {
      WriterAlone(s, step.i);
    }
  }

  lemma WriterMoves(s: State, s': State, i: nat)
    requires OneWriter(s) && i < |s.stages| == |s'.stages|
    requires s'.stages == s.stages[i := s'.stages[i]]
    requires Writes(s'.stages[i]) ==> Writes(s.stages[i]) || !OthersWrite(s, i)
    ensures OneWriter(s')
  {
    hide Writes;
  }

  lemma StepKeepsOneWriter(s: State, step: Step)
    requires FileInvariant(s) && Enabled(s, step) && OpensAlone(s, step)
    ensures OneWriter(Apply(s, step))
  {
    hide Owns;
    hide FilesAt;
    hide Intact;
    hide LooksFresh;
    hide OneWriter;
    hide OthersWrite;
    hide NobodyElseWrites;
    WriterMoves(s, Apply(s, step), step.i);
  }

  /** Every step of every builder - crash, exception, takeover or unlocked
      write - that does not open the tar beside another's unfinished write
      keeps the file invariant. */
  lemma StepKeepsFiles(s: State, step: Step)
    requires FileInvariant(s) && Enabled(s, step) && OpensAlone(s, step)
    ensures FileInvariant(Apply(s, step))
  {
    hide Apply;
    hide FilesAt;
    hide OneWriter;
    hide Intact;
    StepKeepsOwnFiles(s, step);
    OthersKeepFiles(s, step);
    StepKeepsOneWriter(s, step);
  }

  lemma SettledFiles(s: State)
    requires Settled(s)
    ensures FileInvariant(s)
  {
  }

  lemma {:induction false} FilesHold(s: State, steps: seq<Step>)
    requires WellFormed(s) && FileInvariant(s) && After(s, steps, OpensAlone).Some?
    ensures FileInvariant(After(s, steps, OpensAlone).value)
  {
    hide FileInvariant;
    hide Apply;
    hide OpensAlone;
    if steps != [] {
      FilesHold(s, steps[..|steps| - 1]);
      StepKeepsFiles(After(s, steps[..|steps| - 1], OpensAlone).value, steps[|steps| - 1]);
    }
  }

  /** A tar write that began over the version file, and has not got as far as
      replacing it. */
  predicate Interrupted(s: State, h: Hash) {
    !s.committed && s.over == Of(h)
  }

  /** In every run in which no tar is opened beside another builder's
      unfinished write - whoever crashes, throws, takes a lock over or goes on
      without one - a tar that is not whole looks fresh exactly when its
      writing was begun over a version file that already named that hash, and
      never got as far as replacing it. */
  lemma FreshButNotWholeIff(s: State, steps: seq<Step>, h: Hash)
    requires Settled(s) && After(s, steps, OpensAlone).Some?
    ensures var t := After(s, steps, OpensAlone).value;
            t.tar != Whole(h) ==> (LooksFresh(t, h) <==> Interrupted(t, h))
  {
    hide Apply;
    hide OpensAlone;
    SettledFiles(s);
    FilesHold(s, steps);
  }

  /** Opening the tar alone, and only over a version file that does not name `h`. */
  function RebuildsStale(h: Hash): (State, Step) -> bool {
    (s: State, step: Step) => OpensAlone(s, step) && (OpensTar(s, step) ==> s.version != Of(h))
  }

  lemma StaleStep(s: State, step: Step, h: Hash)
    requires WellFormed(s) && FileInvariant(s) && !Interrupted(s, h) && Enabled(s, step)
    requires RebuildsStale(h)(s, step)
    ensures FileInvariant(Apply(s, step)) && !Interrupted(Apply(s, step), h)
  {
    hide FileInvariant;
    StepKeepsFiles(s, step);
  }

  lemma {:induction false} StaleRebuilds(s: State, steps: seq<Step>, h: Hash)
    requires Settled(s) && After(s, steps, RebuildsStale(h)).Some?
    ensures var t := After(s, steps, RebuildsStale(h)).value;
            FileInvariant(t) && !Interrupted(t, h)
  {
    hide FileInvariant;
    hide Apply;
    hide RebuildsStale;
    SettledFiles(s);
    if steps != [] {
      StaleRebuilds(s, steps[..|steps| - 1], h);
      StaleStep(After(s, steps[..|steps| - 1], RebuildsStale(h)).value, steps[|steps| - 1], h);
    }
  }

  /** If moreover no tar is opened while the version file names `h`, then
      wherever builders crash or throw, looking fresh for `h` means whole. */
  lemma StaleRebuildsNeverMislead(s: State, steps: seq<Step>, h: Hash)
    requires Settled(s) && After(s, steps, RebuildsStale(h)).Some?
    ensures var t := After(s, steps, RebuildsStale(h)).value;
            LooksFresh(t, h) ==> t.tar == Whole(h)
  {
    StaleRebuilds(s, steps, h);
  }

  // --------------------------------- opening the tar beside another writer

  /** A tar that looks fresh, is not whole, and was not just interrupted. */
  predicate Misleading(s: State) {
    && s.version.Of? && s.tar != Missing && s.tar != Whole(s.version.hash)
    && !Interrupted(s, s.version.hash)
  }

  /** Some continuation, without another tar being opened, misleads. */
  ghost predicate CanMislead(s: State)
    requires WellFormed(s)
  {
    exists steps :: After(s, steps, OpensNothing).Some? && Misleading(After(s, steps, OpensNothing).value)
  }

  lemma {:induction false} OpeningNothing(s: State, steps: seq<Step>)
    requires WellFormed(s) && After(s, steps, OpensNothing).Some?
    ensures After(s, steps, OpensAlone) == After(s, steps, OpensNothing)
  {
    hide Apply;
    if steps != [] {
      OpeningNothing(s, steps[..|steps| - 1]);
    }
  }

  lemma FilesNeverMislead(s: State)
    requires WellFormed(s) && FileInvariant(s)
    ensures !CanMislead(s)
  {
    hide FileInvariant;
    forall steps | After(s, steps, OpensNothing).Some? ensures !Misleading(After(s, steps, OpensNothing).value) {
      OpeningNothing(s, steps);
      FilesHold(s, steps);
      InvariantIsHonest(After(s, steps, OpensNothing).value);
    }
  }

  lemma InvariantIsHonest(s: State)
    requires FileInvariant(s)
    ensures !Misleading(s)
  {
  }

  /** Opening the tar can mislead exactly when another builder has not
      finished writing: at any such moment some continuation ends with a
      version file naming a tar that is not the one wholly written for it, and
      at any other moment none does. */
  lemma OpeningMisleadsIff(s: State, i: nat)
    requires FileInvariant(s) && i < |s.stages| && s.stages[i].Build?
    ensures CanMislead(Go(s, i, false)) <==> OthersWrite(s, i)
  {
    hide FileInvariant;
    hide CanMislead;
    if OthersWrite(s, i) {
      var j :| 0 <= j < |s.stages| && j != i && Writes(s.stages[j]);
      OpenedBeside(s, i, j);
    } else {
      StepKeepsFiles(s, Step(i, Run(false)));
      FilesNeverMislead(Go(s, i, false));
    }
  }

  lemma Extend(s: State, steps: seq<Step>, t: State, step: Step, allowed: (State, Step) -> bool)
    returns (more: seq<Step>, t': State)
    requires WellFormed(s) && After(s, steps, allowed) == Some(t) && Enabled(t, step) && allowed(t, step)
    ensures more == steps + [step] && t' == Apply(t, step) && After(s, more, allowed) == Some(t')
  {
    more := steps + [step];
    assert more[..|more| - 1] == steps;
    t' := Apply(t, step);
  }

  lemma NoSteps(s: State, allowed: (State, Step) -> bool)
    requires WellFormed(s)
    ensures After(s, [], allowed) == Some(s)
  {
  }

  /** The other builder closes its tar, if it was still writing that. */
  lemma ClosesTar(s: State, steps: seq<Step>, t: State, j: nat) returns (more: seq<Step>, t': State)
    requires WellFormed(s) && After(s, steps, OpensNothing) == Some(t)
    requires j < |t.stages| && t.stages[j].TarOpen? && t.tar == Torn && !t.clean
    ensures After(s, more, OpensNothing) == Some(t')
    ensures |t'.stages| == |t.stages| && t'.stages[j].TarDone? && t'.tar == Torn && t'.targets == t.targets
  {
    hide After;
    more, t' := Extend(s, steps, t, Step(j, Run(false)), OpensNothing);
  }

  lemma OpensVersion(s: State, steps: seq<Step>, t: State, j: nat) returns (more: seq<Step>, t': State)
    requires WellFormed(s) && After(s, steps, OpensNothing) == Some(t)
    requires j < |t.stages| && t.stages[j].TarDone? && t.tar == Torn
    ensures After(s, more, OpensNothing) == Some(t')
    ensures |t'.stages| == |t.stages| && t'.stages[j].VersionOpen? && t'.tar == Torn && t'.targets == t.targets
    ensures t'.committed
  {
    hide After;
    more, t' := Extend(s, steps, t, Step(j, Run(false)), OpensNothing);
  }

  lemma ClosesVersion(s: State, steps: seq<Step>, t: State, j: nat) returns (more: seq<Step>, t': State)
    requires WellFormed(s) && After(s, steps, OpensNothing) == Some(t)
    requires j < |t.stages| && t.stages[j].VersionOpen? && t.tar == Torn
    requires t.committed || !t.over.Of?
    ensures After(s, more, OpensNothing) == Some(t') && Misleading(t')
  {
    hide After;
    more, t' := Extend(s, steps, t, Step(j, Run(false)), OpensNothing);
  }

  lemma OpenedBeside(s: State, i: nat, j: nat)
    requires FileInvariant(s) && i < |s.stages| && s.stages[i].Build?
    requires j < |s.stages| && j != i && Writes(s.stages[j])
    ensures CanMislead(Go(s, i, false))
  {
    hide After;
    hide OneWriter;
    var t := Go(s, i, false);
    var steps, u := [], t;
    NoSteps(t, OpensNothing);
    assert FilesAt(s, s.stages[j], s.targets[j]);
    if s.stages[j].TarOpen? {
      assert !NobodyElseWrites(s, i);
      steps, u := ClosesTar(t, steps, u, j);
    }
    if u.stages[j].TarDone? {
      steps, u := OpensVersion(t, steps, u, j);
    }
    steps, u := ClosesVersion(t, steps, u, j);
  }

  // ------------------------------------------------------------- the lock

  /** The builder holds the lock and has not crashed. */
  predicate LiveOwns(stage: Stage) {
    Owns(stage) && !stage.Crashed?
  }

  predicate SomebodyLive(s: State) {
    exists i :: 0 <= i < |s.stages| && LiveOwns(s.stages[i])
  }

  predicate AtMostOneLive(s: State) {
    forall i, j :: 0 <= i < |s.stages| && 0 <= j < |s.stages| && LiveOwns(s.stages[i]) && LiveOwns(s.stages[j]) ==> i == j
  }

  /** One live owner at most, and a live owner's lock is there. */
  predicate OneLive(s: State) {
    WellFormed(s) && AtMostOneLive(s) && (SomebodyLive(s) ==> s.lock)
  }

  /** The step takes no lock away from a live owner. */
  predicate SparesLiveLocks(s: State, step: Step) {
    step.i < |s.stages| && step.kind.Run? && s.stages[step.i].Remove? && s.lock ==> !SomebodyLive(s)
  }

  lemma LiveMoves(s: State, s': State, i: nat)
    requires OneLive(s) && WellFormed(s') && i < |s.stages| == |s'.stages|
    requires s'.stages == s.stages[i := s'.stages[i]]
    requires LiveOwns(s'.stages[i]) && !LiveOwns(s.stages[i]) ==> !s.lock
    requires LiveOwns(s'.stages[i]) ==> s'.lock
    requires s.lock && !s'.lock ==> LiveOwns(s.stages[i]) || !SomebodyLive(s)
    requires s.lock && !s'.lock ==> !LiveOwns(s'.stages[i])
    ensures OneLive(s')
  {
    hide LiveOwns;
    assert forall j :: 0 <= j < |s.stages| && j != i ==> s'.stages[j] == s.stages[j];
    if SomebodyLive(s') {
      var j :| 0 <= j < |s'.stages| && LiveOwns(s'.stages[j]);
      assert j != i ==> LiveOwns(s.stages[j]);
    }
  }

  /** Every step that takes no lock away from a live owner - crashes,
      exceptions, takeovers and unlocked work included - leaves one live owner
      at most. */
  lemma StepKeepsOneLive(s: State, step: Step)
    requires OneLive(s) && Enabled(s, step) && SparesLiveLocks(s, step)
    ensures OneLive(Apply(s, step))
  {
    hide AtMostOneLive;
    hide LooksFresh;
    hide NobodyElseWrites;
    if LiveOwns(s.stages[step.i]) {
      assert SomebodyLive(s);
    }
    hide SomebodyLive;
    LiveMoves(s, Apply(s, step), step.i);
  }

  lemma {:induction false} OneLiveHolds(s: State, steps: seq<Step>)
    requires WellFormed(s) && OneLive(s) && After(s, steps, SparesLiveLocks).Some?
    ensures OneLive(After(s, steps, SparesLiveLocks).value)
  {
    hide OneLive;
    hide Apply;
    hide SparesLiveLocks;
    if steps != [] {
      OneLiveHolds(s, steps[..|steps| - 1]);
      StepKeepsOneLive(After(s, steps[..|steps| - 1], SparesLiveLocks).value, steps[|steps| - 1]);
    }
  }

  /** Some continuation, without a further lock being taken from a live
      owner, has two live owners. */
  ghost predicate CanShare(s: State)
    requires WellFormed(s)
  {
    exists steps :: After(s, steps, SparesLiveLocks).Some? && !AtMostOneLive(After(s, steps, SparesLiveLocks).value)
  }

  lemma RemoveThenRetry(s: State, i: nat, aged: bool)
    requires WellFormed(s) && i < |s.stages| && s.stages[i].Remove? && s.lock
    ensures var t := Go(s, i, aged); var u := Go(t, i, aged);
            && t.stages[i] == Retry && !t.lock && u.stages[i] == Build(true)
            && forall j :: 0 <= j < |s.stages| && j != i ==> u.stages[j] == s.stages[j]
  {
  }

  lemma RetryShares(s: State, i: nat, aged: bool, j: nat)
    requires WellFormed(s) && i < |s.stages| && s.stages[i].Remove? && s.lock
    requires j < |s.stages| && LiveOwns(s.stages[j])
    ensures !AtMostOneLive(Go(Go(s, i, aged), i, aged)) && CanShare(Go(s, i, aged))
  {
    hide Go;
    hide After;
    var t := Go(s, i, aged);
    RemoveThenRetry(s, i, aged);
    NoSteps(t, SparesLiveLocks);
    var steps, u := Extend(t, [], t, Step(i, Run(aged)), SparesLiveLocks);
    assert LiveOwns(u.stages[i]) && LiveOwns(u.stages[j]);
  }

  lemma OneLiveNeverShares(s: State)
    requires WellFormed(s) && OneLive(s)
    ensures !CanShare(s)
  {
    hide OneLive;
    hide AtMostOneLive;
    forall steps | After(s, steps, SparesLiveLocks).Some? ensures AtMostOneLive(After(s, steps, SparesLiveLocks).value) {
      OneLiveHolds(s, steps);
      LiveIsAtMostOne(After(s, steps, SparesLiveLocks).value);
    }
  }

  /** Removing a lock can lead to two live owners exactly when a live builder
      owned it: then the remover's own next step does, and otherwise no
      continuation does. */
  lemma TakeoverSharesIff(s: State, i: nat, aged: bool)
    requires WellFormed(s) && OneLive(s) && i < |s.stages| && s.stages[i].Remove? && s.lock
    ensures AtMostOneLive(Go(Go(s, i, aged), i, aged)) <==> !SomebodyLive(s)
    ensures CanShare(Go(s, i, aged)) <==> SomebodyLive(s)
  {
    hide OneLive;
    hide AtMostOneLive;
    hide CanShare;
    hide Go;
    var step := Step(i, Run(aged));
    var t := Go(s, i, aged);
    RemoveThenRetry(s, i, aged);
    if SomebodyLive(s) {
      var j :| 0 <= j < |s.stages| && LiveOwns(s.stages[j]);
      RetryShares(s, i, aged, j);
    } else {
      StepKeepsOneLive(s, step);
      OneLiveNeverShares(t);
      StepKeepsOneLive(t, step);
      LiveIsAtMostOne(Go(t, i, aged));
    }
  }

  lemma LiveIsAtMostOne(s: State)
    requires OneLive(s)
    ensures AtMostOneLive(s)
  {
  }

  // ------------------------------------- keeping to the lock, and recovering

  predicate IsUnlocked(stage: Stage) {
    !Owns(stage) && (InTry(stage) || stage.Finish?)
  }

  /** No step goes on without a lock, and a lock is taken over only when no
      live builder owns it. */
  predicate KeepsOrRecovers(s: State, step: Step) {
    && step.i < |s.stages|
    && (step.kind.Run? ==>
          var stage := s.stages[step.i];
          && (stage.Remove? ==> s.lock && !SomebodyLive(s))
          && !(stage.Stat? && !s.lock)
          && !(stage.Retry? && s.lock))
  }

  predicate LockInvariant(s: State) {
    OneLive(s) && forall i :: 0 <= i < |s.stages| ==> !IsUnlocked(s.stages[i])
  }

  lemma StepKeepsLock(s: State, step: Step)
    requires LockInvariant(s) && Enabled(s, step) && KeepsOrRecovers(s, step)
    ensures LockInvariant(Apply(s, step))
  {
    StepKeepsOneLive(s, step);
    hide OneLive;
    hide SomebodyLive;
    hide LooksFresh;
    hide NobodyElseWrites;
  }

  /** Whoever builds under the lock builds alone. */
  lemma LockedOpensAlone(s: State, step: Step)
    requires LockInvariant(s) && Enabled(s, step) && KeepsOrRecovers(s, step)
    ensures OpensAlone(s, step)
  {
  }

  lemma {:induction false} RecoveringOpensAlone(s: State, steps: seq<Step>)
    requires WellFormed(s) && LockInvariant(s) && After(s, steps, KeepsOrRecovers).Some?
    ensures After(s, steps, OpensAlone) == After(s, steps, KeepsOrRecovers)
    ensures LockInvariant(After(s, steps, KeepsOrRecovers).value)
  {
    hide LockInvariant;
    hide Apply;
    hide OpensAlone;
    hide KeepsOrRecovers;
    if steps != [] {
      var init, last := steps[..|steps| - 1], steps[|steps| - 1];
      RecoveringOpensAlone(s, init);
      var before := After(s, init, KeepsOrRecovers).value;
      LockedOpensAlone(before, last);
      StepKeepsLock(before, last);
    }
  }

  lemma SettledLock(s: State)
    requires Settled(s)
    ensures LockInvariant(s)
  {
  }

  /** With any number of crashes, exceptions and takeovers of abandoned locks,
      the one the run starts with included: one live owner at most, who has
      the lock; and a tar that is not whole looks fresh exactly when its
      writing was begun over a version file already naming that hash, and
      never replaced it. */
  lemma RecoveryIsSafe(s: State, steps: seq<Step>, h: Hash)
    requires Settled(s) && After(s, steps, KeepsOrRecovers).Some?
    ensures var t := After(s, steps, KeepsOrRecovers).value;
            && AtMostOneLive(t) && (SomebodyLive(t) ==> t.lock)
            && (t.tar != Whole(h) ==> (LooksFresh(t, h) <==> Interrupted(t, h)))
  {
    hide Apply;
    hide KeepsOrRecovers;
    SettledLock(s);
    RecoveringOpensAlone(s, steps);
    FreshButNotWholeIff(s, steps, h);
  }

  // ----------------------------------------------------- without takeovers

  /** No step removes another builder's lock or goes on without one. */
  predicate KeepsToLock(s: State, step: Step) {
    && step.i < |s.stages|
    && (step.kind.Run? ==>
          var stage := s.stages[step.i];
          && !stage.Remove?
          && !(stage.Stat? && !s.lock)
          && !(stage.Retry? && s.lock))
  }

  /** ... and no step is a crash or an exception. */
  predicate KeepsToLockUnharmed(s: State, step: Step) {
    KeepsToLock(s, step) && step.kind.Run?
  }

  predicate AtMostOneOwner(s: State) {
    forall i, j :: 0 <= i < |s.stages| && 0 <= j < |s.stages| && Owns(s.stages[i]) && Owns(s.stages[j]) ==> i == j
  }

  predicate SomebodyOwns(s: State) {
    exists i :: 0 <= i < |s.stages| && Owns(s.stages[i])
  }

  /** One owner at most, crashed ones counted, and the lock is there exactly when it has one. */
  predicate OneOwner(s: State) {
    && WellFormed(s) && AtMostOneOwner(s) && (s.lock <==> SomebodyOwns(s))
    && forall i :: 0 <= i < |s.stages| ==> !IsUnlocked(s.stages[i])
  }

  lemma OwnershipMoves(s: State, s': State, i: nat)
    requires WellFormed(s) && AtMostOneOwner(s) && (s.lock <==> SomebodyOwns(s))
    requires i < |s.stages| == |s'.stages| && s'.stages == s.stages[i := s'.stages[i]]
    requires Owns(s'.stages[i]) && !Owns(s.stages[i]) ==> !s.lock
    requires s'.lock == (Owns(s'.stages[i]) || (s.lock && !Owns(s.stages[i])))
    ensures AtMostOneOwner(s') && (s'.lock <==> SomebodyOwns(s'))
  {
    hide Owns;
    assert forall j :: 0 <= j < |s.stages| && j != i ==> s'.stages[j] == s.stages[j];
    if SomebodyOwns(s') {
      var j :| 0 <= j < |s'.stages| && Owns(s'.stages[j]);
      assert j != i ==> Owns(s.stages[j]);
    }
    if s.lock && !Owns(s.stages[i]) {
      var j :| 0 <= j < |s.stages| && Owns(s.stages[j]);
      assert Owns(s'.stages[j]);
    }
  }

  lemma OwnerLocks(s: State, i: nat)
    requires OneOwner(s) && i < |s.stages| && Owns(s.stages[i])
    ensures s.lock
  {
  }

  lemma StepKeepsOwner(s: State, step: Step)
    requires OneOwner(s) && Enabled(s, step) && KeepsToLock(s, step)
    ensures OneOwner(Apply(s, step))
  {
    hide AtMostOneOwner;
    hide SomebodyOwns;
    if Owns(s.stages[step.i]) {
      OwnerLocks(s, step.i);
    }
    OwnershipMoves(s, Apply(s, step), step.i);
  }

  /** Without takeovers at most one builder owns the lock, crashed ones
      counted, and the lock is held exactly while one does. */
  lemma {:induction false} OneOwnerHolds(s: State, steps: seq<Step>)
    requires WellFormed(s) && OneOwner(s) && After(s, steps, KeepsToLock).Some?
    ensures OneOwner(After(s, steps, KeepsToLock).value)
    ensures After(s, steps, KeepsOrRecovers) == After(s, steps, KeepsToLock)
  {
    hide OneOwner;
    hide Apply;
    if steps != [] {
      OneOwnerHolds(s, steps[..|steps| - 1]);
      StepKeepsOwner(After(s, steps[..|steps| - 1], KeepsToLock).value, steps[|steps| - 1]);
    }
  }

  lemma FreshOwner(s: State)
    requires Fresh(s)
    ensures OneOwner(s)
  {
  }

  lemma {:induction false} UnharmedKeepsToLock(s: State, steps: seq<Step>)
    requires WellFormed(s) && After(s, steps, KeepsToLockUnharmed).Some?
    ensures After(s, steps, KeepsToLock) == After(s, steps, KeepsToLockUnharmed)
  {
    hide Apply;
    if steps != [] {
      UnharmedKeepsToLock(s, steps[..|steps| - 1]);
    }
  }

  /** An unfinished tar write has a live builder at it. */
  predicate Attended(s: State) {
    !s.committed ==> exists i :: 0 <= i < |s.stages| && (s.stages[i].TarOpen? || s.stages[i].TarDone?)
  }

  lemma {:induction false} StaysAttended(s: State, steps: seq<Step>)
    requires Fresh(s) && After(s, steps, KeepsToLockUnharmed).Some?
    ensures Attended(After(s, steps, KeepsToLockUnharmed).value)
  {
    hide KeepsToLock;
    hide Attended;
    hide Apply;
    if steps == [] {
      FreshAttended(s);
    } else {
      StaysAttended(s, steps[..|steps| - 1]);
      AttendedStep(After(s, steps[..|steps| - 1], KeepsToLockUnharmed).value, steps[|steps| - 1]);
    }
  }

  lemma FreshAttended(s: State)
    requires Fresh(s)
    ensures Attended(s)
  {
  }

  lemma AttendedStep(s: State, step: Step)
    requires WellFormed(s) && Attended(s) && Enabled(s, step) && step.kind.Run?
    ensures Attended(Apply(s, step))
  {
    var s' := Apply(s, step);
    if !s'.committed {
      if s.stages[step.i].Build? || s.stages[step.i].TarOpen? {
        assert s'.stages[step.i].TarOpen? || s'.stages[step.i].TarDone?;
      } else {
        var i :| 0 <= i < |s.stages| && (s.stages[i].TarOpen? || s.stages[i].TarDone?);
        assert s'.stages[i].TarOpen? || s'.stages[i].TarDone?;
      }
    }
  }

  /** Without crashes, exceptions and takeovers: one owner at most, and while
      nobody owns the lock a version file means a tar wholly written for it. */
  lemma UnlockedMeansWhole(s: State, steps: seq<Step>, h: Hash)
    requires Fresh(s) && After(s, steps, KeepsToLockUnharmed).Some?
    ensures var t := After(s, steps, KeepsToLockUnharmed).value;
            && AtMostOneOwner(t) && (t.lock <==> SomebodyOwns(t))
            && (!SomebodyOwns(t) && LooksFresh(t, h) ==> t.tar == Whole(h))
  {
    hide Apply;
    hide KeepsToLock;
    hide KeepsOrRecovers;
    UnharmedKeepsToLock(s, steps);
    FreshOwner(s);
    OneOwnerHolds(s, steps);
    RecoveryIsSafe(s, steps, h);
    StaysAttended(s, steps);
    var t := After(s, steps, KeepsToLockUnharmed).value;
    if !t.committed {
      var i :| 0 <= i < |t.stages| && (t.stages[i].TarOpen? || t.stages[i].TarDone?);
      assert Owns(t.stages[i]);
    }
  }

  // ------------------------------------------------------- one builder

  predicate Anything(s: State, step: Step) {
    true
  }

  /** One builder that started from a stale version file. */
  predicate Alone(s: State) {
    && WellFormed(s) && |s.stages| == 1
    && (match s.stages[0]
        case TarOpen(_) => s.clean && s.version != Of(s.targets[0])
        case TarDone(_) => s.tar == Whole(s.targets[0])
        case VersionOpen(_) => s.tar == Whole(s.targets[0])
        case Finish(_) => true
        case Done => true
        case Crashed(_) => true
        case _ => s.version != Of(s.targets[0]))
    && (s.version == Of(s.targets[0]) ==> s.tar == Whole(s.targets[0]))
  }

  lemma AloneStep(s: State, step: Step)
    requires Alone(s) && Enabled(s, step)
    ensures Alone(Apply(s, step))
  {
    assert step.i == 0;
  }

  /** One builder that may crash or throw anywhere, and may find any lock:
      started from a stale version file, a version file for its own hash
      means a tar wholly written for it. */
  lemma {:induction false} AloneIsSafe(s: State, steps: seq<Step>)
    requires WellFormed(s) && |s.stages| == 1 && s.stages[0] == Start && s.version != Of(s.targets[0])
    requires After(s, steps, Anything).Some?
    ensures var t := After(s, steps, Anything).value;
            Alone(t) && (LooksFresh(t, t.targets[0]) ==> t.tar == Whole(t.targets[0]))
  {
    hide Apply;
    if steps != [] {
      AloneIsSafe(s, steps[..|steps| - 1]);
      AloneStep(After(s, steps[..|steps| - 1], Anything).value, steps[|steps| - 1]);
    }
  }

  // -------------------------------------------------- where it can fail

  /** One step of a run: `t` becomes `t'`. */
  lemma Move(s: State, steps: seq<Step>, t: State, step: Step, t': State, allowed: (State, Step) -> bool)
    returns (more: seq<Step>)
    requires WellFormed(s) && After(s, steps, allowed) == Some(t) && Enabled(t, step) && allowed(t, step)
    requires Apply(t, step) == t'
    ensures After(s, more, allowed) == Some(t')
  {
    hide Apply;
    var u;
    more, u := Extend(s, steps, t, step, allowed);
  }

  /** Builder `i` may run wherever it works or waits. */
  ghost predicate AllowsWork(allowed: (State, Step) -> bool, i: nat) {
    forall u: State :: i < |u.stages| && (InTry(u.stages[i]) || u.stages[i].Finish? || Waits(u.stages[i])) ==>
                         allowed(u, Step(i, Run(false)))
  }

  lemma WorkAllowed(i: nat)
    ensures AllowsWork(KeepsToLock, i) && AllowsWork(KeepsOrRecovers, i) && AllowsWork(Anything, i)
  {
  }

  predicate Waits(stage: Stage) {
    stage == Start || stage == Acquire || stage == Waiting || stage == Recheck || stage == Peek
  }

  /** A builder with the lock, from the build to the release. */
  lemma WholeBuild(s: State, steps: seq<Step>, t: State, i: nat, h: Hash, allowed: (State, Step) -> bool)
    returns (more: seq<Step>, t': State)
    requires WellFormed(s) && After(s, steps, allowed) == Some(t)
    requires AllowsWork(allowed, i)
    requires i < |t.stages| && t.stages[i] == Build(true) && t.targets[i] == h && t.lock && NobodyElseWrites(t, i)
    ensures After(s, more, allowed) == Some(t')
    ensures t' == t.(lock := false, tar := Whole(h), version := Of(h), stages := t.stages[i := Done],
                     clean := true, over := t.version, committed := true)
  {
    hide After;
    hide Waits;
    hide NobodyElseWrites;
    var step := Step(i, Run(false));
    var t1 := t.(tar := Torn, clean := true, over := t.version, committed := false, stages := t.stages[i := TarOpen(true)]);
    more := Move(s, steps, t, step, t1, allowed);
    var t2 := t1.(tar := Whole(h), stages := t.stages[i := TarDone(true)]);
    assert t2.stages == t1.stages[i := TarDone(true)];
    more := Move(s, more, t1, step, t2, allowed);
    var t3 := t2.(version := Partial, committed := true, stages := t.stages[i := VersionOpen(true)]);
    assert t3.stages == t2.stages[i := VersionOpen(true)];
    more := Move(s, more, t2, step, t3, allowed);
    var t4 := t3.(version := Of(h), stages := t.stages[i := Finish(true)]);
    assert t4.stages == t3.stages[i := Finish(true)];
    more := Move(s, more, t3, step, t4, allowed);
    t' := t4.(lock := false, stages := t.stages[i := Done]);
    assert t'.stages == t4.stages[i := Done];
    more := Move(s, more, t4, step, t', allowed);
  }

  /** Two builders of the hash `h`, before any snapshot exists. */
  function Pair(lock: bool, h: Hash): (s: State)
    ensures WellFormed(s)
  {
    State(lock, Missing, Absent, [h, h], [Start, Start], true, Absent, true)
  }

  /** The first of a pair builds, the second having found the snapshot missing. */
  lemma BothStarted(h: Hash) returns (steps: seq<Step>, t: State)
    ensures After(Pair(false, h), steps, KeepsToLock) == Some(t)
    ensures t == Pair(false, h).(lock := true, stages := [Build(true), Acquire])
  {
    hide After;
    var s := Pair(false, h);
    NoSteps(s, KeepsToLock);
    var first, second := Step(0, Run(false)), Step(1, Run(false));
    var t1 := s.(stages := [Acquire, Start]);
    steps := Move(s, [], s, first, t1, KeepsToLock);
    var t2 := s.(stages := [Acquire, Acquire]);
    steps := Move(s, steps, t1, second, t2, KeepsToLock);
    t := s.(lock := true, stages := [Build(true), Acquire]);
    steps := Move(s, steps, t2, first, t, KeepsToLock);
  }

  lemma FirstDone(h: Hash) returns (steps: seq<Step>, t: State)
    ensures After(Pair(false, h), steps, KeepsToLock) == Some(t)
    ensures t == State(false, Whole(h), Of(h), [h, h], [Done, Acquire], true, Absent, true)
  {
    hide After;
    hide AllowsWork;
    WorkAllowed(0);
    var t0;
    steps, t0 := BothStarted(h);
    steps, t := WholeBuild(Pair(false, h), steps, t0, 0, h, KeepsToLock);
    assert t.stages == [Done, Acquire];
  }

  /** Two builders of the same hash, both keeping to the lock: the second
      does not look again after taking it, rebuilds over a fresh snapshot,
      and crashes. What it leaves looks fresh and is torn. */
  lemma CrashAfterTheFastPath(h: Hash) returns (steps: seq<Step>)
    ensures Fresh(Pair(false, h)) && After(Pair(false, h), steps, KeepsToLock).Some?
    ensures var t := After(Pair(false, h), steps, KeepsToLock).value; LooksFresh(t, h) && t.tar == Torn
  {
    hide After;
    var s, second := Pair(false, h), Step(1, Run(false));
    var t;
    steps, t := FirstDone(h);
    var t5 := t.(lock := true, stages := [Done, Build(true)]);
    steps := Move(s, steps, t, second, t5, KeepsToLock);
    var t6 := t5.(tar := Torn, over := Of(h), committed := false, stages := [Done, TarOpen(true)]);
    steps := Move(s, steps, t5, second, t6, KeepsToLock);
    steps := Move(s, steps, t6, Step(1, Crash), t6.(stages := [Done, Crashed(true)]), KeepsToLock);
  }

  /** A builder that finds the lock held waits it out and is about to look at its age. */
  lemma WaitsOut(s: State, steps: seq<Step>, t: State, i: nat, allowed: (State, Step) -> bool)
    returns (more: seq<Step>, t': State)
    requires WellFormed(s) && After(s, steps, allowed) == Some(t)
    requires AllowsWork(allowed, i)
    requires i < |t.stages| && t.stages[i] == Start && t.lock && !t.version.Of?
    ensures After(s, more, allowed) == Some(t') && t' == t.(stages := t.stages[i := Stat])
  {
    hide After;
    var step := Step(i, Run(false));
    var t1 := Staged(t, i, Acquire);
    more := Move(s, steps, t, step, t1, allowed);
    var t2 := Staged(t, i, Waiting);
    assert t2.stages == t1.stages[i := Waiting];
    more := Move(s, more, t1, step, t2, allowed);
    var t3 := Staged(t, i, Recheck);
    assert t3.stages == t2.stages[i := Recheck];
    more := Move(s, more, t2, step, t3, allowed);
    var t4 := Staged(t, i, Peek);
    assert t4.stages == t3.stages[i := Peek];
    more := Move(s, more, t3, step, t4, allowed);
    t' := Staged(t, i, Stat);
    assert t'.stages == t4.stages[i := Stat];
    more := Move(s, more, t4, step, t', allowed);
  }

  function Staged(t: State, i: nat, stage: Stage): State
    requires i < |t.stages|
  {
    t.(stages := t.stages[i := stage])
  }

  lemma BothWaited(h: Hash) returns (steps: seq<Step>, t: State)
    ensures After(Pair(true, h), steps, Anything) == Some(t)
    ensures t == State(true, Missing, Absent, [h, h], [Stat, Stat], true, Absent, true)
  {
    hide After;
    hide AllowsWork;
    WorkAllowed(0);
    WorkAllowed(1);
    var s := Pair(true, h);
    NoSteps(s, Anything);
    var t1;
    steps, t1 := WaitsOut(s, [], s, 0, Anything);
    steps, t := WaitsOut(s, steps, t1, 1, Anything);
    assert t.stages == [Stat, Stat];
  }

  /** Two builders waiting out the same abandoned lock: the second removes
      the lock the first has just made, and both own it. */
  lemma TakenOverTwice(h: Hash) returns (steps: seq<Step>)
    ensures After(Pair(true, h), steps, Anything).Some?
    ensures !AtMostOneLive(After(Pair(true, h), steps, Anything).value)
  {
    hide After;
    var s := Pair(true, h);
    var first, second := Step(0, Run(true)), Step(1, Run(true));
    var t2;
    steps, t2 := BothWaited(h);
    var t3 := t2.(stages := [Remove, Stat]);
    steps := Move(s, steps, t2, first, t3, Anything);
    var t4 := t2.(stages := [Remove, Remove]);
    steps := Move(s, steps, t3, second, t4, Anything);
    var t5 := t2.(lock := false, stages := [Retry, Remove]);
    steps := Move(s, steps, t4, first, t5, Anything);
    var t6 := t2.(stages := [Build(true), Remove]);
    steps := Move(s, steps, t5, first, t6, Anything);
    var t7 := t2.(lock := false, stages := [Build(true), Retry]);
    steps := Move(s, steps, t6, second, t7, Anything);
    var t8 := t2.(stages := [Build(true), Build(true)]);
    steps := Move(s, steps, t7, second, t8, Anything);
    assert LiveOwns(t8.stages[0]) && LiveOwns(t8.stages[1]);
  }

  /** Recovery at work: a builder that finds an abandoned lock waits it out,
      takes it over and leaves a whole snapshot and no lock. */
  lemma RecoversAbandonedLock(h: Hash) returns (steps: seq<Step>)
    ensures Settled(Pair(true, h)) && After(Pair(true, h), steps, KeepsOrRecovers).Some?
    ensures var t := After(Pair(true, h), steps, KeepsOrRecovers).value;
            LooksFresh(t, h) && t.tar == Whole(h) && !t.lock
  {
    hide After;
    hide AllowsWork;
    WorkAllowed(0);
    WorkAllowed(1);
    var s := Pair(true, h);
    NoSteps(s, KeepsOrRecovers);
    var t1, t5;
    steps, t1 := WaitsOut(s, [], s, 0, KeepsOrRecovers);
    assert t1.stages == [Stat, Start];
    var t2 := t1.(stages := [Remove, Start]);
    steps := Move(s, steps, t1, Step(0, Run(true)), t2, KeepsOrRecovers);
    var t3 := t1.(lock := false, stages := [Retry, Start]);
    assert !SomebodyLive(t2);
    steps := Move(s, steps, t2, Step(0, Run(true)), t3, KeepsOrRecovers);
    var t4 := t1.(stages := [Build(true), Start]);
    steps := Move(s, steps, t3, Step(0, Run(true)), t4, KeepsOrRecovers);
    steps, t5 := WholeBuild(s, steps, t4, 0, h, KeepsOrRecovers);
  }

  /** The first of a pair, up to the opened tar. */
  lemma FirstWrites(h: Hash) returns (steps: seq<Step>, t: State)
    ensures After(Pair(false, h), steps, Anything) == Some(t)
    ensures t == State(true, Torn, Absent, [h, h], [TarOpen(true), Start], true, Absent, false)
  {
    hide After;
    var s := Pair(false, h);
    NoSteps(s, Anything);
    var first := Step(0, Run(false));
    var t1 := s.(stages := [Acquire, Start]);
    steps := Move(s, [], s, first, t1, Anything);
    var t2 := s.(lock := true, stages := [Build(true), Start]);
    steps := Move(s, steps, t1, first, t2, Anything);
    t := t2.(tar := Torn, committed := false, stages := [TarOpen(true), Start]);
    steps := Move(s, steps, t2, first, t, Anything);
  }

  /** The second of the pair, tired of waiting, writes beside it. */
  lemma SecondJoins(h: Hash) returns (steps: seq<Step>, t: State)
    ensures After(Pair(false, h), steps, Anything) == Some(t)
    ensures t == State(true, Torn, Absent, [h, h], [TarOpen(true), TarOpen(false)], false, Absent, false)
  {
    hide After;
    hide AllowsWork;
    WorkAllowed(0);
    WorkAllowed(1);
    var s, second := Pair(false, h), Step(1, Run(false));
    var t0, t1;
    steps, t0 := FirstWrites(h);
    steps, t1 := WaitsOut(s, steps, t0, 1, Anything);
    assert t1.stages == [TarOpen(true), Stat];
    var t2 := t1.(stages := [TarOpen(true), Retry]);
    steps := Move(s, steps, t1, second, t2, Anything);
    var t3 := t1.(stages := [TarOpen(true), Build(false)]);
    steps := Move(s, steps, t2, second, t3, Anything);
    assert t3.stages[0].TarOpen?;
    t := t1.(clean := false, stages := [TarOpen(true), TarOpen(false)]);
    steps := Move(s, steps, t3, second, t, Anything);
  }

  /** A builder whose tar write overlapped another's, to its end. */
  lemma FinishesTorn(s: State, steps: seq<Step>, t: State, i: nat, h: Hash) returns (more: seq<Step>, t': State)
    requires WellFormed(s) && After(s, steps, Anything) == Some(t)
    requires i < |t.stages| && t.stages[i].TarOpen? && t.targets[i] == h && !t.clean
    ensures After(s, more, Anything) == Some(t')
    ensures t' == t.(lock := t.lock && !t.stages[i].own, tar := Torn, version := Of(h), committed := true,
                     stages := t.stages[i := Done])
  {
    hide After;
    var own, step := t.stages[i].own, Step(i, Run(false));
    var t1 := Staged(t, i, TarDone(own)).(tar := Torn);
    more := Move(s, steps, t, step, t1, Anything);
    var t2 := Staged(t1, i, VersionOpen(own)).(version := Partial, committed := true);
    more := Move(s, more, t1, step, t2, Anything);
    var t3 := Staged(t2, i, Finish(own)).(version := Of(h));
    more := Move(s, more, t2, step, t3, Anything);
    t' := Staged(t3, i, Done).(lock := t.lock && !own);
    assert t'.stages == t.stages[i := Done];
    more := Move(s, more, t3, step, t', Anything);
  }

  /** The last resort: a builder whose wait ends while another still writes
      the tar goes on without the lock. Nobody crashes, both finish, and the
      torn tar they leave looks fresh. */
  lemma UnlockedLastResort(h: Hash) returns (steps: seq<Step>)
    ensures Fresh(Pair(false, h)) && After(Pair(false, h), steps, Anything).Some?
    ensures var t := After(Pair(false, h), steps, Anything).value;
            t.stages == [Done, Done] && LooksFresh(t, h) && t.tar == Torn
  {
    hide After;
    var s := Pair(false, h);
    var t0, t1, t2;
    steps, t0 := SecondJoins(h);
    steps, t1 := FinishesTorn(s, steps, t0, 0, h);
    steps, t2 := FinishesTorn(s, steps, t1, 1, h);
  }
}
