/** `scripts/coverage-diff-gate.ts`: the changed-line coverage gate. */
module CoverageGate {
  import opened Sorting
  import opened Text
  import opened MapFold
  import opened LcovMerge
  import DiffParse

  // -------------------------------------------------------- exemptions

  datatype Exemptions = Exemptions(exact: set<string>, prefixes: seq<string>)

  function AddExemption(ex: Exemptions, raw: string): Exemptions {
    var line := Trim(raw);
    if line == "" || "#" <= line then ex
    else if EndsWith(line, "/") then ex.(prefixes := ex.prefixes + [line])
    else ex.(exact := ex.exact + {line})
  }

  function ExemptionLines(lines: seq<string>): Exemptions {
    if lines == [] then Exemptions({}, []) else
      AddExemption(ExemptionLines(lines[..|lines| - 1]), lines[|lines| - 1])
  }

  method ParseExemptions(text: string) returns (ex: Exemptions)
    ensures ex == ExemptionLines(Split(text, '\n'))
  {
    hide Trim;
    var exact: set<string> := {};
    var prefixes: seq<string> := [];
    var lines := Split(text, '\n');
    for i := 0 to |lines|
      invariant ExemptionLines(lines[..i]) == Exemptions(exact, prefixes)
    {
      assert lines[..i + 1][..i] == lines[..i];
      var line := Trim(lines[i]);
      if line == "" || "#" <= line {
        continue;
      }
      if EndsWith(line, "/") {
        prefixes := prefixes + [line];
      } else {
        exact := exact + {line};
      }
    }
    assert lines[..|lines|] == lines;
    ex := Exemptions(exact, prefixes);
  }

  predicate IsExempt(path: string, ex: Exemptions) {
    path in ex.exact || exists i :: 0 <= i < |ex.prefixes| && ex.prefixes[i] <= path
  }

  /** A path is exempt exactly when some line names it, or names a directory it is in. */
  lemma {:induction false} ExemptIff(lines: seq<string>, path: string)
    ensures IsExempt(path, ExemptionLines(lines)) <==>
            exists i :: 0 <= i < |lines| && ExemptedBy(path, lines[i])
  {
    hide ExemptedBy;
    hide IsExempt;
    hide AddExemption;
    if lines == [] {
      NothingExempt(path);
    } else {
      var init, last := lines[..|lines| - 1], lines[|lines| - 1];
      ExemptIff(init, path);
      ExemptStep(ExemptionLines(init), last, path);
      if i :| 0 <= i < |init| && ExemptedBy(path, init[i]) {
        assert ExemptedBy(path, lines[i]);
      }
      assert forall i :: 0 <= i < |init| ==> lines[i] == init[i];
    }
  }

  lemma NothingExempt(path: string)
    ensures !IsExempt(path, ExemptionLines([]))
  {
  }

  ghost predicate ExemptedBy(path: string, raw: string) {
    var line := Trim(raw);
    line != "" && !("#" <= line) && if EndsWith(line, "/") then line <= path else line == path
  }

  lemma ExemptStep(ex: Exemptions, raw: string, path: string)
    ensures IsExempt(path, AddExemption(ex, raw)) <==> IsExempt(path, ex) || ExemptedBy(path, raw)
  {
    var after := AddExemption(ex, raw);
    if IsExempt(path, ex) && path !in ex.exact {
      var i :| 0 <= i < |ex.prefixes| && ex.prefixes[i] <= path;
      assert after.prefixes[i] <= path;
    }
    if ExemptedBy(path, raw) && EndsWith(Trim(raw), "/") {
      assert after.prefixes[|ex.prefixes|] <= path;
    }
  }

  /** `src/` TypeScript, except tests, generated files and declarations. */
  predicate IsGateScopedPath(path: string) {
    && "src/" <= path
    && EndsWith(path, ".ts")
    && !EndsWith(path, ".test.ts")
    && !EndsWith(path, ".generated.ts")
    && !EndsWith(path, ".d.ts")
  }

  // --------------------------------------------------------- the tally

  /** The fields of the merged summary the gate reads. */
  datatype Summary = Summary(degraded: bool, files: set<string>, lineHits: Option<map<string, map<int, int>>>)

  datatype Tally = Tally(covered: nat, uncovered: nat, neverLoaded: nat, gated: nat, broken: bool)

  const NOTHING := Tally(0, 0, 0, 0, false)

  function Records(s: Summary): set<string> {
    s.files + if s.lineHits.Some? then s.lineHits.value.Keys else {}
  }

  /** Changed lines that ran, and changed lines that are executable but did not run. */
  function Hit(lines: seq<nat>, da: map<int, int>): nat {
    if lines == [] then 0 else
      var n := |lines| - 1;
      Hit(lines[..n], da) + if lines[n] in da && da[lines[n]] > 0 then 1 else 0
  }

  function Missed(lines: seq<nat>, da: map<int, int>): nat {
    if lines == [] then 0 else
      var n := |lines| - 1;
      Missed(lines[..n], da) + if lines[n] in da && da[lines[n]] <= 0 then 1 else 0
  }

  function FileHits(s: Summary, file: string): map<int, int> {
    if s.lineHits.Some? && file in s.lineHits.value then s.lineHits.value[file] else map[]
  }

  function TallyFile(t: Tally, file: string, lines: seq<nat>, ex: Exemptions, s: Summary): Tally {
    if t.broken || IsExempt(file, ex) then t
    else
      var t := t.(gated := t.gated + |lines|);
      if file !in Records(s) then t.(neverLoaded := t.neverLoaded + 1)
      else if s.lineHits.None? then t.(broken := true)
      else
        var da := FileHits(s, file);
        t.(covered := t.covered + Hit(lines, da), uncovered := t.uncovered + Missed(lines, da))
  }

  function TallyFiles(files: seq<string>, changed: DiffParse.Changed, ex: Exemptions, s: Summary): Tally
    requires forall f :: f in files ==> f in changed
  {
    if files == [] then NOTHING else
      var n := |files| - 1;
      TallyFile(TallyFiles(files[..n], changed, ex, s), files[n], changed[files[n]], ex, s)
  }

  /** The gate-scoped changed files in path order. */
  ghost function ScopedFiles(changed: DiffParse.Changed): (files: seq<string>)
    ensures forall f :: f in files ==> f in changed
  {
    StringOrder();
    Listing((set f | f in changed && IsGateScopedPath(f)), StringLe)
  }

  ghost function TallyAll(changed: DiffParse.Changed, ex: Exemptions, s: Summary): Tally {
    TallyFiles(ScopedFiles(changed), changed, ex, s)
  }

  const THRESHOLD := 0.8 - 0.000000001

  function Ratio(t: Tally): real {
    if t.covered + t.uncovered == 0 then 1.0
    else t.covered as real / (t.covered + t.uncovered) as real
  }

  predicate Passes(t: Tally) {
    Ratio(t) >= THRESHOLD && t.neverLoaded == 0
  }

  // ----------------------------------------------------------- the run

  datatype Classification = EMPTY | DOC_ONLY | SRC

  /** Exit codes: 0 pass or report only, 1 gate failure, 2 infrastructure error. */
  function ExitCode(t: Tally, trailer: bool, degraded: bool, enforcing: bool): int {
    if t.broken then 2
    else if t.gated == 0 then 0
    else if trailer || degraded || !enforcing || Passes(t) then 0
    else 1
  }

  ghost function GateExit(cls: Classification, changed: DiffParse.Changed, ex: Exemptions, s: Summary,
                          trailer: bool, enforcing: bool): int {
    if cls != SRC then 0 else ExitCode(TallyAll(changed, ex, s), trailer, s.degraded, enforcing)
  }

  method CountLines(lines: seq<nat>, da: map<int, int>) returns (fileCovered: nat, fileUncovered: seq<nat>)
    ensures fileCovered == Hit(lines, da) && |fileUncovered| == Missed(lines, da)
    ensures forall l :: l in fileUncovered ==> l in lines && l in da && da[l] <= 0
  {
    fileCovered := 0;
    fileUncovered := [];
    for i := 0 to |lines|
      invariant fileCovered == Hit(lines[..i], da) && |fileUncovered| == Missed(lines[..i], da)
      invariant forall l :: l in fileUncovered ==> l in lines && l in da && da[l] <= 0
    {
      assert lines[..i + 1][..i] == lines[..i];
      var line := lines[i];
      if line !in da {
        continue;
      }
      if da[line] > 0 {
        fileCovered := fileCovered + 1;
      } else {
        fileUncovered := fileUncovered + [line];
      }
    }
    assert lines[..|lines|] == lines;
  }

  /** The gate loop over the scoped files. */
  method TallyLoop(scopedFiles: seq<string>, changed: DiffParse.Changed, ex: Exemptions, s: Summary)
    returns (t: Tally)
    requires forall f :: f in scopedFiles ==> f in changed
    ensures t == TallyFiles(scopedFiles, changed, ex, s)
  {
    hide IsExempt;
    hide Records;
    hide FileHits;
    hide Hit;
    hide Missed;
    var covered: nat, uncovered: nat, neverLoaded: nat, gated: nat := 0, 0, 0, 0;
    for i := 0 to |scopedFiles|
      invariant TallyFiles(scopedFiles[..i], changed, ex, s) == Tally(covered, uncovered, neverLoaded, gated, false)
    {
      var file := scopedFiles[i];
      assert scopedFiles[..i + 1][..i] == scopedFiles[..i];
      assert file in scopedFiles;
      var addedLines := changed[file];
      if IsExempt(file, ex) {
        continue;
      }
      gated := gated + |addedLines|;
      if file !in Records(s) {
        neverLoaded := neverLoaded + 1;
        continue;
      }
      if s.lineHits.None? {
        BrokenStays(scopedFiles, i + 1, changed, ex, s);
        assert scopedFiles[..|scopedFiles|] == scopedFiles;
        return Tally(covered, uncovered, neverLoaded, gated, true);
      }
      var fileCovered, missedLines := CountLines(addedLines, FileHits(s, file));
      covered := covered + fileCovered;
      uncovered := uncovered + |missedLines|;
    }
    assert scopedFiles[..|scopedFiles|] == scopedFiles;
    t := Tally(covered, uncovered, neverLoaded, gated, false);
  }

  lemma {:induction false} BrokenStays(files: seq<string>, i: nat, changed: DiffParse.Changed, ex: Exemptions, s: Summary)
    requires i <= |files| && forall f :: f in files ==> f in changed
    requires TallyFiles(files[..i], changed, ex, s).broken
    ensures TallyFiles(files[..|files|], changed, ex, s) == TallyFiles(files[..i], changed, ex, s)
    decreases |files|
  {
    assert files[..|files|] == files;
    if i < |files| {
      var n := |files| - 1;
      assert files[..n][..i] == files[..i] && files[..n][..n] == files[..n];
      BrokenStays(files[..n], i, changed, ex, s);
    }
  }

  method RunGate(cls: Classification, diffText: string, exemptionsText: string, s: Summary, trailer: bool, enforcing: bool)
    returns (exit: int)
    ensures exit == GateExit(cls, DiffParse.Parse(diffText), ExemptionLines(Split(exemptionsText, '\n')), s, trailer, enforcing)
  {
    hide IsGateScopedPath;
    hide DiffParse.Parse;
    hide ExemptionLines;
    hide Split;
    hide Sort;
    hide TallyFiles;
    hide Listing;
    if cls == EMPTY || cls == DOC_ONLY {
      return 0;
    }
    var changed := DiffParse.ParseUnifiedDiff(diffText);
    var ex := ParseExemptions(exemptionsText);
    var scoped := set f | f in changed && IsGateScopedPath(f);
    var keys := InSomeOrder(scoped);
    StringOrder();
    ListingUnique(keys, scoped, StringLe);
    var scopedFiles := Sort(keys, StringLe);
    var t := TallyLoop(scopedFiles, changed, ex, s);
    exit := ExitCode(t, trailer, s.degraded, enforcing);
  }

  /** The gate fails a branch in exactly one situation. */
  lemma FailsIff(cls: Classification, changed: DiffParse.Changed, ex: Exemptions, s: Summary, trailer: bool, enforcing: bool)
    ensures var t := TallyAll(changed, ex, s);
            GateExit(cls, changed, ex, s, trailer, enforcing) == 1 <==>
              cls == SRC && enforcing && !trailer && !s.degraded && !t.broken && t.gated > 0 &&
              (t.neverLoaded > 0 || t.covered as real < THRESHOLD * (t.covered + t.uncovered) as real)
  {
    hide TallyAll;
    var t := TallyAll(changed, ex, s);
    RatioBelow(t.covered, t.uncovered);
  }

  lemma RatioBelow(c: nat, u: nat)
    ensures c + u > 0 ==>
      (c as real / (c + u) as real < THRESHOLD <==> c as real < THRESHOLD * (c + u) as real)
    ensures c + u == 0 ==> !(c as real < THRESHOLD * (c + u) as real)
  {
    if c + u > 0 {
      var d := (c + u) as real;
      assert c as real / d * d == c as real;
    }
  }

  // ------------------------------------------- merging another lane in

  /** The summary of merged coverage: `src/` files only. */
  function SummaryOf(m: Merged, degraded: bool): Summary {
    var src := set f | f in m && "src/" <= f;
    Summary(degraded, src, Some(map f | f in src :: m[f].da))
  }

  ghost predicate HitsNonNegative(m: Merged) {
    forall f, l :: f in m && l in m[f].da ==> m[f].da[l] >= 0
  }

  /** Every changed line the lane newly makes executable also runs in it. */
  ghost predicate NewLinesRun(m: Merged, lane: Merged, changed: DiffParse.Changed, ex: Exemptions) {
    forall f, l | f in changed && IsGateScopedPath(f) && !IsExempt(f, ex) && l in changed[f] ::
      f in lane && l in lane[f].da && !(f in m && l in m[f].da) ==> lane[f].da[l] > 0
  }

  /** `b` is no worse than `a` on the changed lines of one file. */
  ghost predicate NoWorse(lines: seq<nat>, a: map<int, int>, b: map<int, int>) {
    forall l: nat :: l in lines ==>
      (l in a && a[l] > 0 ==> l in b && b[l] > 0) && (l in b && b[l] <= 0 ==> l in a && a[l] <= 0)
  }

  lemma {:induction false} CountsNoWorse(lines: seq<nat>, a: map<int, int>, b: map<int, int>)
    requires NoWorse(lines, a, b)
    ensures Hit(lines, a) <= Hit(lines, b) && Missed(lines, b) <= Missed(lines, a)
  {
    if lines != [] {
      var n := |lines| - 1;
      assert lines[n] in lines;
      CountsNoWorse(lines[..n], a, b);
    }
  }

  ghost predicate TallyNoWorse(a: Tally, b: Tally) {
    && a.covered <= b.covered && b.uncovered <= a.uncovered && b.neverLoaded <= a.neverLoaded
    && a.gated == b.gated && !a.broken && !b.broken
  }

  lemma LaneNoWorse(m: Merged, lane: Merged, changed: DiffParse.Changed, ex: Exemptions, f: string)
    requires HitsNonNegative(m) && HitsNonNegative(lane) && NewLinesRun(m, lane, changed, ex)
    requires f in changed && IsGateScopedPath(f) && !IsExempt(f, ex) && f in m
    ensures f in Plus(m, lane) && NoWorse(changed[f], m[f].da, Plus(m, lane)[f].da)
  {
    hide IsExempt;
    hide IsGateScopedPath;
  }

  lemma FileNoWorse(t: Tally, t': Tally, f: string, m: Merged, lane: Merged, changed: DiffParse.Changed, ex: Exemptions,
                    d: bool, d': bool)
    requires HitsNonNegative(m) && HitsNonNegative(lane) && NewLinesRun(m, lane, changed, ex)
    requires f in changed && IsGateScopedPath(f) && TallyNoWorse(t, t')
    requires TallyFile(t, f, changed[f], ex, SummaryOf(m, d)).neverLoaded == 0
    ensures TallyNoWorse(TallyFile(t, f, changed[f], ex, SummaryOf(m, d)),
                         TallyFile(t', f, changed[f], ex, SummaryOf(Plus(m, lane), d')))
  {
    if !IsExempt(f, ex) {
      assert f in m && "src/" <= f;
      LaneNoWorse(m, lane, changed, ex, f);
      CountsNoWorse(changed[f], m[f].da, Plus(m, lane)[f].da);
    }
    hide IsExempt;
    hide IsGateScopedPath;
    hide Plus;
    hide Hit;
    hide Missed;
  }

  lemma {:induction false} FilesNoWorse(files: seq<string>, m: Merged, lane: Merged, changed: DiffParse.Changed,
                                        ex: Exemptions, d: bool, d': bool)
    requires HitsNonNegative(m) && HitsNonNegative(lane) && NewLinesRun(m, lane, changed, ex)
    requires forall f :: f in files ==> f in changed && IsGateScopedPath(f)
    requires TallyFiles(files, changed, ex, SummaryOf(m, d)).neverLoaded == 0
    ensures TallyNoWorse(TallyFiles(files, changed, ex, SummaryOf(m, d)),
                         TallyFiles(files, changed, ex, SummaryOf(Plus(m, lane), d')))
  {
    hide TallyFile;
    hide SummaryOf;
    hide IsGateScopedPath;
    hide HitsNonNegative;
    hide NewLinesRun;
    if files != [] {
      var n := |files| - 1;
      var before := TallyFiles(files[..n], changed, ex, SummaryOf(m, d));
      TallyGrows(before, files[n], changed[files[n]], ex, SummaryOf(m, d));
      FilesNoWorse(files[..n], m, lane, changed, ex, d, d');
      FileNoWorse(before, TallyFiles(files[..n], changed, ex, SummaryOf(Plus(m, lane), d')), files[n], m, lane, changed, ex, d, d');
    }
  }

  lemma TallyGrows(t: Tally, f: string, lines: seq<nat>, ex: Exemptions, s: Summary)
    ensures TallyFile(t, f, lines, ex, s).neverLoaded >= t.neverLoaded
  {
  }

  lemma PassesNoWorse(a: Tally, b: Tally)
    requires TallyNoWorse(a, b) && Passes(a)
    ensures Passes(b)
  {
    RatioBelow(a.covered, a.uncovered);
    RatioBelow(b.covered, b.uncovered);
    if a.covered + a.uncovered > 0 && b.covered + b.uncovered > 0 {
      assert a.covered as real >= THRESHOLD * (a.covered + a.uncovered) as real;
    }
  }

  /** Coverage only helps: a branch the gate lets through on some merged lanes
      is let through once another lane is merged in, provided the lane runs
      every changed line it newly makes executable. */
  lemma MergingKeepsVerdict(m: Merged, lane: Merged, changed: DiffParse.Changed, ex: Exemptions,
                            cls: Classification, trailer: bool, enforcing: bool, d: bool, d': bool)
    requires HitsNonNegative(m) && HitsNonNegative(lane) && NewLinesRun(m, lane, changed, ex)
    requires d ==> d'
    requires GateExit(cls, changed, ex, SummaryOf(m, d), trailer, enforcing) == 0
    ensures GateExit(cls, changed, ex, SummaryOf(Plus(m, lane), d'), trailer, enforcing) == 0
  {
    hide TallyFiles;
    hide Plus;
    hide IsGateScopedPath;
    var files := ScopedFiles(changed);
    NotBroken(files, changed, ex, m, d);
    NotBroken(files, changed, ex, Plus(m, lane), d');
    var a, b := TallyAll(changed, ex, SummaryOf(m, d)), TallyAll(changed, ex, SummaryOf(Plus(m, lane), d'));
    SameGated(files, changed, ex, SummaryOf(m, d), SummaryOf(Plus(m, lane), d'));
    if Passes(a) {
      FilesNoWorse(files, m, lane, changed, ex, d, d');
      PassesNoWorse(a, b);
    }
  }

  lemma {:induction false} NotBroken(files: seq<string>, changed: DiffParse.Changed, ex: Exemptions, m: Merged, d: bool)
    requires forall f :: f in files ==> f in changed
    ensures !TallyFiles(files, changed, ex, SummaryOf(m, d)).broken
  {
    if files != [] {
      NotBroken(files[..|files| - 1], changed, ex, m, d);
    }
  }

  lemma {:induction false} SameGated(files: seq<string>, changed: DiffParse.Changed, ex: Exemptions, s: Summary, s': Summary)
    requires forall f :: f in files ==> f in changed
    requires s.lineHits.Some? && s'.lineHits.Some?
    ensures var t, t' := TallyFiles(files, changed, ex, s), TallyFiles(files, changed, ex, s');
            t.gated == t'.gated && !t.broken && !t'.broken
  {
    if files != [] {
      SameGated(files[..|files| - 1], changed, ex, s, s');
    }
  }
}
