/** `scripts/coverage-diff-gate.ts`: when the gate exits with 0, 1 or 2, told
    by the changed lines and the coverage summary alone. */
module CoverageVerdict {
  import opened Sorting
  import opened Text
  import opened CoverageGate
  import DiffParse

  // -------------------------------------------------------- gated files

  /** TypeScript under `src/`, but no tests, generated files or declarations. */
  ghost predicate GateCovers(f: string) {
    && HasStart(f, "src/") && HasEnd(f, ".ts")
    && !HasEnd(f, ".test.ts") && !HasEnd(f, ".generated.ts") && !HasEnd(f, ".d.ts")
  }

  lemma GateCoversIff(f: string)
    ensures GateCovers(f) <==> IsGateScopedPath(f)
  {
    hide EndsWith;
    hide HasEnd;
    hide HasStart;
    HasStartIff(f, "src/");
    HasEndIff(f, ".ts");
    HasEndIff(f, ".test.ts");
    HasEndIff(f, ".generated.ts");
    HasEndIff(f, ".d.ts");
  }

  /** A changed file the gate covers and no exemption line names. */
  ghost predicate Gated(changed: DiffParse.Changed, exLines: seq<string>, f: string) {
    f in changed && GateCovers(f) && !exists i :: 0 <= i < |exLines| && ExemptedBy(f, exLines[i])
  }

  ghost predicate HasRecord(s: Summary, f: string) {
    f in s.files || (s.lineHits.Some? && f in s.lineHits.value)
  }

  // ------------------------------------------------------- changed lines

  /** A changed line, by its file and its place among the file's changed lines. */
  type Place = (string, int)

  ghost predicate HitsAt(changed: DiffParse.Changed, s: Summary, p: Place, n: int) {
    && p.0 in changed && 0 <= p.1 < |changed[p.0]|
    && s.lineHits.Some? && p.0 in s.lineHits.value
    && changed[p.0][p.1] in s.lineHits.value[p.0] && s.lineHits.value[p.0][changed[p.0][p.1]] == n
  }

  ghost predicate IsCovered(changed: DiffParse.Changed, s: Summary, p: Place) {
    exists n :: HitsAt(changed, s, p, n) && n > 0
  }

  ghost predicate IsUncovered(changed: DiffParse.Changed, s: Summary, p: Place) {
    exists n :: HitsAt(changed, s, p, n) && n <= 0
  }

  /** The changed lines of some files. */
  function Places(changed: DiffParse.Changed, files: set<string>): set<Place> {
    set f, i | f in files && f in changed && 0 <= i < |changed[f]| :: (f, i)
  }

  ghost function CoveredLines(changed: DiffParse.Changed, s: Summary, files: set<string>): set<Place> {
    set p | p in Places(changed, files) && IsCovered(changed, s, p)
  }

  ghost function UncoveredLines(changed: DiffParse.Changed, s: Summary, files: set<string>): set<Place> {
    set p | p in Places(changed, files) && IsUncovered(changed, s, p)
  }

  ghost function GatedFiles(changed: DiffParse.Changed, exLines: seq<string>): set<string> {
    set f | f in changed && Gated(changed, exLines, f)
  }

  // -------------------------------------------------- counting by the loop

  lemma InFile(changed: DiffParse.Changed, s: Summary, f: string, i: int)
    requires f in changed && 0 <= i < |changed[f]|
    ensures var l, da := changed[f][i], FileHits(s, f);
            && (IsCovered(changed, s, (f, i)) <==> l in da && da[l] > 0)
            && (IsUncovered(changed, s, (f, i)) <==> l in da && da[l] <= 0)
  {
    var l, da := changed[f][i], FileHits(s, f);
    if l in da {
      assert HitsAt(changed, s, (f, i), da[l]);
    }
  }

  /** The places of one file, up to its `n`-th changed line. */
  function UpTo(changed: DiffParse.Changed, f: string, n: nat): set<Place>
    requires f in changed && n <= |changed[f]|
  {
    set i | 0 <= i < n :: (f, i)
  }

  lemma UpToNext(changed: DiffParse.Changed, f: string, i: nat, n: nat)
    requires f in changed && i + 1 == n <= |changed[f]|
    ensures UpTo(changed, f, n) == UpTo(changed, f, i) + {(f, i)} && (f, i) !in UpTo(changed, f, i)
  {
  }

  ghost function CoveredUpTo(changed: DiffParse.Changed, s: Summary, f: string, n: nat): set<Place>
    requires f in changed && n <= |changed[f]|
  {
    set p | p in UpTo(changed, f, n) && IsCovered(changed, s, p)
  }

  ghost function UncoveredUpTo(changed: DiffParse.Changed, s: Summary, f: string, n: nat): set<Place>
    requires f in changed && n <= |changed[f]|
  {
    set p | p in UpTo(changed, f, n) && IsUncovered(changed, s, p)
  }

  lemma NextCounted(changed: DiffParse.Changed, s: Summary, f: string, i: nat, n: nat)
    requires f in changed && i + 1 == n <= |changed[f]|
    ensures |CoveredUpTo(changed, s, f, n)| == |CoveredUpTo(changed, s, f, i)| + if IsCovered(changed, s, (f, i)) then 1 else 0
    ensures |UncoveredUpTo(changed, s, f, n)| ==
            |UncoveredUpTo(changed, s, f, i)| + if IsUncovered(changed, s, (f, i)) then 1 else 0
  {
    hide IsCovered;
    hide IsUncovered;
    hide UpTo;
    UpToNext(changed, f, i, n);
    var hits, misses := CoveredUpTo(changed, s, f, i), UncoveredUpTo(changed, s, f, i);
    assert CoveredUpTo(changed, s, f, n) == if IsCovered(changed, s, (f, i)) then hits + {(f, i)} else hits;
    assert UncoveredUpTo(changed, s, f, n) == if IsUncovered(changed, s, (f, i)) then misses + {(f, i)} else misses;
  }

  lemma {:induction false} FileCounts(changed: DiffParse.Changed, s: Summary, f: string, n: nat)
    requires f in changed && n <= |changed[f]|
    ensures |CoveredUpTo(changed, s, f, n)| == Hit(changed[f][..n], FileHits(s, f))
    ensures |UncoveredUpTo(changed, s, f, n)| == Missed(changed[f][..n], FileHits(s, f))
  {
    hide IsCovered;
    hide IsUncovered;
    hide FileHits;
    if n > 0 {
      hide CoveredUpTo;
      hide UncoveredUpTo;
      var i := n - 1;
      FileCounts(changed, s, f, i);
      InFile(changed, s, f, i);
      NextCounted(changed, s, f, i, n);
      assert changed[f][..n][..i] == changed[f][..i];
    }
  }

  lemma OneFile(changed: DiffParse.Changed, s: Summary, f: string)
    requires f in changed
    ensures |CoveredLines(changed, s, {f})| == Hit(changed[f], FileHits(s, f))
    ensures |UncoveredLines(changed, s, {f})| == Missed(changed[f], FileHits(s, f))
  {
    hide IsCovered;
    hide IsUncovered;
    hide Hit;
    hide Missed;
    hide FileHits;
    var n := |changed[f]|;
    FileCounts(changed, s, f, n);
    assert changed[f][..n] == changed[f];
    assert Places(changed, {f}) == UpTo(changed, f, n);
    hide Places;
    hide UpTo;
    assert CoveredLines(changed, s, {f}) == CoveredUpTo(changed, s, f, n);
    assert UncoveredLines(changed, s, {f}) == UncoveredUpTo(changed, s, f, n);
  }

  lemma PlacesAdd(changed: DiffParse.Changed, files: set<string>, f: string)
    requires f !in files
    ensures Places(changed, files + {f}) == Places(changed, files) + Places(changed, {f})
    ensures Places(changed, files) !! Places(changed, {f})
  {
  }

  /** One file more. */
  lemma FileAdds(changed: DiffParse.Changed, s: Summary, files: set<string>, f: string)
    requires f in changed && f !in files
    ensures |CoveredLines(changed, s, files + {f})| == |CoveredLines(changed, s, files)| + Hit(changed[f], FileHits(s, f))
    ensures |UncoveredLines(changed, s, files + {f})| == |UncoveredLines(changed, s, files)| + Missed(changed[f], FileHits(s, f))
  {
    hide IsCovered;
    hide IsUncovered;
    hide Hit;
    hide Missed;
    hide FileHits;
    hide Places;
    OneFile(changed, s, f);
    PlacesAdd(changed, files, f);
    var c, u := CoveredLines(changed, s, {f}), UncoveredLines(changed, s, {f});
    assert CoveredLines(changed, s, files + {f}) == CoveredLines(changed, s, files) + c;
    assert UncoveredLines(changed, s, files + {f}) == UncoveredLines(changed, s, files) + u;
    assert CoveredLines(changed, s, files) !! c && UncoveredLines(changed, s, files) !! u;
  }

  /** The files of the list that are not exempt. */
  function Kept(files: seq<string>, ex: Exemptions): set<string> {
    set f | f in files && !IsExempt(f, ex)
  }

  /** What the loop has counted over the files kept. */
  ghost predicate Counts(t: Tally, changed: DiffParse.Changed, s: Summary, kept: set<string>)
    requires forall f :: f in kept ==> f in changed
  {
    && (t.broken <==> s.lineHits.None? && exists f :: f in kept && f in s.files)
    && (!t.broken ==>
          && t.covered == |CoveredLines(changed, s, kept)| && t.uncovered == |UncoveredLines(changed, s, kept)|
          && (t.neverLoaded > 0 <==> exists f :: f in kept && !HasRecord(s, f))
          && (t.gated > 0 <==> exists f :: f in kept && changed[f] != []))
  }

  lemma NothingKept(changed: DiffParse.Changed, s: Summary)
    ensures Counts(NOTHING, changed, s, {})
  {
    assert CoveredLines(changed, s, {}) == {} && UncoveredLines(changed, s, {}) == {};
  }

  lemma RecordsIff(s: Summary, f: string)
    ensures f in Records(s) <==> HasRecord(s, f)
    ensures s.lineHits.None? ==> (HasRecord(s, f) <==> f in s.files) && FileHits(s, f) == map[]
  {
  }

  lemma {:induction false} NoHits(lines: seq<nat>)
    ensures Hit(lines, map[]) == 0 && Missed(lines, map[]) == 0
  {
    if lines != [] {
      NoHits(lines[..|lines| - 1]);
    }
  }

  lemma {:induction false} NotLoaded(lines: seq<nat>, s: Summary, f: string)
    requires !HasRecord(s, f)
    ensures Hit(lines, FileHits(s, f)) == 0 && Missed(lines, FileHits(s, f)) == 0
  {
    NoHits(lines);
  }

  lemma FileCounted(t: Tally, changed: DiffParse.Changed, ex: Exemptions, s: Summary, kept: set<string>, f: string)
    requires f in changed && f !in kept && !IsExempt(f, ex) && forall f :: f in kept ==> f in changed
    requires Counts(t, changed, s, kept)
    ensures Counts(TallyFile(t, f, changed[f], ex, s), changed, s, kept + {f})
  {
    hide IsExempt;
    hide Hit;
    hide Missed;
    hide FileHits;
    hide CoveredLines;
    hide UncoveredLines;
    hide HasRecord;
    hide Records;
    RecordsIff(s, f);
    FileAdds(changed, s, kept, f);
    if !HasRecord(s, f) { NotLoaded(changed[f], s, f); }
    var t' := TallyFile(t, f, changed[f], ex, s);
    BrokenIff(s, kept, f);
    LoadedIff(s, kept, f);
    SomeLineIff(changed, kept, f);
    if !t'.broken {
      assert f in Records(s) ==> s.lineHits.Some?;
    }
  }

  lemma BrokenIff(s: Summary, kept: set<string>, f: string)
    ensures (exists g :: g in kept + {f} && g in s.files) <==> (exists g :: g in kept && g in s.files) || f in s.files
  {
    if f in s.files { assert f in kept + {f}; }
    if g :| g in kept && g in s.files { assert g in kept + {f}; }
  }

  lemma LoadedIff(s: Summary, kept: set<string>, f: string)
    ensures (exists g :: g in kept + {f} && !HasRecord(s, g)) <==>
            (exists g :: g in kept && !HasRecord(s, g)) || !HasRecord(s, f)
  {
    hide HasRecord;
    if !HasRecord(s, f) { assert f in kept + {f}; }
    if g :| g in kept && !HasRecord(s, g) { assert g in kept + {f}; }
  }

  lemma SomeLineIff(changed: DiffParse.Changed, kept: set<string>, f: string)
    requires f in changed && forall f :: f in kept ==> f in changed
    ensures (exists g :: g in kept + {f} && changed[g] != []) <==> (exists g :: g in kept && changed[g] != []) || changed[f] != []
  {
    if changed[f] != [] { assert f in kept + {f}; }
    if g :| g in kept && changed[g] != [] { assert g in kept + {f}; }
  }

  lemma {:induction false} FilesCounted(files: seq<string>, changed: DiffParse.Changed, ex: Exemptions, s: Summary)
    requires forall f :: f in files ==> f in changed
    requires forall i, j :: 0 <= i < j < |files| ==> files[i] != files[j]
    ensures Counts(TallyFiles(files, changed, ex, s), changed, s, Kept(files, ex))
  {
    hide IsExempt;
    hide Counts;
    if files == [] {
      NothingKept(changed, s);
      assert Kept(files, ex) == {};
    } else {
      var n := |files| - 1;
      FilesCounted(files[..n], changed, ex, s);
      assert files == files[..n] + [files[n]];
      var t := TallyFiles(files[..n], changed, ex, s);
      if IsExempt(files[n], ex) {
        assert Kept(files, ex) == Kept(files[..n], ex);
      } else {
        assert Kept(files, ex) == Kept(files[..n], ex) + {files[n]};
        FileCounted(t, changed, ex, s, Kept(files[..n], ex), files[n]);
      }
    }
  }

  // ----------------------------------------------------------- the verdict

  /** Some gated file has coverage, but the summary has no hits per line. */
  ghost predicate SummaryUnusable(changed: DiffParse.Changed, exLines: seq<string>, s: Summary) {
    s.lineHits.None? && exists f :: Gated(changed, exLines, f) && f in s.files
  }

  ghost predicate SomeGatedLine(changed: DiffParse.Changed, exLines: seq<string>) {
    exists f :: Gated(changed, exLines, f) && changed[f] != []
  }

  ghost predicate SomeNeverLoaded(changed: DiffParse.Changed, exLines: seq<string>, s: Summary) {
    exists f :: Gated(changed, exLines, f) && !HasRecord(s, f)
  }

  /** Less than 80 % of the executable changed lines ran, 1e-9 allowed. */
  ghost predicate TooFewCovered(changed: DiffParse.Changed, exLines: seq<string>, s: Summary) {
    var files := GatedFiles(changed, exLines);
    var covered, uncovered := |CoveredLines(changed, s, files)|, |UncoveredLines(changed, s, files)|;
    covered as real < (0.8 - 0.000000001) * (covered + uncovered) as real
  }

  lemma KeptIsGated(changed: DiffParse.Changed, exLines: seq<string>, ex: Exemptions)
    requires ex == ExemptionLines(exLines)
    ensures Kept(ScopedFiles(changed), ex) == GatedFiles(changed, exLines)
  {
    hide IsExempt;
    hide ExemptionLines;
    hide IsGateScopedPath;
    hide GateCovers;
    hide ExemptedBy;
    hide Listing;
    StringOrder();
    forall f ensures f in Kept(ScopedFiles(changed), ex) <==> f in GatedFiles(changed, exLines) {
      ExemptIff(exLines, f);
      GateCoversIff(f);
    }
  }

  lemma ScopedDistinct(changed: DiffParse.Changed)
    ensures forall i, j :: 0 <= i < j < |ScopedFiles(changed)| ==> ScopedFiles(changed)[i] != ScopedFiles(changed)[j]
  {
    hide IsGateScopedPath;
    hide StringLe;
    StringOrder();
    NoDuplicates(ScopedFiles(changed), set f | f in changed && IsGateScopedPath(f));
  }

  lemma AllCounted(changed: DiffParse.Changed, exLines: seq<string>, s: Summary)
    ensures Counts(TallyAll(changed, ExemptionLines(exLines), s), changed, s, GatedFiles(changed, exLines))
  {
    hide TallyFiles;
    hide ExemptionLines;
    hide ScopedFiles;
    hide Gated;
    hide Counts;
    hide Kept;
    hide TallyAll;
    var ex := ExemptionLines(exLines);
    ScopedDistinct(changed);
    FilesCounted(ScopedFiles(changed), changed, ex, s);
    KeptIsGated(changed, exLines, ex);
    CountedAll(changed, ex, s, GatedFiles(changed, exLines));
  }

  lemma CountedAll(changed: DiffParse.Changed, ex: Exemptions, s: Summary, kept: set<string>)
    requires forall f :: f in kept ==> f in changed
    requires Counts(TallyFiles(ScopedFiles(changed), changed, ex, s), changed, s, kept)
    ensures Counts(TallyAll(changed, ex, s), changed, s, kept)
  {
    hide Counts;
    hide TallyFiles;
    hide ScopedFiles;
  }

  /** The gate's exit code. 2: the summary cannot be used for some gated file
      it has coverage of. 1: it can, nothing makes the run report-only, some
      line is gated, and a gated file was never loaded or too few of the
      executable changed lines ran. 0: every other run. */
  lemma ExitIff(cls: Classification, changed: DiffParse.Changed, exLines: seq<string>, s: Summary, trailer: bool, enforcing: bool)
    ensures var exit := GateExit(cls, changed, ExemptionLines(exLines), s, trailer, enforcing);
            var unusable := SummaryUnusable(changed, exLines, s);
            && (exit == 2 <==> cls == SRC && unusable)
            && (exit == 1 <==>
                  && cls == SRC && !unusable && enforcing && !trailer && !s.degraded && SomeGatedLine(changed, exLines)
                  && (SomeNeverLoaded(changed, exLines, s) || TooFewCovered(changed, exLines, s)))
            && exit in {0, 1, 2}
  {
    hide TallyFiles;
    hide ExemptionLines;
    hide Gated;
    hide HasRecord;
    hide CoveredLines;
    hide UncoveredLines;
    AllCounted(changed, exLines, s);
    var t := TallyAll(changed, ExemptionLines(exLines), s);
    RatioBelow(t.covered, t.uncovered);
    KeptAsGated(changed, exLines, s);
    hide TallyAll;
  }

  lemma KeptAsGated(changed: DiffParse.Changed, exLines: seq<string>, s: Summary)
    ensures var files := GatedFiles(changed, exLines);
            && ((exists f :: f in files && f in s.files) <==> (exists f :: Gated(changed, exLines, f) && f in s.files))
            && (SomeNeverLoaded(changed, exLines, s) <==> exists f :: f in files && !HasRecord(s, f))
            && (SomeGatedLine(changed, exLines) <==> exists f :: f in files && changed[f] != [])
  {
    hide HasRecord;
    hide GateCovers;
    hide ExemptedBy;
    var files := GatedFiles(changed, exLines);
    assert forall f :: f in files <==> Gated(changed, exLines, f);
  }

  // ----------------------------------------------------- lines, not places

  ghost predicate Distinct(changed: DiffParse.Changed) {
    forall f :: f in changed ==> forall i, j :: 0 <= i < j < |changed[f]| ==> changed[f][i] != changed[f][j]
  }

  /** The file and the number of a changed line. */
  function LineAt(changed: DiffParse.Changed, p: Place): (string, int)
    requires p.0 in changed && 0 <= p.1 < |changed[p.0]|
  {
    (p.0, changed[p.0][p.1])
  }

  ghost predicate Valid(changed: DiffParse.Changed, places: set<Place>) {
    forall p :: p in places ==> p.0 in changed && 0 <= p.1 < |changed[p.0]|
  }

  function LinesAt(changed: DiffParse.Changed, places: set<Place>): set<(string, int)>
    requires Valid(changed, places)
  {
    set p | p in places :: LineAt(changed, p)
  }

  lemma {:induction false} SameSize(changed: DiffParse.Changed, places: set<Place>)
    requires Distinct(changed) && Valid(changed, places)
    ensures |LinesAt(changed, places)| == |places|
  {
    if places == {} {
      assert LinesAt(changed, places) == {};
    } else {
      var q :| q in places;
      SameSize(changed, places - {q});
      var others := LinesAt(changed, places - {q});
      assert LinesAt(changed, places) == others + {LineAt(changed, q)};
      assert LineAt(changed, q) !in others by {
        forall p | p in places - {q} ensures LineAt(changed, p) != LineAt(changed, q) {
          if p.0 == q.0 && p.1 != q.1 {
            assert changed[p.0][p.1] != changed[p.0][q.1];
          }
        }
      }
    }
  }

  /** The line `l` of a gated file is a changed one, and the summary gives it `n` hits. */
  ghost predicate LineHits(changed: DiffParse.Changed, exLines: seq<string>, s: Summary, f: string, l: int, n: int) {
    && Gated(changed, exLines, f) && (exists i :: 0 <= i < |changed[f]| && changed[f][i] == l)
    && s.lineHits.Some? && f in s.lineHits.value && l in s.lineHits.value[f] && s.lineHits.value[f][l] == n
  }

  /** Where no file lists a line twice, as in every diff of an edit, the
      covered and the uncovered are as many as the lines that ran and the
      executable lines that did not. */
  lemma CountedByLine(changed: DiffParse.Changed, exLines: seq<string>, s: Summary,
                      ran: set<(string, int)>, idle: set<(string, int)>)
    requires Distinct(changed)
    requires forall f, l :: (f, l) in ran <==> exists n :: LineHits(changed, exLines, s, f, l, n) && n > 0
    requires forall f, l :: (f, l) in idle <==> exists n :: LineHits(changed, exLines, s, f, l, n) && n <= 0
    ensures |CoveredLines(changed, s, GatedFiles(changed, exLines))| == |ran|
    ensures |UncoveredLines(changed, s, GatedFiles(changed, exLines))| == |idle|
  {
    hide Gated;
    hide HitsAt;
    hide LinesAt;
    hide Distinct;
    var files := GatedFiles(changed, exLines);
    SameSize(changed, CoveredLines(changed, s, files));
    SameSize(changed, UncoveredLines(changed, s, files));
    LinesOf(changed, exLines, s, ran, true);
    LinesOf(changed, exLines, s, idle, false);
  }

  lemma LinesOf(changed: DiffParse.Changed, exLines: seq<string>, s: Summary, lines: set<(string, int)>, hit: bool)
    requires forall f, l :: (f, l) in lines <==> exists n :: LineHits(changed, exLines, s, f, l, n) && (n > 0 <==> hit)
    ensures var files := GatedFiles(changed, exLines);
            var places := if hit then CoveredLines(changed, s, files) else UncoveredLines(changed, s, files);
            Valid(changed, places) && lines == LinesAt(changed, places)
  {
    hide GateCovers;
    hide ExemptedBy;
    var files := GatedFiles(changed, exLines);
    var places := if hit then CoveredLines(changed, s, files) else UncoveredLines(changed, s, files);
    assert Valid(changed, places);
    forall x | x in lines ensures x in LinesAt(changed, places) {
      var (f, l) := x;
      assert (f, l) in lines;
      var n :| LineHits(changed, exLines, s, f, l, n) && (n > 0 <==> hit);
      var i :| 0 <= i < |changed[f]| && changed[f][i] == l;
      assert HitsAt(changed, s, (f, i), n);
      assert (f, i) in Places(changed, files);
      assert (f, i) in places && LineAt(changed, (f, i)) == (f, l);
    }
    forall p | p in places ensures LineAt(changed, p) in lines {
      var n :| HitsAt(changed, s, p, n) && (n > 0 <==> hit);
      assert LineHits(changed, exLines, s, p.0, changed[p.0][p.1], n);
    }
  }
}
