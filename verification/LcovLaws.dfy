/** Promises of the lcov merger that span parser, printer and merge: cut-off
    artifacts, merged artifacts used as inputs, and merging an artifact with
    its own inputs. */
module LcovLaws {
  import opened Sorting
  import opened Mapping
  import opened Text
  import opened MapFold
  import opened Lcov
  import opened LcovMerge
  import opened LcovEmit
  import opened LcovRoundTrip
  import opened LcovArtifact

  // -------------------------------------------------- truncation safety

  /** What a cut can leave behind: a fault, an open record, or an unaltered
      prefix of the full record list. */
  ghost predicate CutOutcome(st: Parser, full: seq<Record>) {
    st.Failed? || st.current.Some? || st.records <= full
  }

  ghost predicate OpenOrFailed(st: Parser) {
    st.Failed? || st.current.Some?
  }

  /** No prefix of such a line is the end marker. */
  ghost predicate NotEnd(l: string) {
    l != "" ==> l[0] != 'e'
  }

  lemma NotEndStays(st: Parser, l: string, no: nat)
    requires OpenOrFailed(st) && StripCr(l) != END_OF_RECORD
    ensures OpenOrFailed(Step(st, l, no))
  {
    if st.Running? {
      OpenStaysOpen(st, l, no);
    }
  }

  lemma NotEndStripped(l: string, tail: string)
    requires NotEnd(l) && tail <= l
    ensures StripCr(tail) != END_OF_RECORD
  {
    if tail != "" {
      assert tail[0] == l[0];
      assert StripCr(tail) != "" ==> StripCr(tail)[0] == tail[0];
    }
  }

  lemma {:induction false} RunStaysOpen(st: Parser, lines: seq<string>, no: nat)
    requires OpenOrFailed(st) && forall i :: 0 <= i < |lines| ==> NotEnd(lines[i])
    ensures OpenOrFailed(Run(st, lines, no))
  {
    hide Step;
    hide NotEnd;
    hide OpenOrFailed;
    if lines != [] {
      var last := |lines| - 1;
      RunStaysOpen(st, lines[..last], no);
      NotEndStripped(lines[last], lines[last]);
      NotEndStays(Run(st, lines[..last], no), lines[last], no + last);
    }
  }

  lemma BodyNotEnd(f: MergedFile)
    ensures forall i :: 0 <= i < |Body(f)| ==> NotEnd(Body(f)[i])
  {
    BodyParts(f);
    hide IntToString;
    hide FnEntries;
    hide FndaEntries;
    hide DaEntries;
    hide Covered;
    hide Body;
  }

  lemma CutTn(st: Parser, tail: string, no: nat)
    requires st.Running? && st.current.None? && tail <= Field("TN", "")
    ensures CutOutcome(Step(st, tail, no), st.records)
  {
    if tail == Field("TN", "") {
      StepRecomputed(st, "TN", "", no);
    } else {
      NoColonCut(st, "TN", "", tail, no);
    }
  }

  /** A field cut before its colon is blank or a fault. */
  lemma NoColonCut(st: Parser, kind: string, rest: string, tail: string, no: nat)
    requires st.Running? && tail <= Field(kind, rest) && |tail| <= |kind|
    requires kind != "" && !IsSpace(kind[0]) && ':' !in kind && '\r' !in kind && !(kind <= END_OF_RECORD)
    requires kind[0] != 'e'
    ensures Step(st, tail, no) == st || Step(st, tail, no).Failed?
  {
    assert tail == kind[..|tail|];
    assert ':' !in tail && '\r' !in tail;
    assert StripCr(tail) == tail by {
      if tail != "" {
        assert tail[|tail| - 1..] == [tail[|tail| - 1]];
      }
    }
    TrimShape(tail);
    hide Trim;
  }

  lemma CutSf(st: Parser, path: string, tail: string, no: nat)
    requires st.Running? && st.current.None? && PathSafe(path) && tail <= Field("SF", path)
    ensures CutOutcome(Step(st, tail, no), st.records)
  {
    if |tail| <= 2 {
      NoColonCut(st, "SF", path, tail, no);
    } else {
      assert tail == Field("SF", tail[3..]);
      ReadsField(st, "SF", tail[3..], no);
      hide Step;
    }
  }

  lemma CutEnd(st: Parser, tail: string, no: nat)
    requires OpenOrFailed(st) && tail <= END_OF_RECORD && tail != END_OF_RECORD
    ensures OpenOrFailed(Step(st, tail, no))
  {
    assert StripCr(tail) == tail by {
      if tail != "" {
        assert tail[|tail| - 1] == END_OF_RECORD[|tail| - 1];
        assert tail[|tail| - 1..] == [tail[|tail| - 1]];
      }
    }
    NotEndStays(st, tail, no);
  }

  ghost predicate IsCut(lines: seq<string>, i: nat, tail: string) {
    i <= |lines| && tail <= if i < |lines| then lines[i] else ""
  }

  lemma OutcomeGrows(st: Parser, full: seq<Record>, r: Record)
    requires CutOutcome(st, full)
    ensures CutOutcome(st, full + [r])
  {
  }

  lemma BlockStart(file: string, f: MergedFile)
    ensures |Block(file, f)| >= 3
    ensures Block(file, f)[0] == Field("TN", "") && Block(file, f)[1] == Field("SF", file)
    ensures Block(file, f)[..0] == [] && Block(file, f)[..1] == [Field("TN", "")]
  {
    hide Field;
    hide Body;
  }

  /** A cut in the first or the second line of a file. */
  lemma CutInHead(st: Parser, file: string, more: Record, first: bool, tail: string, no: nat)
    requires st.Running? && st.current.None? && PathSafe(file)
    requires tail <= if first then Field("TN", "") else Field("SF", file)
    ensures var taken := if first then [] else [Field("TN", "")];
            CutOutcome(Step(Run(st, taken, no), tail, no + |taken|), st.records + [more])
  {
    assert "TN" in KNOWN_RECOMPUTED;
    hide *;
    if first {
      RunNothing(st, no);
      CutTn(st, tail, no);
      OutcomeGrows(Step(st, tail, no), st.records, more);
    } else {
      RunOne(st, Field("TN", ""), no);
      StepRecomputed(st, "TN", "", no);
      CutSf(st, file, tail, no + 1);
      OutcomeGrows(Step(st, tail, no + 1), st.records, more);
    }
  }

  /** A cut within one file's lines. */
  lemma CutBlock(st: Parser, file: string, f: MergedFile, block: seq<string>, i: nat, tail: string, no: nat)
    requires st.Running? && st.current.None? && PathSafe(file)
    requires block == Block(file, f) && IsCut(block, i, tail)
    ensures CutOutcome(Step(Run(st, block[..i], no), tail, no + i), st.records + [RecordOf(file, f)])
  {
    hide Step;
    hide Run;
    hide Block;
    hide Field;
    hide RecordOf;
    hide PathSafe;
    hide CutOutcome;
    BlockStart(file, f);
    if i < 2 {
      CutInHead(st, file, RecordOf(file, f), i == 0, tail, no);
    } else {
      CutAfterHead(st, file, f, i, tail, no);
    }
  }

  lemma CutAfterHead(st: Parser, file: string, f: MergedFile, i: nat, tail: string, no: nat)
    requires st.Running? && st.current.None? && PathSafe(file) && i >= 2
    requires IsCut(Block(file, f), i, tail)
    ensures CutOutcome(Step(Run(st, Block(file, f)[..i], no), tail, no + i), st.records + [RecordOf(file, f)])
  {
    hide Step;
    hide Run;
    hide Block;
    hide Body;
    hide RecordOf;
    hide StripCr;
    var block, body := Block(file, f), Body(f);
    BlockParts(file, f);
    var open := st.(current := Some(Record(file, [], [], [])));
    var end := Run(st, block[..i], no);
    if i == |block| {
      assert block[..i] == block && tail == "";
      RunBlock(st, file, f, no);
      BlankTail(end, no + i);
    } else {
      var taken := body[..i - 2];
      assert block[..i] == Head(file) + taken;
      BodyNotEnd(f);
      RunStaysOpen(open, taken, no + 2);
      RunHead(st, file, no);
      RunThen(st, Head(file), open, taken, Run(open, taken, no + 2), no);
      if i < |block| - 1 {
        assert block[i] == body[i - 2];
        NotEndStripped(body[i - 2], tail);
        NotEndStays(end, tail, no + i);
      } else if tail != END_OF_RECORD {
        CutEnd(end, tail, no + i);
      } else {
        assert taken == body;
        RunBody(open, file, f, no + 2);
        StepEnd(end, no + i);
      }
    }
  }

  lemma BlankTail(st: Parser, no: nat)
    ensures Step(st, "", no) == st
  {
    assert StripCr("") == "" && Trim("") == "";
  }

  lemma {:induction false} CutBlocks(m: Merged, files: seq<string>, i: nat, tail: string)
    requires Safe(m) && forall f :: f in files ==> f in m
    requires IsCut(Blocks(m, files), i, tail)
    ensures CutOutcome(Step(Run(START, Blocks(m, files)[..i], 1), tail, 1 + i), RecordsOf(m, files))
  {
    hide Step;
    hide Run;
    hide Block;
    hide RecordOf;
    var lines := Blocks(m, files);
    if files == [] {
      assert lines[..0] == [];
      RunNothing(START, 1);
      BlankTail(START, 1);
    } else {
      var last := |files| - 1;
      var before, block := Blocks(m, files[..last]), Block(files[last], m[files[last]]);
      assert lines == before + block;
      if i < |before| {
        assert lines[..i] == before[..i] && lines[i] == before[i];
        CutBlocks(m, files[..last], i, tail);
      } else {
        var st := Running(RecordsOf(m, files[..last]), None, [], {});
        assert lines[..i] == before + block[..i - |before|];
        RunBlocks(m, files[..last]);
        RunConcat(START, before, block[..i - |before|], 1);
        assert i < |lines| ==> lines[i] == block[i - |before|];
        CutBlock(st, files[last], m[files[last]], block, i - |before|, tail, 1 + |before|);
      }
    }
  }

  /** Cutting regenerated text at ANY character leaves either a malformed file
      that contributes nothing, or an unaltered prefix of the full record
      list: no cut produces a wrong hit count. */
  lemma TruncationSafe(m: Merged, k: nat)
    requires Safe(m) && k <= |Emit(m)|
    ensures var r := Parse(Emit(m)[..k]);
            if r.malformed then r.records == [] else r.records <= Parse(Emit(m)).records
  {
    hide Run;
    hide Step;
    hide Blocks;
    hide RecordsOf;
    hide Terminated;
    hide Files;
    var lines := Blocks(m, Files(m));
    var i, c := CutTerminated(lines, k);
    var tail := if i < |lines| then lines[i][..c] else "";
    BlocksOneLiners(m, Files(m));
    assert OneLiners(lines[..i]) by { assert forall l :: l in lines[..i] ==> l in lines; }
    assert '\n' !in tail by { if i < |lines| { assert lines[i] in lines; } }
    ParseTerminated(lines[..i], tail);
    CutBlocks(m, Files(m), i, tail);
    EmitParses(m);
  }

  // ------------------------------------- a merged artifact as an input

  /** An intermediate artifact can stand in for the lanes it was merged from,
      whatever further lanes there are, exactly when the map those lanes give
      can be represented and its paths are normal. */
  lemma ArtifactStandsIn(texts: seq<string>, repoRoot: string)
    ensures var m := MergeLanes(texts, repoRoot);
            (forall more :: MergeLanes([Emit(m)] + more, repoRoot) == MergeLanes(texts + more, repoRoot))
            <==> Representable(m) && NormalPaths(m, repoRoot)
  {
    hide *;
    var m := MergeLanes(texts, repoRoot);
    ArtifactIsItsMap(m, repoRoot);
    if Representable(m) && NormalPaths(m, repoRoot) {
      forall more ensures MergeLanes([Emit(m)] + more, repoRoot) == MergeLanes(texts + more, repoRoot) {
        LanesGroup([Emit(m)], more, repoRoot);
        LanesGroup(texts, more, repoRoot);
      }
    }
    var none: seq<string> := [];
    assert [Emit(m)] + none == [Emit(m)] && texts + none == texts;
  }

  /** Every hit count twice, every first line unchanged. */
  ghost function Doubled(m: Merged): Merged {
    map file | file in m ::
      MergedFile(map l | l in m[file].da :: 2 * m[file].da[l],
                 m[file].fnLine,
                 map n | n in m[file].fnda :: 2 * m[file].fnda[n])
  }

  lemma PlusItself(m: Merged)
    ensures Plus(m, m) == Doubled(m)
  {
    forall file | file in m ensures PlusFile(m[file], m[file]) == Doubled(m)[file] {
      FileTwice(m[file]);
    }
    hide PlusFile;
  }

  lemma FileTwice(f: MergedFile)
    ensures PlusFile(f, f) == MergedFile(map l | l in f.da :: 2 * f.da[l], f.fnLine, map n | n in f.fnda :: 2 * f.fnda[n])
  {
  }

  /** Why merged artifacts are kept out of the inputs: merging one with the
      lanes it came from doubles every hit. */
  lemma SelfMergeDoubles(texts: seq<string>, repoRoot: string)
    requires var m := MergeLanes(texts, repoRoot); Representable(m) && NormalPaths(m, repoRoot)
    ensures var m := MergeLanes(texts, repoRoot);
            MergeLanes(texts + [Emit(m)], repoRoot) == Doubled(m)
  {
    hide *;
    var m := MergeLanes(texts, repoRoot);
    ArtifactIsItsMap(m, repoRoot);
    LanesGroup(texts, [Emit(m)], repoRoot);
    PlusItself(m);
  }

  /** Lanes in any order give the same bytes. */
  lemma OutputOrderIrrelevant(a: seq<string>, b: seq<string>, repoRoot: string)
    requires multiset(a) == multiset(b)
    ensures Emit(MergeLanes(a, repoRoot)) == Emit(MergeLanes(b, repoRoot))
  {
    hide *;
    LaneOrderIrrelevant(a, b, repoRoot);
  }
}
