/** How the lcov parser reads regenerated text: whole, and cut off anywhere. */
module LcovRoundTrip {
  import opened Sorting
  import opened Mapping
  import opened Text
  import opened MapFold
  import opened Lcov
  import opened LcovMerge
  import opened LcovEmit

  /** Paths that are trimmed and not empty, on one line; names on one line. */
  ghost predicate SafeFile(f: MergedFile) {
    && (forall n :: n in f.fnLine ==> LineSafe(n))
    && (forall n :: n in f.fnda ==> LineSafe(n))
  }

  ghost predicate Safe(m: Merged) {
    forall file :: file in m ==> PathSafe(file) && SafeFile(m[file])
  }

  /** Safe, and no name ends in a carriage return. */
  ghost predicate Representable(m: Merged) {
    Safe(m) && forall file, n :: file in m && (n in m[file].fnLine || n in m[file].fnda) ==> !EndsWith(n, "\r")
  }

  ghost function RecordOf(file: string, f: MergedFile): Record {
    Record(file, DaEntries(f), Map(ReadBack, FnEntries(f)), Map(ReadBack, FndaEntries(f)))
  }

  ghost function RecordsOf(m: Merged, files: seq<string>): seq<Record>
    requires forall f :: f in files ==> f in m
  {
    if files == [] then [] else
      var last := |files| - 1;
      RecordsOf(m, files[..last]) + [RecordOf(files[last], m[files[last]])]
  }

  // ----------------------------------------------- the body of a record

  lemma {:induction false} RunFns(st: Parser, es: seq<(string, int)>, no: nat)
    requires st.Running? && st.current.Some? && st.current.value.fn == []
    ensures Run(st, Map(FnLine, es), no) == st.(current := Some(st.current.value.(fn := Map(ReadBack, es))))
  {
    hide *;
    var lines := Map(FnLine, es);
    if es == [] {
      RunNothing(st, no);
    } else {
      var last := |es| - 1;
      MapPrefix(FnLine, es, last);
      MapLast(ReadBack, es);
      RunFns(st, es[..last], no);
      RunLast(st, lines, no);
      StepFn(Run(st, lines[..last], no), es[last], no + last);
    }
  }

  lemma {:induction false} RunFndas(st: Parser, es: seq<(string, int)>, no: nat)
    requires st.Running? && st.current.Some? && st.current.value.fnda == []
    ensures Run(st, Map(FndaLine, es), no) == st.(current := Some(st.current.value.(fnda := Map(ReadBack, es))))
  {
    hide *;
    var lines := Map(FndaLine, es);
    if es == [] {
      RunNothing(st, no);
    } else {
      var last := |es| - 1;
      MapPrefix(FndaLine, es, last);
      MapLast(ReadBack, es);
      RunFndas(st, es[..last], no);
      RunLast(st, lines, no);
      StepFnda(Run(st, lines[..last], no), es[last], no + last);
    }
  }

  lemma {:induction false} RunDas(st: Parser, es: seq<(int, int)>, no: nat)
    requires st.Running? && st.current.Some? && st.current.value.da == []
    ensures Run(st, Map(DaLine, es), no) == st.(current := Some(st.current.value.(da := es)))
  {
    hide *;
    var lines := Map(DaLine, es);
    if es == [] {
      RunNothing(st, no);
    } else {
      var last := |es| - 1;
      MapPrefix(DaLine, es, last);
      assert es == es[..last] + [es[last]];
      RunDas(st, es[..last], no);
      RunLast(st, lines, no);
      StepDa(Run(st, lines[..last], no), es[last], no + last);
    }
  }

  lemma RunCounters(st: Parser, kind0: string, rest0: string, kind1: string, rest1: string, no: nat)
    requires st.Running? && kind0 in KNOWN_RECOMPUTED && kind1 in KNOWN_RECOMPUTED
    ensures Run(st, [Field(kind0, rest0), Field(kind1, rest1)], no) == st
  {
    StepRecomputed(st, kind0, rest0, no);
    StepRecomputed(st, kind1, rest1, no + 1);
    RunOne(st, Field(kind0, rest0), no);
    RunOne(st, Field(kind1, rest1), no + 1);
    hide *;
    assert [Field(kind0, rest0), Field(kind1, rest1)] == [Field(kind0, rest0)] + [Field(kind1, rest1)];
    RunThen(st, [Field(kind0, rest0)], st, [Field(kind1, rest1)], st, no);
  }

  ghost function Counters0(f: MergedFile): seq<string> {
    [Field("FNF", IntToString(|f.fnLine|)), Field("FNH", IntToString(Covered(f.fnda)))]
  }

  ghost function Counters1(f: MergedFile): seq<string> {
    [Field("LF", IntToString(|f.da|)), Field("LH", IntToString(Covered(f.da)))]
  }

  lemma RunCounterLines(st: Parser, f: MergedFile, no: nat)
    requires st.Running?
    ensures Run(st, Counters0(f), no) == st && Run(st, Counters1(f), no) == st
  {
    RunCounters(st, "FNF", IntToString(|f.fnLine|), "FNH", IntToString(Covered(f.fnda)), no);
    RunCounters(st, "LF", IntToString(|f.da|), "LH", IntToString(Covered(f.da)), no);
  }

  lemma BodyParts(f: MergedFile)
    ensures Body(f) == Map(FnLine, FnEntries(f)) + Map(FndaLine, FndaEntries(f)) + Counters0(f)
                       + Map(DaLine, DaEntries(f)) + Counters1(f)
    ensures forall file :: RecordOf(file, f) ==
              Record(file, DaEntries(f), Map(ReadBack, FnEntries(f)), Map(ReadBack, FndaEntries(f)))
  {
  }

  /** The lines between the path and the end marker fill the record in. */
  lemma RunBody(st: Parser, file: string, f: MergedFile, no: nat)
    requires st.Running? && st.current == Some(Record(file, [], [], []))
    ensures Run(st, Body(f), no) == st.(current := Some(RecordOf(file, f)))
  {
    hide *;
    BodyParts(f);
    var fns, fndas, das := Map(FnLine, FnEntries(f)), Map(FndaLine, FndaEntries(f)), Map(DaLine, DaEntries(f));
    var c0, c1 := Counters0(f), Counters1(f);
    var rec := RecordOf(file, f);
    var s1 := st.(current := Some(Record(file, [], rec.fn, [])));
    var s2 := st.(current := Some(Record(file, [], rec.fn, rec.fnda)));
    var s3 := st.(current := Some(rec));
    RunFns(st, FnEntries(f), no);
    RunFndas(s1, FndaEntries(f), no + |fns|);
    RunThen(st, fns, s1, fndas, s2, no);
    RunCounterLines(s2, f, no + |fns + fndas|);
    RunThen(st, fns + fndas, s2, c0, s2, no);
    RunDas(s2, DaEntries(f), no + |fns + fndas + c0|);
    RunThen(st, fns + fndas + c0, s2, das, s3, no);
    RunCounterLines(s3, f, no + |fns + fndas + c0 + das|);
    RunThen(st, fns + fndas + c0 + das, s3, c1, s3, no);
  }

  ghost function Head(file: string): seq<string> { [Field("TN", ""), Field("SF", file)] }

  lemma HeadParts(file: string)
    ensures Head(file) == [Field("TN", "")] + [Field("SF", file)]
  {
  }

  /** The path is read trimmed. */
  lemma RunHeadTrimmed(st: Parser, file: string, no: nat)
    requires st.Running? && st.current.None? && PathSolid(file)
    ensures Run(st, Head(file), no) == st.(current := Some(Record(Trim(file), [], [], [])))
    ensures PathSafe(file) ==> Trim(file) == file
  {
    assert "TN" in KNOWN_RECOMPUTED;
    hide *;
    HeadParts(file);
    var tn, sf := Field("TN", ""), Field("SF", file);
    StepRecomputed(st, "TN", "", no);
    StepSf(st, file, no + 1);
    RunOne(st, tn, no);
    RunOne(st, sf, no + 1);
    RunThen(st, [tn], st, [sf], st.(current := Some(Record(Trim(file), [], [], []))), no);
  }

  lemma SafeIsSolid(path: string)
    requires PathSafe(path)
    ensures PathSolid(path) && Trim(path) == path
  {
    TrimmedIsKept(path);
  }

  lemma RunHead(st: Parser, file: string, no: nat)
    requires st.Running? && st.current.None? && PathSafe(file)
    ensures Run(st, Head(file), no) == st.(current := Some(Record(file, [], [], [])))
  {
    hide *;
    SafeIsSolid(file);
    RunHeadTrimmed(st, file, no);
  }

  lemma BlockParts(file: string, f: MergedFile)
    ensures Block(file, f) == (Head(file) + Body(f)) + [END_OF_RECORD] && |Head(file)| == 2
  {
  }

  /** One file's lines read back as one record, under the path trimmed. */
  lemma RunBlockTrimmed(st: Parser, file: string, f: MergedFile, no: nat)
    requires st.Running? && st.current.None? && PathSolid(file)
    ensures Run(st, Block(file, f), no) == st.(records := st.records + [RecordOf(Trim(file), f)])
  {
    hide *;
    BlockParts(file, f);
    var sf := Trim(file);
    var open := st.(current := Some(Record(sf, [], [], [])));
    var full := st.(current := Some(RecordOf(sf, f)));
    RunHeadTrimmed(st, file, no);
    RunBody(open, sf, f, no + 2);
    RunThen(st, Head(file), open, Body(f), full, no);
    StepEnd(full, no + |Head(file) + Body(f)|);
    RunOne(full, END_OF_RECORD, no + |Head(file) + Body(f)|);
    RunThen(st, Head(file) + Body(f), full, [END_OF_RECORD], st.(records := st.records + [RecordOf(sf, f)]), no);
  }

  lemma RunBlock(st: Parser, file: string, f: MergedFile, no: nat)
    requires st.Running? && st.current.None? && PathSafe(file)
    ensures Run(st, Block(file, f), no) == st.(records := st.records + [RecordOf(file, f)])
  {
    hide *;
    SafeIsSolid(file);
    RunBlockTrimmed(st, file, f, no);
  }

  lemma {:induction false} RunBlocks(m: Merged, files: seq<string>)
    requires Safe(m) && forall f :: f in files ==> f in m
    ensures Run(START, Blocks(m, files), 1) == Running(RecordsOf(m, files), None, [], {})
  {
    hide RecordOf;
    hide Block;
    hide Run;
    if files == [] {
      RunNothing(START, 1);
    } else {
      var last := |files| - 1;
      var before, st := Blocks(m, files[..last]), Running(RecordsOf(m, files[..last]), None, [], {});
      RunBlocks(m, files[..last]);
      RunBlock(st, files[last], m[files[last]], 1 + |before|);
      RunThen(START, before, st, Block(files[last], m[files[last]]), Running(RecordsOf(m, files), None, [], {}), 1);
    }
  }

  // ---------------------------------------------------- lines are lines

  lemma FieldOneLine(kind: string, rest: string)
    requires '\n' !in kind && '\n' !in rest
    ensures '\n' !in Field(kind, rest)
  {
  }

  lemma NumberOneLine(kind: string, i: int)
    requires '\n' !in kind
    ensures '\n' !in Field(kind, IntToString(i))
  {
    IntChars(i);
    hide IntToString;
    FieldOneLine(kind, IntToString(i));
  }

  lemma EntryOneLine(kind: string, i: int, rest: string)
    requires '\n' !in kind && '\n' !in rest
    ensures '\n' !in Field(kind, IntToString(i) + "," + rest)
  {
    IntChars(i);
    hide IntToString;
    assert '\n' !in IntToString(i) + "," + rest;
    FieldOneLine(kind, IntToString(i) + "," + rest);
  }

  lemma {:induction false} FnsOneLiners(es: seq<(string, int)>)
    requires forall i :: 0 <= i < |es| ==> LineSafe(es[i].0)
    ensures OneLiners(Map(FnLine, es)) && OneLiners(Map(FndaLine, es))
  {
    forall i | 0 <= i < |es| ensures '\n' !in FnLine(es[i]) && '\n' !in FndaLine(es[i]) {
      EntryOneLine("FN", es[i].1, es[i].0);
      EntryOneLine("FNDA", es[i].1, es[i].0);
    }
    hide FnLine;
    hide FndaLine;
  }

  lemma DasOneLiners(es: seq<(int, int)>)
    ensures OneLiners(Map(DaLine, es))
  {
    hide IntToString;
    forall i | 0 <= i < |es| ensures '\n' !in DaLine(es[i]) {
      IntChars(es[i].1);
      EntryOneLine("DA", es[i].0, IntToString(es[i].1));
    }
    hide DaLine;
  }

  lemma SafeEntries(f: MergedFile)
    requires SafeFile(f)
    ensures forall i :: 0 <= i < |FnEntries(f)| ==> LineSafe(FnEntries(f)[i].0)
    ensures forall i :: 0 <= i < |FndaEntries(f)| ==> LineSafe(FndaEntries(f)[i].0)
  {
    forall i | 0 <= i < |FnEntries(f)| ensures LineSafe(FnEntries(f)[i].0) {
      assert FnEntries(f)[i] in f.fnLine.Items;
    }
  }

  lemma BodyOneLiners(f: MergedFile)
    requires SafeFile(f)
    ensures OneLiners(Body(f))
  {
    SafeEntries(f);
    FnsOneLiners(FnEntries(f));
    FnsOneLiners(FndaEntries(f));
    DasOneLiners(DaEntries(f));
    CountersOneLiners(f);
    hide *;
    BodyParts(f);
    var fns, fndas, das := Map(FnLine, FnEntries(f)), Map(FndaLine, FndaEntries(f)), Map(DaLine, DaEntries(f));
    OneLinersConcat(fns, fndas);
    OneLinersConcat(fns + fndas, Counters0(f));
    OneLinersConcat(fns + fndas + Counters0(f), das);
    OneLinersConcat(fns + fndas + Counters0(f) + das, Counters1(f));
  }

  lemma CountersOneLiners(f: MergedFile)
    ensures OneLiners(Counters0(f)) && OneLiners(Counters1(f))
  {
    NumberOneLine("FNF", |f.fnLine|);
    NumberOneLine("FNH", Covered(f.fnda));
    NumberOneLine("LF", |f.da|);
    NumberOneLine("LH", Covered(f.da));
    hide IntToString;
    hide Field;
  }

  lemma BlockOneLiners(file: string, f: MergedFile)
    requires SafeFile(f) && LineSafe(file)
    ensures OneLiners(Block(file, f))
  {
    FieldOneLine("SF", file);
    FieldOneLine("TN", "");
    BodyOneLiners(f);
    assert OneLiners(Head(file)) && OneLiners([END_OF_RECORD]) by { hide Field; }
    hide *;
    BlockParts(file, f);
    OneLinersConcat(Head(file), Body(f));
    OneLinersConcat(Head(file) + Body(f), [END_OF_RECORD]);
  }

  lemma NoLines()
    ensures OneLiners([])
  {
  }

  lemma {:induction false} BlocksOneLiners(m: Merged, files: seq<string>)
    requires forall f :: f in files ==> f in m && LineSafe(f) && SafeFile(m[f])
    ensures OneLiners(Blocks(m, files))
  {
    hide OneLiners;
    hide LineSafe;
    hide SafeFile;
    hide Block;
    if files != [] {
      var last := |files| - 1;
      BlocksOneLiners(m, files[..last]);
      BlockOneLiners(files[last], m[files[last]]);
      OneLinersConcat(Blocks(m, files[..last]), Block(files[last], m[files[last]]));
    } else {
      NoLines();
    }
  }

  // ------------------------------------------------------ the whole text

  lemma ParseTerminated(lines: seq<string>, tail: string)
    requires OneLiners(lines) && '\n' !in tail
    ensures Parse(Terminated(lines) + tail) == Finish(Step(Run(START, lines, 1), tail, |lines| + 1))
  {
    hide Run;
    hide Terminated;
    hide OneLiners;
    SplitTerminated(lines, tail);
    SplitWhole(tail, '\n');
    var st := Run(START, lines, 1);
    RunOne(st, tail, |lines| + 1);
    RunThen(START, lines, st, [tail], Step(st, tail, |lines| + 1), 1);
  }

  /** Regenerated text is never malformed and never warned about: it reads
      back as one record per file, in path order. */
  lemma EmitParses(m: Merged)
    requires Safe(m)
    ensures Parse(Emit(m)) == ParseResult(RecordsOf(m, Files(m)), [], false)
  {
    hide Run;
    hide Terminated;
    hide OneLiners;
    hide Blocks;
    var lines := Blocks(m, Files(m));
    BlocksOneLiners(m, Files(m));
    ParseTerminated(lines, "");
    assert Terminated(lines) + "" == Terminated(lines);
    RunBlocks(m, Files(m));
    assert StripCr("") == "" && Trim("") == "";
  }

  // ------------------------------------------------ merged into a map

  /** Records under the path they carry. */
  function BySf(r: Record): (string, Record) { (r.sf, r) }

  /** What a file becomes when its lines are read and merged again. */
  ghost function RereadFile(file: string, f: MergedFile): MergedFile {
    FileOf(RecordOf(file, f))
  }

  ghost function Reread(m: Merged): Merged {
    map file | file in m :: RereadFile(file, m[file])
  }

  lemma {:induction false} RecordsAt(m: Merged, files: seq<string>)
    requires forall f :: f in files ==> f in m
    ensures |RecordsOf(m, files)| == |files|
    ensures forall i :: 0 <= i < |files| ==> RecordsOf(m, files)[i] == RecordOf(files[i], m[files[i]])
  {
    hide RecordOf;
    if files != [] {
      RecordsAt(m, files[..|files| - 1]);
    }
  }

  /** Merging the records read back from a map into an empty one. */
  lemma RecordsReread(m: Merged)
    ensures MergeAll(Map(BySf, RecordsOf(m, Files(m)))) == Reread(m)
  {
    hide *;
    var files := Files(m);
    RecordsAt(m, files);
    var pairs := Map(Contribution, Map(BySf, RecordsOf(m, files)));
    forall i | 0 <= i < |files| ensures pairs[i] == (files[i], RereadFile(files[i], m[files[i]])) {
      PairOf(files[i], m[files[i]]);
    }
    RereadAt(m);
    Tabulated(files, pairs, Reread(m), PlusFile);
    MergesPairs(RecordsOf(m, files));
  }

  lemma MergesPairs(recs: seq<Record>)
    ensures MergeAll(Map(BySf, recs)) == BumpAll(map[], Map(Contribution, Map(BySf, recs)), PlusFile)
  {
  }

  lemma RereadAt(m: Merged)
    ensures Reread(m).Keys == m.Keys
    ensures forall f :: f in m ==> Reread(m)[f] == RereadFile(f, m[f])
  {
  }

  lemma PairOf(file: string, f: MergedFile)
    ensures Contribution(BySf(RecordOf(file, f))) == (file, RereadFile(file, f))
  {
  }

  // --------------------------------------------- which maps round-trip

  lemma RereadParts(file: string, f: MergedFile)
    ensures RereadFile(file, f) ==
            MergedFile(BumpAll(map[], DaEntries(f), Add),
                       BumpAll(map[], Map(ByName, Map(ReadBack, FnEntries(f))), Lower),
                       BumpAll(map[], Map(ByName, Map(ReadBack, FndaEntries(f))), Add))
  {
  }

  /** The entries tabulate the maps they list. */
  lemma EntriesTabulate(f: MergedFile)
    ensures BumpAll(map[], DaEntries(f), Add) == f.da
    ensures BumpAll(map[], FnEntries(f), Lower) == f.fnLine
    ensures BumpAll(map[], FndaEntries(f), Add) == f.fnda
  {
    hide BumpAll;
    Orders();
    Tabulated(Listing(f.da.Keys, IntLe), DaEntries(f), f.da, Add);
    TabulatedItems(FnEntries(f), f.fnLine, Lower);
    Tabulated(Listing(f.fnda.Keys, StringLe), FndaEntries(f), f.fnda, Add);
  }

  ghost predicate NoCr(names: set<string>) {
    forall n :: n in names ==> !EndsWith(n, "\r")
  }

  lemma UnstrippedEntries(es: seq<(string, int)>)
    requires forall i :: 0 <= i < |es| ==> !EndsWith(es[i].0, "\r")
    ensures Map(ByName, Map(ReadBack, es)) == es
  {
  }

  lemma FnNames(f: MergedFile)
    ensures forall i :: 0 <= i < |FnEntries(f)| ==> FnEntries(f)[i].0 in f.fnLine
    ensures forall n :: n in f.fnLine ==> exists i :: 0 <= i < |FnEntries(f)| && FnEntries(f)[i].0 == n
  {
    var es := FnEntries(f);
    forall i | 0 <= i < |es| ensures es[i].0 in f.fnLine {
      assert es[i] in f.fnLine.Items;
    }
    forall n | n in f.fnLine ensures exists i :: 0 <= i < |es| && es[i].0 == n {
      assert (n, f.fnLine[n]) in f.fnLine.Items;
      var i :| 0 <= i < |es| && es[i] == (n, f.fnLine[n]);
    }
  }

  lemma FndaNames(f: MergedFile)
    ensures forall i :: 0 <= i < |FndaEntries(f)| ==> FndaEntries(f)[i].0 in f.fnda
    ensures forall n :: n in f.fnda ==> exists i :: 0 <= i < |FndaEntries(f)| && FndaEntries(f)[i].0 == n
  {
    Orders();
    var keys, es := Listing(f.fnda.Keys, StringLe), FndaEntries(f);
    forall i | 0 <= i < |es| ensures es[i].0 in f.fnda {
      assert keys[i] in keys;
    }
    forall n | n in f.fnda ensures exists i :: 0 <= i < |es| && es[i].0 == n {
      assert n in keys;
      var i :| 0 <= i < |keys| && keys[i] == n;
      assert es[i].0 == n;
    }
  }

  /** Names without a trailing carriage return survive with their values;
      line hits always do. */
  lemma FileSurvives(file: string, f: MergedFile)
    requires NoCr(f.fnLine.Keys) && NoCr(f.fnda.Keys)
    ensures RereadFile(file, f) == f
  {
    FnNames(f);
    FndaNames(f);
    UnstrippedEntries(FnEntries(f));
    UnstrippedEntries(FndaEntries(f));
    hide *;
    EntriesTabulate(f);
    RereadParts(file, f);
  }

  /** The names read back are the names stripped. */
  lemma NamesStripped(file: string, f: MergedFile)
    ensures RereadFile(file, f).fnLine.Keys == set n | n in f.fnLine :: StripCr(n)
    ensures RereadFile(file, f).fnda.Keys == set n | n in f.fnda :: StripCr(n)
  {
    hide FnEntries;
    hide FndaEntries;
    hide DaEntries;
    FnNames(f);
    FndaNames(f);
    StrippedKeys(FnEntries(f), f.fnLine.Keys, Lower);
    StrippedKeys(FndaEntries(f), f.fnda.Keys, Add);
  }

  lemma StrippedKeys(es: seq<(string, int)>, names: set<string>, f: (int, int) -> int)
    requires forall i :: 0 <= i < |es| ==> es[i].0 in names
    requires forall n :: n in names ==> exists i :: 0 <= i < |es| && es[i].0 == n
    ensures BumpAll(map[], Map(ByName, Map(ReadBack, es)), f).Keys == set n | n in names :: StripCr(n)
  {
    var pairs := Map(ByName, Map(ReadBack, es));
    assert forall i :: 0 <= i < |pairs| ==> pairs[i].0 == StripCr(es[i].0);
    BumpKeys(pairs, f);
    hide *;
    var keys := set i | 0 <= i < |pairs| :: pairs[i].0;
    forall x | x in keys ensures x in set n | n in names :: StripCr(n) {
      var i :| 0 <= i < |pairs| && pairs[i].0 == x;
      assert es[i].0 in names;
    }
    forall n | n in names ensures StripCr(n) in keys {
      var i :| 0 <= i < |es| && es[i].0 == n;
      assert pairs[i].0 == StripCr(n);
    }
  }

  function Longer(names: set<string>, n: string): set<string> {
    set y | y in names && |y| > |n|
  }

  /** A finite set of names that stripping maps onto itself holds no name
      with a carriage return to strip: such a name would have to come from a
      longer one. */
  lemma {:induction false} StrippingFixes(names: set<string>, n: string)
    requires names == (set x | x in names :: StripCr(x)) && n in names
    ensures !EndsWith(n, "\r")
    decreases |Longer(names, n)|
  {
    if EndsWith(n, "\r") {
      assert n in set x | x in names :: StripCr(x);
      var x :| x in names && StripCr(x) == n;
      Smaller(Longer(names, x), Longer(names, n), x);
      StrippingFixes(names, x);
    }
  }

  /** Regenerated text, parsed and merged into an empty map, gives back the map. */
  ghost predicate RoundTrips(m: Merged) {
    var r := Parse(Emit(m));
    !r.malformed && MergeAll(Map(BySf, r.records)) == m
  }

  lemma SafeContribution(rec: Record)
    requires SafeRecord(rec)
    ensures SafeFile(FileOf(rec))
  {
    BumpKeys(Map(ByName, rec.fn), Lower);
    BumpKeys(Map(ByName, rec.fnda), Add);
  }

  lemma SafePlus(a: MergedFile, b: MergedFile)
    requires SafeFile(a) && SafeFile(b)
    ensures SafeFile(PlusFile(a, b))
  {
  }

  /** What comes out of the parser merges to safe maps only. */
  lemma {:induction false} MergedIsSafe(recs: seq<Record>)
    requires forall i :: 0 <= i < |recs| ==> SafeRecord(recs[i])
    ensures Safe(MergeAll(Map(BySf, recs)))
  {
    hide FileOf;
    hide PlusFile;
    hide SafeFile;
    if recs != [] {
      var last := |recs| - 1;
      MergedIsSafe(recs[..last]);
      var m := MergeAll(Map(BySf, recs[..last]));
      MapLast(BySf, recs);
      MergeLast(Map(BySf, recs[..last]), BySf(recs[last]));
      SafeContribution(recs[last]);
      var sf := recs[last].sf;
      if sf in m {
        SafePlus(m[sf], FileOf(recs[last]));
      }
    }
  }

  /** The round trip holds exactly for the representable maps. A path that is
      empty or not trimmed, a path or name with a newline in it, and a name
      ending in a carriage return are the ways to lose it. */
  lemma RoundTripIff(m: Merged)
    ensures RoundTrips(m) <==> Representable(m)
  {
    if Representable(m) {
      RepresentableRoundTrips(m);
    }
    if RoundTrips(m) {
      RoundTripsRepresentable(m);
    }
  }

  lemma RepresentableRoundTrips(m: Merged)
    requires Representable(m)
    ensures RoundTrips(m)
  {
    hide Parse;
    hide Emit;
    hide RereadFile;
    hide Reread;
    hide RecordsOf;
    hide MergeAll;
    hide Safe;
    EmitParses(m);
    RecordsReread(m);
    forall file | file in m ensures RereadFile(file, m[file]) == m[file] {
      FileSurvives(file, m[file]);
    }
    RereadAt(m);
    assert Reread(m) == m;
  }

  lemma RoundTripsRepresentable(m: Merged)
    requires RoundTrips(m)
    ensures Representable(m)
  {
    hide Parse;
    hide Emit;
    hide RereadFile;
    hide Reread;
    hide RecordsOf;
    hide MergeAll;
    hide Safe;
    ParsedIsSafe(Emit(m));
    MergedIsSafe(Parse(Emit(m)).records);
    EmitParses(m);
    RecordsReread(m);
    RereadAt(m);
    forall file, n | file in m && (n in m[file].fnLine || n in m[file].fnda) ensures !EndsWith(n, "\r") {
      NamesStripped(file, m[file]);
      if n in m[file].fnLine {
        StrippingFixes(m[file].fnLine.Keys, n);
      } else {
        StrippingFixes(m[file].fnda.Keys, n);
      }
    }
  }
}
