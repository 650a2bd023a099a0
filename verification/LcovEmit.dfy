/** `scripts/merge-lcov.ts`: regenerating lcov text, and how the parser reads
    that text back: whole, and cut off at any character. */
module LcovEmit {
  import opened Sorting
  import opened Mapping
  import opened Text
  import opened MapFold
  import opened Lcov
  import opened LcovMerge

  // ---------------------------------------------------------- the text

  predicate IntLe(a: int, b: int) { a <= b }

  /** Functions by line, then by name. */
  predicate FnLe(a: (string, int), b: (string, int)) {
    a.1 < b.1 || (a.1 == b.1 && StringLe(a.0, b.0))
  }

  lemma Orders()
    ensures TotalOrder(IntLe) && TotalOrder(FnLe) && TotalOrder(StringLe)
  {
    StringOrder();
  }

  function Entry<K(==)>(m: map<K, int>): K -> (K, int) {
    k => (k, if k in m then m[k] else 0)
  }

  ghost function FnEntries(f: MergedFile): seq<(string, int)> {
    Orders();
    Listing(f.fnLine.Items, FnLe)
  }

  ghost function FndaEntries(f: MergedFile): seq<(string, int)> {
    Orders();
    Map(Entry(f.fnda), Listing(f.fnda.Keys, StringLe))
  }

  ghost function DaEntries(f: MergedFile): seq<(int, int)> {
    Orders();
    Map(Entry(f.da), Listing(f.da.Keys, IntLe))
  }

  function Field(kind: string, rest: string): string { kind + ":" + rest }

  function FnLine(e: (string, int)): string { Field("FN", IntToString(e.1) + "," + e.0) }

  function FndaLine(e: (string, int)): string { Field("FNDA", IntToString(e.1) + "," + e.0) }

  function DaLine(e: (int, int)): string { Field("DA", IntToString(e.0) + "," + IntToString(e.1)) }

  /** How many entries have been hit. */
  function Covered<K>(m: map<K, int>): nat {
    |set k | k in m && m[k] > 0|
  }

  ghost function Body(f: MergedFile): seq<string> {
    Map(FnLine, FnEntries(f)) + Map(FndaLine, FndaEntries(f))
    + [Field("FNF", IntToString(|f.fnLine|)), Field("FNH", IntToString(Covered(f.fnda)))]
    + Map(DaLine, DaEntries(f))
    + [Field("LF", IntToString(|f.da|)), Field("LH", IntToString(Covered(f.da)))]
  }

  /** The lines of one file. */
  ghost function Block(file: string, f: MergedFile): seq<string> {
    [Field("TN", ""), Field("SF", file)] + Body(f) + [END_OF_RECORD]
  }

  ghost function Blocks(m: Merged, files: seq<string>): seq<string>
    requires forall f :: f in files ==> f in m
  {
    if files == [] then [] else
      var last := |files| - 1;
      Blocks(m, files[..last]) + Block(files[last], m[files[last]])
  }

  ghost function Files(m: Merged): (files: seq<string>)
    ensures forall f :: f in files <==> f in m
    ensures multiset(files) == multiset(m.Keys)
  {
    Orders();
    Listing(m.Keys, StringLe)
  }

  ghost function Emit(m: Merged): string {
    Terminated(Blocks(m, Files(m)))
  }

  // ------------------------------------------------------ the printer

  /** `[...m.values()].filter((h) => h > 0).length` */
  method CountCovered<K(==)>(m: map<K, int>) returns (n: nat)
    ensures n == Covered(m)
  {
    n := 0;
    var left := m.Keys;
    while left != {}
      invariant left <= m.Keys && n == |set k | k in m.Keys - left && m[k] > 0|
      decreases left
    {
      var x :| x in left;
      ghost var before := set k | k in m.Keys - left && m[k] > 0;
      ghost var after := set k | k in m.Keys - (left - {x}) && m[k] > 0;
      if m[x] > 0 {
        assert after == before + {x};
        n := n + 1;
      } else {
        assert after == before;
      }
      left := left - {x};
    }
    assert (set k | k in m.Keys - left && m[k] > 0) == set k | k in m && m[k] > 0;
  }

  /** `a[0] < b[0] ? -1 : a[0] > b[0] ? 1 : 0` */
  predicate ByNameLe(a: (string, int), b: (string, int)) { StringLe(a.0, b.0) }

  lemma SortedFndas(entries: seq<(string, int)>, f: MergedFile)
    requires multiset(entries) == multiset(f.fnda.Items)
    ensures Sort(entries, ByNameLe) == FndaEntries(f)
  {
    hide Sort;
    hide Listing;
    hide StringLe;
    ByNameOrder();
    var sorted := Sort(entries, ByNameLe);
    SortElements(entries, ByNameLe);
    SortSorted(entries, ByNameLe);
    NoDuplicates(sorted, f.fnda.Items);
    var names := Map((e: (string, int)) => e.0, sorted);
    forall i | 0 <= i < |sorted| ensures sorted[i].0 in f.fnda && f.fnda[sorted[i].0] == sorted[i].1 {
      assert sorted[i] in sorted;
    }
    NamesListed(names, sorted, f.fnda);
    ListedOnce(names, f.fnda.Keys);
    assert Sorted(names, StringLe) by {
      forall i, j | 0 <= i < j < |names| ensures StringLe(names[i], names[j]) {
        assert ByNameLe(sorted[i], sorted[j]);
      }
    }
    NamesAreTheListing(names, f.fnda.Keys);
    FndasByName(f, Listing(f.fnda.Keys, StringLe), sorted);
  }

  lemma ByNameOrder()
    ensures PreOrder(ByNameLe)
    ensures TotalOrder(StringLe)
  {
    Orders();
  }

  lemma NamesAreTheListing(names: seq<string>, s: set<string>)
    requires TotalOrder(StringLe) && Sorted(names, StringLe) && multiset(names) == multiset(s)
    ensures names == Listing(s, StringLe)
  {
    SortedUnique(names, Listing(s, StringLe), StringLe);
  }

  lemma FndasByName(f: MergedFile, names: seq<string>, sorted: seq<(string, int)>)
    requires TotalOrder(StringLe) && names == Listing(f.fnda.Keys, StringLe) && |sorted| == |names|
    requires forall i :: 0 <= i < |names| ==> names[i] == sorted[i].0
    requires forall i :: 0 <= i < |sorted| ==> sorted[i].0 in f.fnda && f.fnda[sorted[i].0] == sorted[i].1
    ensures sorted == FndaEntries(f)
  {
    hide Listing;
  }

  lemma NamesListed(names: seq<string>, sorted: seq<(string, int)>, m: map<string, int>)
    requires |names| == |sorted| && forall i :: 0 <= i < |names| ==> names[i] == sorted[i].0
    requires forall i :: 0 <= i < |sorted| ==> sorted[i].0 in m && m[sorted[i].0] == sorted[i].1
    requires forall i, j :: 0 <= i < j < |sorted| ==> sorted[i] != sorted[j]
    requires forall e :: e in sorted <==> e in m.Items
    ensures forall i, j :: 0 <= i < j < |names| ==> names[i] != names[j]
    ensures forall n :: n in names <==> n in m
  {
    forall n | n in m ensures n in names {
      assert (n, m[n]) in sorted;
      var i :| 0 <= i < |sorted| && sorted[i] == (n, m[n]);
      assert names[i] == n;
    }
  }

  lemma {:induction false} ListedOnce(names: seq<string>, s: set<string>)
    requires forall i, j :: 0 <= i < j < |names| ==> names[i] != names[j]
    requires forall n :: n in names <==> n in s
    ensures multiset(names) == multiset(s)
  {
    if names == [] {
      assert s == {};
    } else {
      var last := |names| - 1;
      assert names == names[..last] + [names[last]];
      ListedOnce(names[..last], s - {names[last]});
    }
  }

  method PushFns(before: seq<string>, f: MergedFile) returns (out: seq<string>)
    ensures out == before + Map(FnLine, FnEntries(f))
  {
    hide FnLine;
    hide Sort;
    hide Listing;
    Orders();
    var fns := InSomeOrder(f.fnLine.Items);
    ListingUnique(fns, f.fnLine.Items, FnLe);
    var fnEntries := Sort(fns, FnLe);
    out := before;
    for i := 0 to |fnEntries|
      invariant out == before + Map(FnLine, fnEntries[..i])
    {
      assert fnEntries[..i + 1][..i] == fnEntries[..i];
      MapLast(FnLine, fnEntries[..i + 1]);
      out := out + [FnLine(fnEntries[i])];
    }
    assert fnEntries[..|fnEntries|] == fnEntries;
  }

  method PushFndas(before: seq<string>, f: MergedFile) returns (out: seq<string>)
    ensures out == before + Map(FndaLine, FndaEntries(f))
  {
    hide FndaLine;
    hide Sort;
    hide FndaEntries;
    var fndas := InSomeOrder(f.fnda.Items);
    SortedFndas(fndas, f);
    var fndaEntries := Sort(fndas, ByNameLe);
    out := before;
    for i := 0 to |fndaEntries|
      invariant out == before + Map(FndaLine, fndaEntries[..i])
    {
      assert fndaEntries[..i + 1][..i] == fndaEntries[..i];
      MapLast(FndaLine, fndaEntries[..i + 1]);
      out := out + [FndaLine(fndaEntries[i])];
    }
    assert fndaEntries[..|fndaEntries|] == fndaEntries;
  }

  lemma DaEntriesOf(f: MergedFile, daLines: seq<int>)
    requires TotalOrder(IntLe) && daLines == Listing(f.da.Keys, IntLe)
    ensures |DaEntries(f)| == |daLines|
    ensures forall i :: 0 <= i < |daLines| ==> daLines[i] in f.da && DaEntries(f)[i] == (daLines[i], f.da[daLines[i]])
  {
    hide Listing;
    forall i | 0 <= i < |daLines| ensures daLines[i] in f.da { assert daLines[i] in daLines; }
  }

  method PushDas(before: seq<string>, f: MergedFile) returns (out: seq<string>)
    ensures out == before + Map(DaLine, DaEntries(f))
  {
    hide DaLine;
    hide Sort;
    hide Listing;
    hide DaEntries;
    Orders();
    var keys := InSomeOrder(f.da.Keys);
    ListingUnique(keys, f.da.Keys, IntLe);
    var daLines := Sort(keys, IntLe);
    ghost var entries := DaEntries(f);
    DaEntriesOf(f, daLines);
    out := before;
    for i := 0 to |daLines|
      invariant out == before + Map(DaLine, entries[..i])
    {
      assert entries[..i + 1][..i] == entries[..i];
      MapLast(DaLine, entries[..i + 1]);
      out := out + [DaLine((daLines[i], f.da[daLines[i]]))];
    }
    assert entries[..|daLines|] == entries;
  }

  method EmitFile(file: string, f: MergedFile) returns (out: seq<string>)
    ensures out == Block(file, f)
  {
    hide Field;
    hide IntToString;
    hide Covered;
    hide FnEntries;
    hide FndaEntries;
    hide DaEntries;
    out := [];
    out := out + [Field("TN", "")];
    out := out + [Field("SF", file)];
    out := PushFns(out, f);
    out := PushFndas(out, f);
    var hitFns := CountCovered(f.fnda);
    out := out + [Field("FNF", IntToString(|f.fnLine|))];
    out := out + [Field("FNH", IntToString(hitFns))];
    out := PushDas(out, f);
    var hitLines := CountCovered(f.da);
    out := out + [Field("LF", IntToString(|f.da|))];
    out := out + [Field("LH", IntToString(hitLines))];
    out := out + [END_OF_RECORD];
  }

  lemma BlocksStep(m: Merged, files: seq<string>, i: nat)
    requires i <= |files| && forall f :: f in files ==> f in m
    ensures Blocks(m, files[..0]) == []
    ensures i < |files| ==>
      files[i] in m && Blocks(m, files[..i + 1]) == Blocks(m, files[..i]) + Block(files[i], m[files[i]])
  {
    hide Block;
    if i < |files| {
      assert files[..i + 1][..i] == files[..i];
      assert files[i] in files;
    }
  }

  /** Regenerate the merged text, files in path order, counters fresh. */
  method EmitLcov(merged: Merged) returns (text: string)
    ensures text == Emit(merged)
  {
    hide Block;
    hide Sort;
    hide Listing;
    hide Terminated;
    hide Blocks;
    Orders();
    var out: seq<string> := [];
    var keys := InSomeOrder(merged.Keys);
    ListingUnique(keys, merged.Keys, StringLe);
    var files := Sort(keys, StringLe);
    assert files == Files(merged);
    hide Files;
    BlocksStep(merged, files, 0);
    for i := 0 to |files|
      invariant out == Blocks(merged, files[..i])
    {
      BlocksStep(merged, files, i);
      assert files[i] in files;
      var lines := EmitFile(files[i], merged[files[i]]);
      out := out + lines;
    }
    assert files[..|files|] == files;
    text := Rendered(out);
  }

  /** `out.join("\n") + (out.length > 0 ? "\n" : "")` */
  method Rendered(out: seq<string>) returns (text: string)
    ensures text == Terminated(out)
  {
    if out != [] {
      JoinIsTerminated(out);
    }
    text := JoinLines(out) + if |out| > 0 then "\n" else "";
  }

  // ------------------------------------------------- reading one line

  /** The text of a field with its carriage return removed. */
  lemma FieldStripped(kind: string, rest: string)
    ensures StripCr(Field(kind, rest)) == Field(kind, StripCr(rest))
  {
    var raw := Field(kind, rest);
    if rest != "" {
      assert raw[|raw| - 1] == rest[|rest| - 1];
      assert raw[|raw| - 1..] == [raw[|raw| - 1]] && rest[|rest| - 1..] == [rest[|rest| - 1]];
    } else {
      assert raw[|raw| - 1] == ':';
    }
  }

  /** A field line is read as its kind and its rest. */
  lemma ReadsField(st: Parser, kind: string, rest: string, no: nat)
    requires st.Running? && kind != "" && ':' !in kind && !IsSpace(kind[0])
    ensures Step(st, Field(kind, rest), no) == StepField(st, kind, StripCr(rest), no)
  {
    hide StepField;
    hide StripCr;
    FieldStripped(kind, rest);
    var line := Field(kind, StripCr(rest));
    assert line[0] == kind[0] && line[|kind|] == ':';
    assert line[0] in line;
    TrimShape(line);
    hide Trim;
    assert ':' !in END_OF_RECORD;
    IndexOfFirst(kind, ':', StripCr(rest));
    assert line == kind + [':'] + StripCr(rest);
    assert line[..|kind|] == kind && line[|kind| + 1..] == StripCr(rest);
  }

  lemma CommaFields(i: int, name: string)
    ensures BeforeComma(IntToString(i) + "," + name) == IntToString(i)
    ensures AfterComma(IntToString(i) + "," + name) == name
    ensures StripCr(IntToString(i) + "," + name) == IntToString(i) + "," + StripCr(name)
  {
    hide IntToString;
    hide StripCr;
    var s := IntToString(i);
    IntChars(i);
    IndexOfFirst(s, ',', name);
    var rest := s + [','] + name;
    assert rest == s + "," + name;
    assert rest[..|s|] == s && rest[|s| + 1..] == name;
    StripCrAfter(s + ",", name);
  }

  lemma StripCrAfter(head: string, tail: string)
    requires head != "" && head[|head| - 1] != '\r'
    ensures StripCr(head + tail) == head + StripCr(tail)
  {
    var s := head + tail;
    if tail != "" {
      assert s[|s| - 1] == tail[|tail| - 1];
      assert s[|s| - 1..] == [s[|s| - 1]] && tail[|tail| - 1..] == [tail[|tail| - 1]];
    } else {
      assert s[|s| - 1] == head[|head| - 1];
    }
  }

  lemma IntHasNoCr(i: int)
    ensures StripCr(IntToString(i)) == IntToString(i)
  {
    var s := IntToString(i);
    IntChars(i);
    assert s[|s| - 1] in s;
  }

  /** How the parser hands back an entry: value first, one carriage return lost. */
  function ReadBack(e: (string, int)): (int, string) { (e.1, StripCr(e.0)) }

  lemma StepFn(st: Parser, e: (string, int), no: nat)
    requires st.Running? && st.current.Some?
    ensures Step(st, FnLine(e), no) ==
            st.(current := Some(st.current.value.(fn := st.current.value.fn + [ReadBack(e)])))
  {
    hide Step;
    hide StripCr;
    hide BeforeComma;
    hide AfterComma;
    hide ReadNumber;
    hide IntToString;
    ReadsField(st, "FN", IntToString(e.1) + "," + e.0, no);
    CommaFields(e.1, e.0);
    CommaFields(e.1, StripCr(e.0));
    IntRoundTrip(e.1);
  }

  lemma StepFnda(st: Parser, e: (string, int), no: nat)
    requires st.Running? && st.current.Some?
    ensures Step(st, FndaLine(e), no) ==
            st.(current := Some(st.current.value.(fnda := st.current.value.fnda + [ReadBack(e)])))
  {
    hide Step;
    hide StripCr;
    hide BeforeComma;
    hide AfterComma;
    hide ReadNumber;
    hide IntToString;
    ReadsField(st, "FNDA", IntToString(e.1) + "," + e.0, no);
    CommaFields(e.1, e.0);
    CommaFields(e.1, StripCr(e.0));
    IntRoundTrip(e.1);
  }

  lemma ReadsDa(e: (int, int))
    ensures ReadDa(IntToString(e.0) + "," + IntToString(e.1)) == Some(e)
  {
    var a, b := IntToString(e.0), IntToString(e.1);
    IntChars(e.0);
    IntChars(e.1);
    SplitHead(a, ',', b);
    SplitWhole(b, ',');
    assert a + [','] + b == a + "," + b;
    IntRoundTrip(e.0);
    IntRoundTrip(e.1);
  }

  lemma StepDa(st: Parser, e: (int, int), no: nat)
    requires st.Running? && st.current.Some?
    ensures Step(st, DaLine(e), no) ==
            st.(current := Some(st.current.value.(da := st.current.value.da + [e])))
  {
    hide Step;
    hide StripCr;
    hide ReadDa;
    hide IntToString;
    ReadsField(st, "DA", IntToString(e.0) + "," + IntToString(e.1), no);
    CommaFields(e.0, IntToString(e.1));
    IntHasNoCr(e.1);
    ReadsDa(e);
  }

  lemma StepRecomputed(st: Parser, kind: string, rest: string, no: nat)
    requires st.Running? && kind in KNOWN_RECOMPUTED
    ensures Step(st, Field(kind, rest), no) == st
  {
    ReadsField(st, kind, rest, no);
  }

  /** A path not blank and without white space at its end, which the parser trims. */
  ghost predicate PathSolid(path: string) {
    path != "" && !IsSpace(path[|path| - 1]) && LineSafe(path)
  }

  lemma StepSf(st: Parser, path: string, no: nat)
    requires st.Running? && st.current.None? && PathSolid(path)
    ensures Step(st, Field("SF", path), no) == st.(current := Some(Record(Trim(path), [], [], [])))
    ensures PathSafe(path) ==> Trim(path) == path
  {
    ReadsField(st, "SF", path, no);
    assert StripCr(path) == path by { assert path[|path| - 1..] == [path[|path| - 1]]; }
    TrimShape(path);
    assert path[|path| - 1] in path;
    if PathSafe(path) {
      TrimmedIsKept(path);
    }
  }

  lemma StepEnd(st: Parser, no: nat)
    requires st.Running? && st.current.Some?
    ensures Step(st, END_OF_RECORD, no) == st.(records := st.records + [st.current.value], current := None)
  {
    var line := END_OF_RECORD;
    assert line[|line| - 1..] == "d";
    assert line[0] in line;
    TrimShape(line);
  }
}
