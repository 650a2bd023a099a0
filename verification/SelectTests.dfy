/** `scripts/select-e2e.ts`: which end-to-end tests a change set selects. */
module SelectTests {
  import opened Glob
  import opened Sorting
  import opened Text

  const DOC_ROOT_FILES := {
    "README.md", "CLAUDE.md", "AGENTS.md", "CHANGELOG.md", "TODOS.md", "LICENSE", "VERSION"}

  predicate IsDocPath(p: string) {
    p in DOC_ROOT_FILES || ('/' !in p && EndsWith(p, ".md")) || "docs/" <= p
  }

  const ESCAPE_HATCH_FILES := {
    "src/schema.sql", "src/core/migrate.ts", "src/core/db.ts", "src/core/engine-factory.ts",
    "src/core/operations.ts", "package.json", "bun.lock", "Dockerfile.ci", "docker-compose.ci.yml",
    "scripts/ci-local.sh", "scripts/run-e2e.sh", "scripts/select-e2e.ts", "scripts/e2e-test-map.ts",
    "test/e2e/helpers.ts"}

  predicate IsEscapeHatch(p: string) {
    || p in ESCAPE_HATCH_FILES
    || "src/commands/migrations/" <= p || "src/core/ops/" <= p || "test/e2e/fixtures/" <= p
    || "skills/" <= p || ".github/workflows/" <= p
  }

  predicate IsE2ETest(p: string) {
    "test/e2e/" <= p && EndsWith(p, ".test.ts")
  }

  datatype Entry = Entry(glob: string, tests: seq<string>)

  datatype Inputs = Inputs(changed: seq<string>, all: seq<string>, testMap: seq<Entry>)

  datatype Classification = Empty | DocOnly | Src

  /** The globs are looked at for this path. */
  predicate IsMapped(p: string) {
    !IsDocPath(p) && !IsE2ETest(p)
  }

  /** The tests one changed path asks for. */
  function Wanted(entries: seq<Entry>, f: string): set<string> {
    if IsDocPath(f) then {}
    else if IsE2ETest(f) then {f}
    else set i, t | 0 <= i < |entries| && GlobMatches(entries[i].glob, f) && t in entries[i].tests :: t
  }

  function AllWanted(inputs: Inputs): set<string> {
    set f, t | f in inputs.changed && t in Wanted(inputs.testMap, f) :: t
  }

  predicate AllSupported(entries: seq<Entry>) {
    forall i :: 0 <= i < |entries| ==> IsSupported(entries[i].glob)
  }

  /** The map is consulted, and holds a glob `matchGlob` refuses. */
  predicate Throws(inputs: Inputs) {
    !AllSupported(inputs.testMap) && exists f :: f in inputs.changed && IsMapped(f)
  }

  predicate AllDocs(changed: seq<string>) {
    forall f :: f in changed ==> IsDocPath(f)
  }

  predicate Escapes(changed: seq<string>) {
    exists f :: f in changed && IsEscapeHatch(f)
  }

  /** The selection; None when a glob makes the matcher throw. */
  ghost function Selected(inputs: Inputs): Option<seq<string>> {
    StringOrder();
    var all := Sort(inputs.all, StringLe);
    if inputs.changed == [] then Some(all)
    else if AllDocs(inputs.changed) then Some([])
    else if Escapes(inputs.changed) then Some(all)
    else if Throws(inputs) then None
    else if AllWanted(inputs) == {} then Some(all)
    else Some(Listing(AllWanted(inputs), StringLe))
  }

  method MatchGlob(glob: string, path: string) returns (r: Option<bool>)
    ensures r == if IsSupported(glob) then Some(GlobMatches(glob, path)) else None
  {
    if '?' in glob || '[' in glob || '{' in glob {
      return None;
    }
    var regex := BuildRegex(glob);
    CompileKeepsMeaning(glob, path);
    return Some(Tests(regex, path));
  }

  method Classify(changed: seq<string>) returns (c: Classification)
    ensures c == if changed == [] then Empty else if AllDocs(changed) then DocOnly else Src
  {
    hide IsDocPath;
    if |changed| == 0 { return Empty; }
    for i := 0 to |changed|
      invariant forall j :: 0 <= j < i ==> IsDocPath(changed[j])
    {
      if !IsDocPath(changed[i]) { return Src; }
    }
    return DocOnly;
  }

  /** The inner loop: every map entry against one path. */
  method MatchEntries(entries: seq<Entry>, f: string, before: set<string>) returns (result: set<string>, threw: bool)
    requires IsMapped(f)
    ensures threw == !AllSupported(entries)
    ensures !threw ==> result == before + Wanted(entries, f)
  {
    hide GlobMatches;
    hide IsSupported;
    result, threw := before, false;
    for i := 0 to |entries|
      invariant AllSupported(entries[..i])
      invariant result == before + Wanted(entries[..i], f)
    {
      var m := MatchGlob(entries[i].glob, f);
      if m.None? { return result, true; }
      WantedPrefix(entries, i, f);
      if m.value {
        for j := 0 to |entries[i].tests|
          invariant result == before + Wanted(entries[..i], f) + (set t | t in entries[i].tests[..j])
        {
          result := result + {entries[i].tests[j]};
        }
        assert entries[i].tests[..|entries[i].tests|] == entries[i].tests;
      }
    }
    assert entries[..|entries|] == entries;
  }

  lemma WantedPrefix(entries: seq<Entry>, i: nat, f: string)
    requires i < |entries| && IsMapped(f)
    ensures Wanted(entries[..i + 1], f) == Wanted(entries[..i], f) +
            if GlobMatches(entries[i].glob, f) then set t | t in entries[i].tests else {}
  {
    hide GlobMatches;
    var p, q := entries[..i], entries[..i + 1];
    assert forall k :: 0 <= k < i ==> q[k] == p[k];
    forall t | t in Wanted(p, f) ensures t in Wanted(q, f) {
      var k :| 0 <= k < |p| && GlobMatches(p[k].glob, f) && t in p[k].tests;
      assert q[k] == p[k];
    }
    if GlobMatches(entries[i].glob, f) {
      assert q[i] == entries[i];
    }
    forall t | t in Wanted(q, f)
      ensures t in Wanted(p, f) || (GlobMatches(entries[i].glob, f) && t in entries[i].tests)
    {
      var k :| 0 <= k < |q| && GlobMatches(q[k].glob, f) && t in q[k].tests;
      assert k < i ==> p[k] == q[k];
    }
  }

  method EscapesIn(changed: seq<string>) returns (hit: bool)
    ensures hit == Escapes(changed)
  {
    hide IsEscapeHatch;
    for i := 0 to |changed|
      invariant forall j :: 0 <= j < i ==> !IsEscapeHatch(changed[j])
    {
      if IsEscapeHatch(changed[i]) { return true; }
    }
    return false;
  }

  function WantedUpTo(inputs: Inputs, k: nat): set<string>
    requires k <= |inputs.changed|
  {
    if k == 0 then {} else WantedUpTo(inputs, k - 1) + Wanted(inputs.testMap, inputs.changed[k - 1])
  }

  lemma {:induction false} WantedUpToMeans(inputs: Inputs, k: nat)
    requires k <= |inputs.changed|
    ensures forall t :: t in WantedUpTo(inputs, k) <==>
              exists j :: 0 <= j < k && t in Wanted(inputs.testMap, inputs.changed[j])
  {
    hide Wanted;
    if k > 0 {
      WantedUpToMeans(inputs, k - 1);
    }
  }

  lemma WantedUpToAll(inputs: Inputs)
    ensures WantedUpTo(inputs, |inputs.changed|) == AllWanted(inputs)
  {
    hide Wanted;
    hide WantedUpTo;
    WantedUpToMeans(inputs, |inputs.changed|);
    forall t | t in AllWanted(inputs) ensures t in WantedUpTo(inputs, |inputs.changed|) {
      var f :| f in inputs.changed && t in Wanted(inputs.testMap, f);
    }
  }

  /** `selectTests`, from the escape-hatch test on: the union of what the
      changed paths ask for. */
  method Union(inputs: Inputs) returns (result: set<string>, threw: bool)
    ensures threw == Throws(inputs)
    ensures !threw ==> result == AllWanted(inputs)
  {
    hide IsDocPath;
    hide IsE2ETest;
    hide AllSupported;
    hide AllWanted;
    result, threw := {}, false;
    for i := 0 to |inputs.changed|
      invariant result == WantedUpTo(inputs, i)
      invariant AllSupported(inputs.testMap) || forall j :: 0 <= j < i ==> !IsMapped(inputs.changed[j])
    {
      var f := inputs.changed[i];
      if IsDocPath(f) {
        continue;
      }
      if IsE2ETest(f) {
        result := result + {f};
        continue;
      }
      result, threw := MatchEntries(inputs.testMap, f, result);
      if threw { return; }
    }
    WantedUpToAll(inputs);
  }

  method SelectTests(inputs: Inputs) returns (r: Option<seq<string>>)
    ensures r == Selected(inputs)
  {
    hide IsDocPath;
    hide AllWanted;
    hide Throws;
    hide Escapes;
    hide Sort;
    StringOrder();
    var cls := Classify(inputs.changed);
    var allSorted := Sort(inputs.all, StringLe);
    if cls == Empty { return Some(allSorted); }
    if cls == DocOnly { return Some([]); }
    var escapes := EscapesIn(inputs.changed);
    if escapes { return Some(allSorted); }
    var result, threw := Union(inputs);
    if threw { return None; }
    if result == {} { return Some(allSorted); }
    var listed := InSomeOrder(result);
    ListingUnique(listed, result, StringLe);
    return Some(Sort(listed, StringLe));
  }

  // ------------------------------------------------------------ the laws

  /** No test is selected exactly when only documents changed, or there is
      nothing on disk to fall back to and no path asks for anything. */
  lemma SelectsNothingIff(inputs: Inputs)
    requires !Throws(inputs)
    ensures Selected(inputs) == Some([]) <==>
            || (inputs.changed != [] && AllDocs(inputs.changed))
            || (inputs.all == [] && (Escapes(inputs.changed) || AllWanted(inputs) == {}))
  {
    hide IsDocPath;
    hide Sort;
    hide Throws;
    hide Escapes;
    hide Wanted;
    StringOrder();
    SortElements(inputs.all, StringLe);
    assert inputs.changed == [] ==> AllWanted(inputs) == {};
    if AllWanted(inputs) != {} {
      var t :| t in AllWanted(inputs);
      assert t in Listing(AllWanted(inputs), StringLe);
    }
  }

  /** A changed path no test is mapped to. */
  predicate IsUnmapped(inputs: Inputs, f: string) {
    f in inputs.changed && !IsDocPath(f) && Wanted(inputs.testMap, f) == {}
  }

  /** An unmapped path falls back to every test exactly when an escape hatch
      changed, or no other changed path asks for a test. */
  lemma UnmappedRunsAllIff(inputs: Inputs, f: string)
    requires !Throws(inputs) && IsUnmapped(inputs, f)
    ensures Selected(inputs) == Some(Sort(inputs.all, StringLe)) <==>
            || Escapes(inputs.changed)
            || (forall g :: g in inputs.changed ==> Wanted(inputs.testMap, g) == {})
            || multiset(inputs.all) == multiset(AllWanted(inputs))
  {
    hide IsDocPath;
    hide Sort;
    hide Throws;
    hide Escapes;
    hide Wanted;
    StringOrder();
    SortElements(inputs.all, StringLe);
    if AllWanted(inputs) == {} {
      assert forall g, t :: g in inputs.changed && t in Wanted(inputs.testMap, g) ==> t in AllWanted(inputs);
    } else {
      var t :| t in AllWanted(inputs);
      var g :| g in inputs.changed && t in Wanted(inputs.testMap, g);
      if multiset(inputs.all) == multiset(AllWanted(inputs)) {
        ListingUnique(inputs.all, AllWanted(inputs), StringLe);
      }
    }
  }

  /** `src/x.ts` and its like: not listed by name, and of no special kind. */
  predicate IsSourcePath(p: string) {
    |p| == 8 && p[0] == 's' && p[1] == 'r' && p[2] == 'c' && p[3] == '/' && p[7] == 's'
  }

  lemma NotDocRoot(p: string)
    requires IsSourcePath(p)
    ensures p !in DOC_ROOT_FILES
  {
  }

  lemma NotEscapeFile(p: string)
    requires IsSourcePath(p)
    ensures p !in ESCAPE_HATCH_FILES
  {
    assert p != "bun.lock" by {
      assert "bun.lock"[0] != p[0];
    }
  }

  lemma SourcePath(p: string)
    requires IsSourcePath(p)
    ensures !IsDocPath(p) && !IsE2ETest(p) && !IsEscapeHatch(p)
  {
    NotDocRoot(p);
    NotEscapeFile(p);
    assert p[3] in p;
  }

  lemma LiteralWants(glob: string, test: string, f: string)
    requires IsSourcePath(f) && IsLiteral(glob)
    ensures Wanted([Entry(glob, [test])], f) == if f == glob then {test} else {}
  {
    hide IsSourcePath;
    hide IsDocPath;
    hide IsE2ETest;
    hide GlobMatches;
    SourcePath(f);
    LiteralMatches(glob, f);
    var entries := [Entry(glob, [test])];
    assert test in entries[0].tests;
    assert forall t :: t in entries[0].tests ==> t == test;
  }

  lemma SingleListing(t: string)
    requires TotalOrder(StringLe)
    ensures Listing({t}, StringLe) == [t]
  {
    var listed := Listing({t}, StringLe);
    NoDuplicates(listed, {t});
    assert listed == [t];
  }

  /** The header's promise that an unmapped change runs every test fails as
      soon as another changed path is mapped: one test is selected, and it is
      not all of them unless it is the only one. */
  lemma UnmappedIsNarrowed(inputs: Inputs)
    requires inputs.changed == ["src/x.ts", "src/y.ts"] && inputs.testMap == [Entry("src/y.ts", ["a"])]
    ensures IsUnmapped(inputs, "src/x.ts") && !Throws(inputs) && Selected(inputs) == Some(["a"])
    ensures Selected(inputs) == Some(Sort(inputs.all, StringLe)) <==> inputs.all == ["a"]
  {
    hide IsSourcePath;
    hide IsDocPath;
    hide IsE2ETest;
    hide IsEscapeHatch;
    hide Wanted;
    hide Sort;
    var x, y := inputs.changed[0], inputs.changed[1];
    SourcePair(x, y);
    SourcePath(x);
    SourcePath(y);
    LiteralWants(y, "a", x);
    LiteralWants(y, "a", y);
    assert x in inputs.changed && y in inputs.changed && "a" in Wanted(inputs.testMap, y);
    assert AllWanted(inputs) == {"a"};
    StringOrder();
    SingleListing("a");
    SortsToOne(inputs.all, "a");
  }

  /** There is other than one test on disk, say `b` beside `a`: not all of them run. */
  lemma UnmappedSkipsTests(inputs: Inputs)
    requires inputs.changed == ["src/x.ts", "src/y.ts"] && inputs.testMap == [Entry("src/y.ts", ["a"])]
    requires inputs.all == ["a", "b"]
    ensures IsUnmapped(inputs, "src/x.ts") && Selected(inputs) == Some(["a"]) != Some(Sort(inputs.all, StringLe))
  {
    hide *;
    UnmappedIsNarrowed(inputs);
    assert |inputs.all| == 2;
  }

  lemma SortsToOne(all: seq<string>, t: string)
    ensures Sort(all, StringLe) == [t] <==> all == [t]
  {
    SortElements(all, StringLe);
    if Sort(all, StringLe) == [t] {
      assert all[0] in multiset(all);
    }
  }

  lemma SourcePair(x: string, y: string)
    requires x == "src/x.ts" && y == "src/y.ts"
    ensures IsSourcePath(x) && IsSourcePath(y) && x != y
    ensures IsLiteral(y) && IsSupported(y)
  {
    assert x[4] != y[4];
  }

  /** Neither the order of the changed paths nor of the tests on disk matters. */
  lemma SelectionOrderIrrelevant(a: Inputs, b: Inputs)
    requires a.testMap == b.testMap && multiset(a.all) == multiset(b.all)
    requires forall f :: f in a.changed <==> f in b.changed
    ensures Selected(a) == Selected(b)
  {
    hide IsDocPath;
    hide Sort;
    hide Wanted;
    StringOrder();
    SortOrderIndependent(a.all, b.all, StringLe);
    if a.changed != [] {
      assert a.changed[0] in b.changed;
    }
    if b.changed != [] {
      assert b.changed[0] in a.changed;
    }
    assert AllWanted(a) == AllWanted(b);
    assert Escapes(a.changed) == Escapes(b.changed);
    assert AllDocs(a.changed) == AllDocs(b.changed);
  }

  /** Another changed path drops no selected test, unless the selection had
      fallen back to all. */
  lemma MoreChangesKeepTests(inputs: Inputs, f: string)
    requires !Throws(inputs) && AllWanted(inputs) != {} && !Escapes(inputs.changed)
    requires forall t :: t in AllWanted(inputs) ==> t in inputs.all
    ensures var more := inputs.(changed := inputs.changed + [f]);
            Selected(more) == None ||
            (Selected(inputs).Some? && forall t :: t in Selected(inputs).value ==> t in Selected(more).value)
  {
    hide IsDocPath;
    hide Sort;
    hide IsEscapeHatch;
    hide Wanted;
    StringOrder();
    SortElements(inputs.all, StringLe);
    var more := inputs.(changed := inputs.changed + [f]);
    var all := Sort(inputs.all, StringLe);
    assert forall t :: t in all <==> t in multiset(all);
    assert forall t :: t in inputs.all <==> t in multiset(inputs.all);
    assert AllWanted(inputs) <= AllWanted(more);
  }
}
