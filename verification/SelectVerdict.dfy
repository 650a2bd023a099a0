/** `scripts/select-e2e.ts`: which tests a change set runs, told path by path
    and test by test. */
module SelectVerdict {
  import opened Glob
  import opened Sorting
  import opened Text
  import opened SelectTests

  /** A document: a listed root file, Markdown at the root, anything in `docs/`. */
  ghost predicate IsDocument(p: string) {
    || p in {"README.md", "CLAUDE.md", "AGENTS.md", "CHANGELOG.md", "TODOS.md", "LICENSE", "VERSION"}
    || ('/' !in p && HasEnd(p, ".md")) || HasStart(p, "docs/")
  }

  /** A change that can break any test. */
  ghost predicate TouchesAll(p: string) {
    || p in {"src/schema.sql", "src/core/migrate.ts", "src/core/db.ts", "src/core/engine-factory.ts",
             "src/core/operations.ts", "package.json", "bun.lock", "Dockerfile.ci", "docker-compose.ci.yml",
             "scripts/ci-local.sh", "scripts/run-e2e.sh", "scripts/select-e2e.ts", "scripts/e2e-test-map.ts",
             "test/e2e/helpers.ts"}
    || HasStart(p, "src/commands/migrations/") || HasStart(p, "src/core/ops/") || HasStart(p, "test/e2e/fixtures/")
    || HasStart(p, "skills/") || HasStart(p, ".github/workflows/")
  }

  ghost predicate IsTest(p: string) { HasStart(p, "test/e2e/") && HasEnd(p, ".test.ts") }

  lemma DocumentIff(p: string)
    ensures IsDocument(p) <==> IsDocPath(p)
  {
    hide EndsWith;
    hide HasEnd;
    hide HasStart;
    HasEndIff(p, ".md");
    HasStartIff(p, "docs/");
  }

  lemma TestIff(p: string)
    ensures IsTest(p) <==> IsE2ETest(p)
  {
    hide EndsWith;
    hide HasEnd;
    hide HasStart;
    HasEndIff(p, ".test.ts");
    HasStartIff(p, "test/e2e/");
  }

  lemma TouchesAllIff(p: string)
    ensures TouchesAll(p) <==> IsEscapeHatch(p)
  {
    hide HasStart;
    HasStartIff(p, "src/commands/migrations/");
    HasStartIff(p, "src/core/ops/");
    HasStartIff(p, "test/e2e/fixtures/");
    HasStartIff(p, "skills/");
    HasStartIff(p, ".github/workflows/");
  }

  // ------------------------------------------------------------ the answer

  /** The changed path `f` asks for the test `t`: it is that test, or some glob
      of the map matches it and lists `t`. */
  ghost predicate Asks(inputs: Inputs, f: string, t: string) {
    && f in inputs.changed && !IsDocument(f)
    && if IsTest(f) then t == f
       else exists e :: e in inputs.testMap && GlobMatches(e.glob, f) && t in e.tests
  }

  ghost predicate Asked(inputs: Inputs, t: string) {
    exists f :: Asks(inputs, f, t)
  }

  ghost predicate OnlyDocuments(inputs: Inputs) {
    forall f :: f in inputs.changed ==> IsDocument(f)
  }

  ghost predicate SomeTouchesAll(inputs: Inputs) {
    exists f :: f in inputs.changed && TouchesAll(f)
  }

  /** The map is looked up for some path and holds a glob with `?`, `[` or `{`. */
  ghost predicate Refuses(inputs: Inputs) {
    && (exists f :: f in inputs.changed && !IsDocument(f) && !IsTest(f))
    && exists e :: e in inputs.testMap && ('?' in e.glob || '[' in e.glob || '{' in e.glob)
  }

  /** Each once, in order. */
  ghost predicate Ascending(tests: seq<string>) {
    forall i, j :: 0 <= i < j < |tests| ==> tests[i] != tests[j] && StringLe(tests[i], tests[j])
  }

  lemma WantedIff(inputs: Inputs, f: string, t: string)
    requires f in inputs.changed
    ensures t in Wanted(inputs.testMap, f) <==> Asks(inputs, f, t)
  {
    hide GlobMatches;
    DocumentIff(f);
    TestIff(f);
    hide IsDocument;
    hide IsTest;
    hide IsDocPath;
    hide IsE2ETest;
    var entries := inputs.testMap;
    if e :| e in entries && GlobMatches(e.glob, f) && t in e.tests {
      var i :| 0 <= i < |entries| && entries[i] == e;
      assert GlobMatches(entries[i].glob, f) && t in entries[i].tests;
    }
    if i :| 0 <= i < |entries| && GlobMatches(entries[i].glob, f) && t in entries[i].tests {
      assert entries[i] in entries;
    }
  }

  lemma AllWantedIff(inputs: Inputs, t: string)
    ensures t in AllWanted(inputs) <==> Asked(inputs, t)
  {
    hide Wanted;
    forall f | f in inputs.changed ensures t in Wanted(inputs.testMap, f) <==> Asks(inputs, f, t) {
      WantedIff(inputs, f, t);
    }
    if f :| Asks(inputs, f, t) {
      assert f in inputs.changed;
    }
  }

  lemma DocumentsIff(inputs: Inputs)
    ensures OnlyDocuments(inputs) <==> AllDocs(inputs.changed)
    ensures SomeTouchesAll(inputs) <==> Escapes(inputs.changed)
  {
    hide IsDocPath;
    hide IsEscapeHatch;
    hide IsDocument;
    hide TouchesAll;
    forall f | f in inputs.changed
      ensures (IsDocument(f) <==> IsDocPath(f)) && (TouchesAll(f) <==> IsEscapeHatch(f))
    {
      DocumentIff(f);
      TouchesAllIff(f);
    }
  }

  lemma RefusesIff(inputs: Inputs)
    ensures Refuses(inputs) <==> Throws(inputs)
  {
    hide IsDocPath;
    hide IsE2ETest;
    hide IsDocument;
    hide IsTest;
    forall f | f in inputs.changed
      ensures (IsDocument(f) <==> IsDocPath(f)) && (IsTest(f) <==> IsE2ETest(f))
    {
      DocumentIff(f);
      TestIff(f);
    }
    var entries := inputs.testMap;
    if e :| e in entries && ('?' in e.glob || '[' in e.glob || '{' in e.glob) {
      var i :| 0 <= i < |entries| && entries[i] == e;
      assert !IsSupported(entries[i].glob);
    }
    if i :| 0 <= i < |entries| && !IsSupported(entries[i].glob) {
      assert entries[i] in entries;
    }
  }

  /** What is selected, for every change set: all tests when nothing changed,
      none when documents alone did, all when some path can break any test;
      else an error when a glob cannot be read; else exactly the tests asked
      for, each once and in order, or all of them when none is. */
  lemma SelectedIff(inputs: Inputs)
    ensures var r, documents := Selected(inputs), inputs.changed != [] && OnlyDocuments(inputs);
            var all := inputs.changed == [] || (!documents && SomeTouchesAll(inputs));
            && (documents ==> r == Some([]))
            && (r == None <==> !documents && !all && Refuses(inputs))
            && (all || (r.Some? && !documents && !exists t :: Asked(inputs, t)) ==>
                  r.Some? && multiset(r.value) == multiset(inputs.all) && Sorted(r.value, StringLe))
            && (r.Some? && !documents && !all && (exists t :: Asked(inputs, t)) ==>
                  Ascending(r.value) && forall t :: t in r.value <==> Asked(inputs, t))
  {
    hide *;
    DocumentsIff(inputs);
    RefusesIff(inputs);
    forall t { AllWantedIff(inputs, t); }
    AllSorted(inputs);
    WantedListed(inputs);
    Answers(inputs);
    if inputs.changed == [] { NothingRefused(inputs); }
  }

  lemma NothingRefused(inputs: Inputs)
    requires inputs.changed == []
    ensures !Refuses(inputs)
  {
  }

  lemma AllSorted(inputs: Inputs)
    ensures multiset(Sort(inputs.all, StringLe)) == multiset(inputs.all) && Sorted(Sort(inputs.all, StringLe), StringLe)
  {
    hide Sort;
    hide StringLe;
    StringOrder();
    SortElements(inputs.all, StringLe);
    SortSorted(inputs.all, StringLe);
  }

  lemma WantedListed(inputs: Inputs)
    ensures TotalOrder(StringLe)
    ensures Ascending(Listing(AllWanted(inputs), StringLe))
    ensures forall t :: t in Listing(AllWanted(inputs), StringLe) <==> t in AllWanted(inputs)
    ensures AllWanted(inputs) == {} <==> !exists t :: t in AllWanted(inputs)
  {
    hide StringLe;
    hide Listing;
    hide AllWanted;
    StringOrder();
    NoDuplicates(Listing(AllWanted(inputs), StringLe), AllWanted(inputs));
  }

  lemma Answers(inputs: Inputs)
    requires TotalOrder(StringLe)
    ensures var r, changed := Selected(inputs), inputs.changed;
            if changed != [] && AllDocs(changed) then r == Some([])
            else if changed == [] || Escapes(changed) then r == Some(Sort(inputs.all, StringLe))
            else if Throws(inputs) then r == None
            else r == Some(if AllWanted(inputs) == {} then Sort(inputs.all, StringLe) else Listing(AllWanted(inputs), StringLe))
  {
    hide AllDocs;
    hide Escapes;
    hide Throws;
    hide AllWanted;
    hide Sort;
    hide Listing;
    hide StringLe;
  }
}
