/** `scripts/merge-lcov.ts`: source paths, and merging records by file. */
module SfPath {
  import opened Text

  /** `s.replace(/\\/g, "/")` */
  function Slashes(s: string): (r: string)
    ensures |r| == |s| && '\\' !in r
    ensures forall i :: 0 <= i < |s| ==> r[i] == if s[i] == '\\' then '/' else s[i]
    ensures '\\' !in s ==> r == s
  {
    if s == "" then "" else [if s[0] == '\\' then '/' else s[0]] + Slashes(s[1..])
  }

  /** `s.replace(/\/+$/, "")` */
  function DropTrailingSlashes(s: string): string {
    if EndsWith(s, "/") then DropTrailingSlashes(s[..|s| - 1]) else s
  }

  function RootOf(repoRoot: string): string {
    DropTrailingSlashes(Slashes(repoRoot))
  }

  /** `s.lastIndexOf(pat)` among the positions below `n`. */
  function LastIndexBelow(s: string, pat: string, n: nat): (i: int)
    requires n <= |s| + 1
    ensures -1 <= i < n
    ensures i >= 0 ==> pat <= s[i..]
    ensures forall j :: 0 <= i < j < n ==> !(pat <= s[j..])
    ensures i < 0 ==> forall j :: 0 <= j < n ==> !(pat <= s[j..])
  {
    if n == 0 then -1
    else if pat <= s[n - 1..] then n - 1
    else LastIndexBelow(s, pat, n - 1)
  }

  function LastIndexOf(s: string, pat: string): (i: int)
    ensures -1 <= i && (i >= 0 ==> i + |pat| <= |s|)
  {
    LastIndexBelow(s, pat, |s| + 1)
  }

  predicate IsLetter(c: char) {
    'A' <= c <= 'Z' || 'a' <= c <= 'z'
  }

  predicate IsAbsolute(p: string) {
    "/" <= p || (|p| >= 3 && IsLetter(p[0]) && p[1] == ':' && p[2] == '/')
  }

  /** `/name/` for the directory name of the repository root. */
  function Marker(root: string): string {
    "/" + root[LastIndexOf(root, "/") + 1..] + "/"
  }

  /** `p.startsWith(root + "/")` */
  predicate IsUnder(p: string, root: string): (b: bool)
    ensures b ==> |root| < |p|
  {
    |root| < |p| && p[..|root|] == root && p[|root|] == '/'
  }

  /** The path below the repository root, or below a directory of its name. */
  function BelowRoot(p: string, root: string): (r: string)
    ensures |r| <= |p| && r == p[|p| - |r|..]
  {
    if IsUnder(p, root) then p[|root| + 1..]
    else if IsAbsolute(p) && LastIndexOf(p, Marker(root)) >= 0 then
      p[LastIndexOf(p, Marker(root)) + |Marker(root)|..]
    else p
  }

  function DropDots(p: string): (r: string)
    ensures !("./" <= r)
    ensures |r| <= |p| && r == p[|p| - |r|..]
  {
    if "./" <= p then DropDots(p[2..]) else p
  }

  /** A source path relative to the repository, or "" for the root itself. */
  function NormalizedSf(sfRaw: string, repoRoot: string): string {
    var p, root := Slashes(sfRaw), RootOf(repoRoot);
    if p == root then "" else DropDots(BelowRoot(p, root))
  }

  method NormalizeSf(sfRaw: string, repoRootAbs: string) returns (p: string)
    ensures p == NormalizedSf(sfRaw, repoRootAbs)
  {
    hide Slashes;
    hide RootOf;
    hide BelowRoot;
    hide DropDots;
    p := Slashes(sfRaw);
    var root := RootOf(repoRootAbs);
    if p == root {
      return "";
    }
    p := StripRoot(p, root);
    p := StripDots(p);
  }

  /** The two ways a root prefix is cut off. */
  method StripRoot(path: string, root: string) returns (p: string)
    ensures p == BelowRoot(path, root)
  {
    hide IsUnder;
    hide IsAbsolute;
    hide Marker;
    hide LastIndexOf;
    p := path;
    if IsUnder(p, root) {
      p := p[|root| + 1..];
    } else if IsAbsolute(p) {
      var marker := Marker(root);
      var idx := LastIndexOf(p, marker);
      if idx >= 0 {
        p := p[idx + |marker|..];
      }
    }
  }

  method StripDots(path: string) returns (p: string)
    ensures p == DropDots(path)
  {
    p := path;
    while "./" <= p
      invariant DropDots(p) == DropDots(path)
      decreases |p|
    {
      p := p[2..];
    }
  }

  /** A path a second pass would shorten again. */
  predicate StillStrips(p: string, repoRoot: string) {
    var root := RootOf(repoRoot);
    p == root || IsUnder(p, root) || (IsAbsolute(p) && LastIndexOf(p, Marker(root)) >= 0)
  }

  lemma SecondPass(p: string, root: string)
    requires '\\' !in p && !("./" <= p)
    ensures var q := if Slashes(p) == root then "" else DropDots(BelowRoot(Slashes(p), root));
            q == p <==> p == "" || !(p == root || IsUnder(p, root) || (IsAbsolute(p) && LastIndexOf(p, Marker(root)) >= 0))
  {
    assert Slashes(p) == p;
    hide LastIndexOf;
    hide Slashes;
    var below := BelowRoot(p, root);
    var strips := IsUnder(p, root) || (IsAbsolute(p) && LastIndexOf(p, Marker(root)) >= 0);
    assert strips ==> |below| < |p|;
    assert !strips ==> below == p;
    hide BelowRoot;
    assert |DropDots(below)| <= |below|;
    assert below == p ==> DropDots(below) == p;
  }

  /** What is left of a raw path after its root prefix and leading `./`. */
  function Remainder(sfRaw: string, repoRoot: string): string {
    DropDots(BelowRoot(Slashes(sfRaw), RootOf(repoRoot)))
  }

  /** Normalised once is normalised for good exactly when no root prefix is
      left to strip (the empty path aside): the raw path is the root itself,
      or what follows its root prefix is empty or does not start with another. */
  lemma NormalizedTwice(sfRaw: string, repoRoot: string)
    ensures var p := NormalizedSf(sfRaw, repoRoot);
            NormalizedSf(p, repoRoot) == p <==> p == "" || !StillStrips(p, repoRoot)
    ensures var p, rest := NormalizedSf(sfRaw, repoRoot), Remainder(sfRaw, repoRoot);
            NormalizedSf(p, repoRoot) == p <==>
            Slashes(sfRaw) == RootOf(repoRoot) || rest == "" || !StillStrips(rest, repoRoot)
  {
    var root := RootOf(repoRoot);
    var p := NormalizedSf(sfRaw, repoRoot);
    hide IsAbsolute;
    hide LastIndexOf;
    hide BelowRoot;
    hide RootOf;
    hide DropDots;
    hide Slashes;
    assert '\\' !in p && !("./" <= p);
    SecondPass(p, root);
  }

  /** Repository-relative output is stable, whatever absolute root is used. */
  lemma RelativeIsStable(sfRaw: string, repoRoot: string)
    requires IsAbsolute(RootOf(repoRoot)) && !IsAbsolute(NormalizedSf(sfRaw, repoRoot))
    ensures NormalizedSf(NormalizedSf(sfRaw, repoRoot), repoRoot) == NormalizedSf(sfRaw, repoRoot)
  {
    hide IsAbsolute;
    hide NormalizedSf;
    NormalizedTwice(sfRaw, repoRoot);
    RelativeIsNotUnder(NormalizedSf(sfRaw, repoRoot), RootOf(repoRoot));
  }

  lemma RelativeIsNotUnder(p: string, root: string)
    requires IsAbsolute(root) && !IsAbsolute(p)
    ensures p != root && !IsUnder(p, root)
  {
  }

  /** A checkout of the repository `name`. */
  ghost predicate Checkout(root: string, parent: string, name: string) {
    && root == parent + "/" + name && name != "" && '/' !in name && '\\' !in root
  }

  lemma CheckoutRoot(root: string, parent: string, name: string)
    requires Checkout(root, parent, name)
    ensures RootOf(root) == root && Marker(root) == "/" + name + "/"
  {
    assert root[|root| - 1] == name[|name| - 1] && name[|name| - 1] in name;
    assert root[|root| - 1..] == [root[|root| - 1]];
    var i := LastIndexOf(root, "/");
    assert root[|parent|..] == "/" + name;
    forall j | |parent| < j <= |root| ensures !("/" <= root[j..]) {
      if j < |root| { assert root[j..][0] == name[j - |parent| - 1] && name[j - |parent| - 1] in name; }
    }
    assert i == |parent| by { LastAt(root, "/", |parent|); }
    assert root[i + 1..] == name;
  }

  /** The last place a pattern occurs. */
  lemma LastAt(s: string, pat: string, at: nat)
    requires at <= |s| && pat <= s[at..] && forall j :: at < j <= |s| ==> !(pat <= s[j..])
    ensures LastIndexOf(s, pat) == at
  {
  }

  /** A path inside the checkout the root names is what follows the root. */
  lemma OwnCheckout(root: string, parent: string, name: string, rel: string)
    requires Checkout(root, parent, name) && '\\' !in rel && !("./" <= rel)
    ensures NormalizedSf(root + "/" + rel, root) == rel
  {
    hide LastIndexOf;
    CheckoutRoot(root, parent, name);
    var p := root + "/" + rel;
    assert p[..|root|] == root && p[|root| + 1..] == rel;
    assert '\\' !in p;
  }

  /** `C:/` and what follows. */
  ghost predicate OnDrive(p: string, drive: char, below: string) {
    p == [drive] + ":/" + below && ('A' <= drive <= 'Z' || 'a' <= drive <= 'z')
  }

  /** So is a path inside another checkout of the same repository, whichever
      directory holds it, unless a directory of its name comes again below. */
  lemma OtherCheckout(root: string, parent: string, name: string, elsewhere: string, rel: string)
    requires Checkout(root, parent, name) && '\\' !in elsewhere && '\\' !in rel && !("./" <= rel)
    requires var p := elsewhere + ("/" + name + "/") + rel;
             && ("/" <= p || (exists drive, below :: OnDrive(p, drive, below))) && p != root && !(root + "/" <= p)
             && forall j :: |elsewhere| < j <= |p| ==> !("/" + name + "/" <= p[j..])
    ensures NormalizedSf(elsewhere + ("/" + name + "/") + rel, root) == rel
  {
    hide *;
    var marker := "/" + name + "/";
    var p := elsewhere + marker + rel;
    AbsoluteIff(p);
    CheckoutRoot(root, parent, name);
    UnderIff(p, root);
    MarkerThere(elsewhere, marker, rel);
    LastAt(p, marker, |elsewhere|);
    NoBackslash(root, parent, name, elsewhere, rel);
    CutAtMarker(p, root, |elsewhere|);
    Normalizes(p, root, rel);
  }

  lemma AbsoluteIff(p: string)
    ensures IsAbsolute(p) <==> "/" <= p || exists drive, below :: OnDrive(p, drive, below)
  {
    if IsAbsolute(p) && !("/" <= p) {
      assert OnDrive(p, p[0], p[3..]);
    }
  }

  lemma UnderIff(p: string, root: string)
    ensures IsUnder(p, root) <==> root + "/" <= p
  {
    if IsUnder(p, root) { assert p[..|root| + 1] == root + "/"; }
  }

  lemma MarkerThere(before: string, marker: string, rel: string)
    ensures marker <= (before + marker + rel)[|before|..]
    ensures (before + marker + rel)[|before| + |marker|..] == rel
  {
    var p := before + marker + rel;
    assert p[|before|..] == marker + rel;
  }

  lemma NoBackslash(root: string, parent: string, name: string, elsewhere: string, rel: string)
    requires Checkout(root, parent, name) && '\\' !in elsewhere && '\\' !in rel
    ensures '\\' !in elsewhere + ("/" + name + "/") + rel
  {
    assert forall c :: c in "/" + name + "/" ==> c == '/' || c in root;
  }

  lemma CutAtMarker(p: string, root: string, at: nat)
    requires IsAbsolute(p) && !IsUnder(p, root) && LastIndexOf(p, Marker(root)) == at
    ensures at + |Marker(root)| <= |p| && BelowRoot(p, root) == p[at + |Marker(root)|..]
  {
    hide IsAbsolute;
    hide Marker;
  }

  lemma Normalizes(p: string, root: string, rel: string)
    requires '\\' !in p && RootOf(root) == root && p != root && BelowRoot(p, root) == rel && !("./" <= rel)
    ensures NormalizedSf(p, root) == rel
  {
    hide BelowRoot;
    hide RootOf;
  }

  /** A path relative to the repository already is left alone. */
  lemma RelativeKept(root: string, parent: string, name: string, rel: string)
    requires Checkout(root, parent, name) && IsAbsolute(root)
    requires '\\' !in rel && !("./" <= rel) && !IsAbsolute(rel)
    ensures NormalizedSf(rel, root) == rel
  {
    hide LastIndexOf;
    CheckoutRoot(root, parent, name);
    RelativeIsNotUnder(rel, root);
  }

  /** Neither slashes for backslashes, nor slashes at the end of the root, nor
      `./` in front of a relative path make a difference. */
  lemma SpellingIrrelevant(a: string, b: string, root: string)
    requires |a| == |b| && forall i :: 0 <= i < |a| ==> a[i] == b[i] || (a[i] in {'/', '\\'} && b[i] in {'/', '\\'})
    ensures NormalizedSf(a, root) == NormalizedSf(b, root)
  {
    hide BelowRoot;
    hide RootOf;
    hide DropDots;
    assert Slashes(a) == Slashes(b) by { hide Slashes; }
  }

  lemma TrailingSlashes(sfRaw: string, root: string)
    ensures NormalizedSf(sfRaw, root + "/") == NormalizedSf(sfRaw, root)
    ensures NormalizedSf(sfRaw, root + "\\") == NormalizedSf(sfRaw, root)
  {
    RootTrimmed(root, '/');
    RootTrimmed(root, '\\');
    assert root + ['/'] == root + "/" && root + ['\\'] == root + "\\";
    hide BelowRoot;
    hide RootOf;
    hide Slashes;
  }

  lemma RootTrimmed(root: string, slash: char)
    requires slash in {'/', '\\'}
    ensures RootOf(root + [slash]) == RootOf(root)
  {
    hide Slashes;
    var s := Slashes(root + [slash]);
    assert s[..|root|] == Slashes(root) && s[|root|..] == "/";
  }

  lemma DotSlashIrrelevant(root: string, parent: string, name: string, rel: string)
    requires Checkout(root, parent, name) && IsAbsolute(root) && '\\' !in rel && !IsAbsolute(rel)
    ensures NormalizedSf("./" + rel, root) == NormalizedSf(rel, root)
  {
    hide LastIndexOf;
    hide DropDots;
    CheckoutRoot(root, parent, name);
    var p := "./" + rel;
    assert '\\' !in p && p[0] == '.' && p[1] == '/';
    RelativeIsNotUnder(p, root);
    RelativeIsNotUnder(rel, root);
    OneDot(rel);
  }

  lemma OneDot(rel: string)
    ensures DropDots("./" + rel) == DropDots(rel)
  {
    assert ("./" + rel)[2..] == rel && ("./" + rel)[..2] == "./";
  }

  lemma StripOnce(p: string, rest: string)
    requires '\\' !in p && p != "/r" && |p| >= 3 && p[..3] == "/r/" && rest == p[3..] && !("./" <= rest)
    ensures NormalizedSf(p, "/r") == rest
  {
    assert Slashes("/r") == "/r";
    assert RootOf("/r") == "/r" by { assert "/r"[|"/r"| - 1..] == "r"; }
    assert p[..2] == p[..3][..2] == "/r";
    assert p[2] == p[..3][2] == '/';
  }

  /** One pass is not always enough: a doubled root survives the first. */
  lemma DoubledRootNeedsTwoPasses()
    ensures NormalizedSf("/r//r/a", "/r") == "/r/a"
    ensures NormalizedSf("/r/a", "/r") == "a"
  {
    hide *;
    assert "/r/a"[0] != "./"[0] && "/r//r/a"[3..] == "/r/a";
    StripOnce("/r//r/a", "/r/a");
    StripOnce("/r/a", "a");
  }
}

/** Merging records by file, and lanes by their records. */
module LcovMerge {
  import opened Mapping
  import opened MapFold
  import opened Lcov
  import SfPath

  /** Hits per line, the lowest line seen per function, hits per function. */
  datatype MergedFile = MergedFile(da: map<int, int>, fnLine: map<string, int>, fnda: map<string, int>)

  type Merged = map<string, MergedFile>

  function Add(x: int, y: int): int { x + y }

  function Lower(x: int, y: int): int { if y < x then y else x }

  function PlusFile(a: MergedFile, b: MergedFile): MergedFile {
    MergedFile(Union(a.da, b.da, Add), Union(a.fnLine, b.fnLine, Lower), Union(a.fnda, b.fnda, Add))
  }

  function Plus(a: Merged, b: Merged): Merged {
    Union(a, b, PlusFile)
  }

  function ByName(p: (int, string)): (string, int) { (p.1, p.0) }

  /** What one record contributes to its file. */
  function FileOf(rec: Record): MergedFile {
    MergedFile(BumpAll(map[], rec.da, Add),
               BumpAll(map[], Map(ByName, rec.fn), Lower),
               BumpAll(map[], Map(ByName, rec.fnda), Add))
  }

  function Merge(m: Merged, sf: string, rec: Record): Merged {
    Bump(m, sf, FileOf(rec), PlusFile)
  }

  function Contribution(r: (string, Record)): (string, MergedFile) { (r.0, FileOf(r.1)) }

  /** Records, each under its file, merged into an empty map. */
  function MergeAll(recs: seq<(string, Record)>): Merged {
    BumpAll(map[], Map(Contribution, recs), PlusFile)
  }

  lemma PlusFileMonoidal()
    ensures Monoidal(Add) && Monoidal(Lower) && Monoidal(PlusFile)
  {
    forall a, b, c ensures PlusFile(PlusFile(a, b), c) == PlusFile(a, PlusFile(b, c)) {
      UnionAssociates(a.da, b.da, c.da, Add);
      UnionAssociates(a.fnLine, b.fnLine, c.fnLine, Lower);
      UnionAssociates(a.fnda, b.fnda, c.fnda, Add);
    }
    forall a, b ensures PlusFile(a, b) == PlusFile(b, a) {
      UnionCommutes(a.da, b.da, Add);
      UnionCommutes(a.fnLine, b.fnLine, Lower);
      UnionCommutes(a.fnda, b.fnda, Add);
    }
  }

  method Lines(from: map<string, int>, fn: seq<(int, string)>) returns (fnLine: map<string, int>)
    ensures fnLine == BumpAll(from, Map(ByName, fn), Lower)
  {
    fnLine := from;
    for i := 0 to |fn|
      invariant fnLine == BumpAll(from, Map(ByName, fn[..i]), Lower)
    {
      var (line, name) := fn[i];
      if name !in fnLine || line < fnLine[name] {
        fnLine := fnLine[name := line];
      }
      assert Map(ByName, fn[..i + 1])[..i] == Map(ByName, fn[..i]);
    }
    assert fn[..|fn|] == fn;
  }

  method Hits(from: map<string, int>, fnda: seq<(int, string)>) returns (total: map<string, int>)
    ensures total == BumpAll(from, Map(ByName, fnda), Add)
  {
    total := from;
    for i := 0 to |fnda|
      invariant total == BumpAll(from, Map(ByName, fnda[..i]), Add)
    {
      var (hits, name) := fnda[i];
      total := total[name := (if name in total then total[name] else 0) + hits];
      assert Map(ByName, fnda[..i + 1])[..i] == Map(ByName, fnda[..i]);
    }
    assert fnda[..|fnda|] == fnda;
  }

  /** The merger's map of files, updated in place record by record. */
  class Merger {
    var merged: Merged

    constructor ()
      ensures merged == map[]
    {
      merged := map[];
    }

    method MergeRecord(sf: string, rec: Record)
      modifies this
      ensures merged == Merge(old(merged), sf, rec)
    {
      var f := if sf in merged then merged[sf] else MergedFile(map[], map[], map[]);
      var da := f.da;
      for i := 0 to |rec.da|
        invariant da == BumpAll(f.da, rec.da[..i], Add)
      {
        var (line, hits) := rec.da[i];
        da := da[line := (if line in da then da[line] else 0) + hits];
        assert rec.da[..i + 1][..i] == rec.da[..i];
      }
      assert rec.da[..|rec.da|] == rec.da;
      var fnLine := Lines(f.fnLine, rec.fn);
      var fnda := Hits(f.fnda, rec.fnda);
      merged := merged[sf := MergedFile(da, fnLine, fnda)];
      PlusFileMonoidal();
      BumpAllIsUnion(f.da, rec.da, Add);
      BumpAllIsUnion(f.fnLine, Map(ByName, rec.fn), Lower);
      BumpAllIsUnion(f.fnda, Map(ByName, rec.fnda), Add);
      UnionUnit(FileOf(rec).da, Add);
      UnionUnit(FileOf(rec).fnLine, Lower);
      UnionUnit(FileOf(rec).fnda, Add);
    }
  }

  // ------------------------------------------------------------- lanes

  /** The records of one lcov text under normalised paths: none of them when
      the text is malformed, and none whose path normalises to nothing. */
  function LaneRecords(text: string, repoRoot: string): seq<(string, Record)> {
    Placed(Parse(text).records, repoRoot)
  }

  function Placed(records: seq<Record>, repoRoot: string): seq<(string, Record)> {
    if records == [] then [] else
      var last := |records| - 1;
      var sf := SfPath.NormalizedSf(records[last].sf, repoRoot);
      Placed(records[..last], repoRoot) + if sf == "" then [] else [(sf, records[last])]
  }

  function AllRecords(texts: seq<string>, repoRoot: string): seq<(string, Record)> {
    if texts == [] then [] else
      AllRecords(texts[..|texts| - 1], repoRoot) + LaneRecords(texts[|texts| - 1], repoRoot)
  }

  /** The merged coverage of all lanes. */
  function MergeLanes(texts: seq<string>, repoRoot: string): Merged {
    MergeAll(AllRecords(texts, repoRoot))
  }

  lemma PlacedStep(records: seq<Record>, i: nat, repoRoot: string)
    requires i < |records|
    ensures var sf := SfPath.NormalizedSf(records[i].sf, repoRoot);
            Placed(records[..i + 1], repoRoot) ==
            Placed(records[..i], repoRoot) + if sf == "" then [] else [(sf, records[i])]
  {
    assert records[..i + 1][..i] == records[..i];
  }

  lemma LaneStep(texts: seq<string>, i: nat, repoRoot: string)
    requires i < |texts|
    ensures AllRecords(texts[..i + 1], repoRoot) == AllRecords(texts[..i], repoRoot) + LaneRecords(texts[i], repoRoot)
    ensures Parse(texts[i]).malformed ==> AllRecords(texts[..i + 1], repoRoot) == AllRecords(texts[..i], repoRoot)
  {
    assert texts[..i + 1][..i] == texts[..i];
  }

  /** The merge loop: a malformed lane is skipped whole and marks the result
      degraded; it never aborts the merge. */
  method MergeTexts(texts: seq<string>, repoRoot: string)
    returns (merged: Merged, degraded: bool, parsedFiles: nat)
    ensures merged == MergeLanes(texts, repoRoot)
    ensures degraded <==> exists j :: 0 <= j < |texts| && Parse(texts[j]).malformed
    ensures parsedFiles == 0 <==> forall j :: 0 <= j < |texts| ==> Parse(texts[j]).malformed
  {
    hide Parse;
    hide AllRecords;
    hide LaneRecords;
    hide MergeAll;
    var m := new Merger();
    degraded := false;
    parsedFiles := 0;
    NoLanes(texts, repoRoot);
    for i := 0 to |texts|
      invariant fresh(m) && m.merged == MergeAll(AllRecords(texts[..i], repoRoot))
      invariant degraded <==> exists j :: 0 <= j < i && Parse(texts[j]).malformed
      invariant parsedFiles == 0 <==> forall j :: 0 <= j < i ==> Parse(texts[j]).malformed
    {
      LaneStep(texts, i, repoRoot);
      var res := ParseLcovText(texts[i]);
      if res.malformed {
        degraded := true;
        continue;
      }
      parsedFiles := parsedFiles + 1;
      MergeLane(m, texts[i], res.records, repoRoot, AllRecords(texts[..i], repoRoot));
    }
    assert texts[..|texts|] == texts;
    merged := m.merged;
  }

  lemma NoLanes(texts: seq<string>, repoRoot: string)
    ensures MergeAll(AllRecords(texts[..0], repoRoot)) == map[]
  {
  }

  method MergeLane(m: Merger, ghost text: string, records: seq<Record>, repoRoot: string,
                   ghost before: seq<(string, Record)>)
    requires m.merged == MergeAll(before) && records == Parse(text).records
    modifies m
    ensures m.merged == MergeAll(before + LaneRecords(text, repoRoot))
  {
    hide Parse;
    hide Placed;
    hide MergeAll;
    hide Merge;
    hide SfPath.NormalizedSf;
    assert Placed(records[..0], repoRoot) == [] by { PlacedNothing(repoRoot); }
    assert before + [] == before;
    for i := 0 to |records|
      invariant m.merged == MergeAll(before + Placed(records[..i], repoRoot))
    {
      PlacedStep(records, i, repoRoot);
      ghost var placed := Placed(records[..i], repoRoot);
      assert placed + [] == placed;
      var sf := SfPath.NormalizeSf(records[i].sf, repoRoot);
      if sf != "" {
        m.MergeRecord(sf, records[i]);
        assert before + (placed + [(sf, records[i])]) == (before + placed) + [(sf, records[i])];
        MergeLast(before + placed, (sf, records[i]));
      }
    }
    assert records[..|records|] == records;
  }

  lemma PlacedNothing(repoRoot: string)
    ensures Placed([], repoRoot) == []
  {
  }

  lemma MergeLast(recs: seq<(string, Record)>, r: (string, Record))
    ensures MergeAll(recs + [r]) == Merge(MergeAll(recs), r.0, r.1)
  {
    MapAppend(Contribution, recs, r);
    assert (Map(Contribution, recs) + [Contribution(r)])[..|recs|] == Map(Contribution, recs);
  }

  // -------------------------------------------------- order independence

  lemma MergeConcat(a: seq<(string, Record)>, b: seq<(string, Record)>)
    ensures MergeAll(a + b) == Plus(MergeAll(a), MergeAll(b))
  {
    PlusFileMonoidal();
    assert Map(Contribution, a + b) == Map(Contribution, a) + Map(Contribution, b);
    ConcatIsUnion(Map(Contribution, a), Map(Contribution, b), PlusFile);
  }

  /** Records merge to the same map in any order. */
  lemma RecordOrderIrrelevant(a: seq<(string, Record)>, b: seq<(string, Record)>)
    requires multiset(a) == multiset(b)
    ensures MergeAll(a) == MergeAll(b)
  {
    PlusFileMonoidal();
    MapElements(Contribution, a, b);
    BumpOrderIrrelevant(Map(Contribution, a), Map(Contribution, b), PlusFile);
  }

  lemma {:induction false} LanesConcat(a: seq<string>, b: seq<string>, repoRoot: string)
    ensures AllRecords(a + b, repoRoot) == AllRecords(a, repoRoot) + AllRecords(b, repoRoot)
  {
    hide LaneRecords;
    var ab := a + b;
    if b == [] {
      assert ab == a;
    } else {
      var last := |b| - 1;
      assert ab[..|ab| - 1] == a + b[..last] && ab[|ab| - 1] == b[last];
      LanesConcat(a, b[..last], repoRoot);
    }
  }

  /** Lanes merge as a sum: any grouping gives the same result. */
  lemma LanesGroup(a: seq<string>, b: seq<string>, repoRoot: string)
    ensures MergeLanes(a + b, repoRoot) == Plus(MergeLanes(a, repoRoot), MergeLanes(b, repoRoot))
  {
    LanesConcat(a, b, repoRoot);
    MergeConcat(AllRecords(a, repoRoot), AllRecords(b, repoRoot));
  }

  lemma LaneOut(texts: seq<string>, j: nat, repoRoot: string)
    requires j < |texts|
    ensures MergeLanes(texts, repoRoot) ==
            Plus(MergeLanes(Without(texts, j), repoRoot), MergeLanes([texts[j]], repoRoot))
  {
    var before, one, after := texts[..j], [texts[j]], texts[j + 1..];
    assert texts == before + (one + after);
    assert Without(texts, j) == before + after;
    LanesGroup(before, one + after, repoRoot);
    LanesGroup(one, after, repoRoot);
    LanesGroup(before, after, repoRoot);
    PlusFileMonoidal();
    var b, o, a := MergeLanes(before, repoRoot), MergeLanes(one, repoRoot), MergeLanes(after, repoRoot);
    UnionCommutes(o, a, PlusFile);
    UnionAssociates(b, a, o, PlusFile);
  }

  /** Lanes merge to the same map in any order. */
  lemma {:induction false} LaneOrderIrrelevant(a: seq<string>, b: seq<string>, repoRoot: string)
    requires multiset(a) == multiset(b)
    ensures MergeLanes(a, repoRoot) == MergeLanes(b, repoRoot)
  {
    hide MergeLanes;
    assert |a| == |multiset(a)| == |multiset(b)| == |b|;
    if a != [] {
      assert a[0] in multiset(b);
      var j :| 0 <= j < |b| && b[j] == a[0];
      WithoutElements(a, 0);
      WithoutElements(b, j);
      LaneOrderIrrelevant(Without(a, 0), Without(b, j), repoRoot);
      LaneOut(a, 0, repoRoot);
      LaneOut(b, j, repoRoot);
    }
  }
}
