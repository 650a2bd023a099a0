/** When a regenerated artifact, used as a lane, is worth exactly the map it
    was made from. */
module LcovArtifact {
  import opened Sorting
  import opened Mapping
  import opened Text
  import opened MapFold
  import opened Lcov
  import opened LcovMerge
  import opened LcovEmit
  import opened LcovRoundTrip
  import SfPath

  /** Every path is its own normal form. */
  ghost predicate NormalPaths(m: Merged, repoRoot: string) {
    forall file :: file in m ==> file != "" && SfPath.NormalizedSf(file, repoRoot) == file
  }

  lemma {:induction false} PlacedAsIs(recs: seq<Record>, repoRoot: string)
    requires forall i :: 0 <= i < |recs| ==> recs[i].sf != "" && SfPath.NormalizedSf(recs[i].sf, repoRoot) == recs[i].sf
    ensures Placed(recs, repoRoot) == Map(BySf, recs)
  {
    hide SfPath.NormalizedSf;
    if recs != [] {
      PlacedAsIs(recs[..|recs| - 1], repoRoot);
      MapLast(BySf, recs);
    }
  }

  lemma RecordPath(file: string, f: MergedFile)
    ensures RecordOf(file, f).sf == file
  {
  }

  /** One lane is worth its own records. */
  lemma OneLane(text: string, repoRoot: string)
    ensures MergeLanes([text], repoRoot) == MergeAll(Placed(Parse(text).records, repoRoot))
  {
    hide Parse;
    hide Placed;
    hide MergeAll;
    assert [text][..0] == [];
    assert [] + LaneRecords(text, repoRoot) == LaneRecords(text, repoRoot);
    assert AllRecords([text], repoRoot) == [] + LaneRecords(text, repoRoot);
  }

  /** Under normal paths the lane is the plain round trip. */
  lemma NormalLane(m: Merged, repoRoot: string)
    requires Safe(m) && NormalPaths(m, repoRoot)
    ensures MergeLanes([Emit(m)], repoRoot) == MergeAll(Map(BySf, Parse(Emit(m)).records))
    ensures !Parse(Emit(m)).malformed
  {
    hide Parse;
    hide Emit;
    hide RecordsOf;
    hide RecordOf;
    hide Placed;
    hide MergeAll;
    hide Safe;
    hide SfPath.NormalizedSf;
    EmitParses(m);
    var recs := RecordsOf(m, Files(m));
    RecordsAt(m, Files(m));
    forall i | 0 <= i < |recs|
      ensures recs[i].sf != "" && SfPath.NormalizedSf(recs[i].sf, repoRoot) == recs[i].sf
    {
      assert Files(m)[i] in Files(m);
      RecordPath(Files(m)[i], m[Files(m)[i]]);
    }
    PlacedAsIs(recs, repoRoot);
    OneLane(Emit(m), repoRoot);
  }

  // ---------------------------------- what a lane can leave in the map

  /** Paths on one line without white space at the end, names on one line. */
  ghost predicate Solid(m: Merged) {
    forall file :: file in m ==> PathSolid(file) && SafeFile(m[file])
  }

  /** Normalising only cuts at the front and turns backslashes round. */
  lemma NormalShape(path: string, repoRoot: string)
    ensures var p := SfPath.NormalizedSf(path, repoRoot);
            && |p| <= |path| && '\\' !in p
            && (|p| == |path| && '\\' !in path ==> p == path)
            && (p != "" ==> p == SfPath.Slashes(path)[|path| - |p|..])
  {
    hide SfPath.Slashes;
    hide SfPath.RootOf;
    var q := SfPath.Slashes(path);
    var below := SfPath.BelowRoot(q, SfPath.RootOf(repoRoot));
    hide SfPath.BelowRoot;
    hide SfPath.DropDots;
    var p := SfPath.NormalizedSf(path, repoRoot);
    assert p == "" || p == SfPath.DropDots(below);
    assert p != "" ==> p == q[|q| - |p|..];
  }

  lemma {:induction false} SlashesAt(s: string, i: nat)
    requires i < |s|
    ensures SfPath.Slashes(s)[i] == if s[i] == '\\' then '/' else s[i]
  {
    if i > 0 {
      SlashesAt(s[1..], i - 1);
    }
  }

  lemma NormalIsSolid(path: string, repoRoot: string)
    requires PathSolid(path) && SfPath.NormalizedSf(path, repoRoot) != ""
    ensures PathSolid(SfPath.NormalizedSf(path, repoRoot))
  {
    hide SfPath.Slashes;
    hide SfPath.NormalizedSf;
    var p, q := SfPath.NormalizedSf(path, repoRoot), SfPath.Slashes(path);
    NormalShape(path, repoRoot);
    SlashesAt(path, |path| - 1);
    assert p[|p| - 1] == q[|path| - 1];
    forall i | 0 <= i < |p| ensures p[i] != '\n' {
      SlashesAt(path, |path| - |p| + i);
      assert path[|path| - |p| + i] in path;
    }
  }

  lemma {:induction false} PlacedIsSolid(recs: seq<Record>, repoRoot: string)
    requires forall i :: 0 <= i < |recs| ==> SafeRecord(recs[i])
    ensures Solid(MergeAll(Placed(recs, repoRoot)))
  {
    hide FileOf;
    hide PlusFile;
    hide SafeFile;
    hide PathSolid;
    hide SafeRecord;
    hide SfPath.NormalizedSf;
    if recs != [] {
      var last := |recs| - 1;
      PlacedIsSolid(recs[..last], repoRoot);
      var m, sf := MergeAll(Placed(recs[..last], repoRoot)), SfPath.NormalizedSf(recs[last].sf, repoRoot);
      if sf == "" {
        assert Placed(recs, repoRoot) == Placed(recs[..last], repoRoot);
      } else {
        MergeLast(Placed(recs[..last], repoRoot), (sf, recs[last]));
        SafeContribution(recs[last]);
        SafeRecordPath(recs[last]);
        NormalIsSolid(recs[last].sf, repoRoot);
        if sf in m {
          SafePlus(m[sf], FileOf(recs[last]));
        }
      }
    }
  }

  lemma SafeRecordPath(r: Record)
    requires SafeRecord(r)
    ensures PathSolid(r.sf)
  {
    SafeIsSolid(r.sf);
  }

  /** A map that is the worth of a lane is solid. */
  lemma LaneIsSolid(text: string, repoRoot: string)
    ensures Solid(MergeLanes([text], repoRoot))
  {
    hide *;
    ParsedIsSafe(text);
    OneLane(text, repoRoot);
    PlacedIsSolid(Parse(text).records, repoRoot);
  }

  // ------------------------------------ reading a solid map back

  ghost function TrimmedRecords(m: Merged, files: seq<string>): seq<Record>
    requires forall f :: f in files ==> f in m
  {
    if files == [] then [] else
      var last := |files| - 1;
      TrimmedRecords(m, files[..last]) + [RecordOf(Trim(files[last]), m[files[last]])]
  }

  lemma {:induction false} RunTrimmedBlocks(m: Merged, files: seq<string>)
    requires Solid(m) && forall f :: f in files ==> f in m
    ensures Run(START, Blocks(m, files), 1) == Running(TrimmedRecords(m, files), None, [], {})
  {
    hide RecordOf;
    hide Block;
    hide Run;
    hide Trim;
    hide PathSolid;
    if files == [] {
      RunNothing(START, 1);
    } else {
      var last := |files| - 1;
      var before, st := Blocks(m, files[..last]), Running(TrimmedRecords(m, files[..last]), None, [], {});
      RunTrimmedBlocks(m, files[..last]);
      RunBlockTrimmed(st, files[last], m[files[last]], 1 + |before|);
      RunThen(START, before, st, Block(files[last], m[files[last]]), Running(TrimmedRecords(m, files), None, [], {}), 1);
    }
  }

  lemma SolidParses(m: Merged)
    requires Solid(m)
    ensures Parse(Emit(m)) == ParseResult(TrimmedRecords(m, Files(m)), [], false)
  {
    hide Run;
    hide Terminated;
    hide OneLiners;
    hide Blocks;
    var lines := Blocks(m, Files(m));
    BlocksOneLiners(m, Files(m));
    ParseTerminated(lines, "");
    assert Terminated(lines) + "" == Terminated(lines);
    RunTrimmedBlocks(m, Files(m));
    assert StripCr("") == "" && Trim("") == "";
  }

  /** A path of the lane is some path of the map, trimmed and normalised. */
  lemma {:induction false} PlacedPaths(m: Merged, files: seq<string>, repoRoot: string, p: string)
    requires forall f :: f in files ==> f in m
    requires p in MergeAll(Placed(TrimmedRecords(m, files), repoRoot))
    ensures exists f :: f in files && SfPath.NormalizedSf(Trim(f), repoRoot) == p
  {
    hide FileOf;
    hide PlusFile;
    hide RecordOf;
    hide Trim;
    hide SfPath.NormalizedSf;
    var last := |files| - 1;
    if files != [] {
      var rest := TrimmedRecords(m, files[..last]);
      var rec := RecordOf(Trim(files[last]), m[files[last]]);
      RecordPath(Trim(files[last]), m[files[last]]);
      var all := TrimmedRecords(m, files);
      assert all[..|all| - 1] == rest && all[|all| - 1] == rec;
      var sf := SfPath.NormalizedSf(rec.sf, repoRoot);
      if p != sf || sf == "" {
        assert p in MergeAll(Placed(rest, repoRoot)) by {
          if sf == "" {
            assert Placed(all, repoRoot) == Placed(rest, repoRoot);
          } else {
            MergeLast(Placed(rest, repoRoot), (sf, rec));
          }
        }
        PlacedPaths(m, files[..last], repoRoot, p);
        var f :| f in files[..last] && SfPath.NormalizedSf(Trim(f), repoRoot) == p;
        assert f in files;
      } else {
        assert files[last] in files;
      }
    }
  }

  // ------------------------------------------------ only normal paths stay

  lemma TrimShorter(s: string)
    ensures |Trim(s)| <= |s| && (|Trim(s)| == |s| ==> Trim(s) == s)
  {
    TrimStartShorter(s);
    TrimEndShape(TrimStart(s));
  }

  lemma {:induction false} TrimStartShorter(s: string)
    ensures |TrimStart(s)| <= |s| && (|TrimStart(s)| == |s| ==> TrimStart(s) == s)
  {
    if s != "" && IsSpace(s[0]) {
      TrimStartShorter(s[1..]);
    }
  }

  /** Where a path of an artifact ends up. */
  function Landed(path: string, repoRoot: string): string {
    SfPath.NormalizedSf(Trim(path), repoRoot)
  }

  lemma LandedShape(path: string, repoRoot: string)
    ensures |Landed(path, repoRoot)| <= |path| && '\\' !in Landed(path, repoRoot)
    ensures |Landed(path, repoRoot)| == |path| && '\\' !in path ==>
              Landed(path, repoRoot) == path && Trim(path) == path
  {
    hide Trim;
    hide SfPath.NormalizedSf;
    TrimShorter(path);
    NormalShape(Trim(path), repoRoot);
  }

  /** When every path of a finite set is where another one lands, every path
      lands on itself: one that moved would have to come from a longer one. */
  lemma {:induction false} LandingFixes(paths: set<string>, repoRoot: string, n: string)
    requires forall p :: p in paths ==> exists x :: x in paths && Landed(x, repoRoot) == p
    requires n in paths
    ensures Landed(n, repoRoot) == n && Trim(n) == n
    decreases |Longer(paths, n)|
  {
    hide Landed;
    hide Trim;
    var x :| x in paths && Landed(x, repoRoot) == n;
    var y :| y in paths && Landed(y, repoRoot) == x;
    LandedShape(x, repoRoot);
    LandedShape(y, repoRoot);
    if |x| > |n| {
      Smaller(Longer(paths, x), Longer(paths, n), x);
      LandingFixes(paths, repoRoot, x);
    }
  }

  lemma FilesOf(m: Merged)
    ensures forall f :: f in Files(m) <==> f in m
  {
  }

  lemma LandsOnItself(m: Merged, repoRoot: string, file: string)
    requires MergeLanes([Emit(m)], repoRoot) == m && file in m
    ensures Landed(file, repoRoot) == file && Trim(file) == file
  {
    hide *;
    LaneIsSolid(Emit(m), repoRoot);
    SolidParses(m);
    OneLane(Emit(m), repoRoot);
    FilesOf(m);
    forall p | p in m.Keys ensures exists x :: x in m.Keys && Landed(x, repoRoot) == p {
      PlacedPaths(m, Files(m), repoRoot, p);
      var f :| f in Files(m) && SfPath.NormalizedSf(Trim(f), repoRoot) == p;
      LandedIs(f, repoRoot);
      assert f in m.Keys;
    }
    LandingFixes(m.Keys, repoRoot, file);
  }

  lemma LandedIs(path: string, repoRoot: string)
    ensures Landed(path, repoRoot) == SfPath.NormalizedSf(Trim(path), repoRoot)
  {
  }

  lemma SolidPath(m: Merged, file: string)
    requires Solid(m) && file in m
    ensures file != "" && LineSafe(file) && SafeFile(m[file])
    ensures Trim(file) == file ==> PathSafe(file)
  {
    TrimShape(file);
  }

  /** A regenerated artifact is a lane worth exactly the map it was made from
      if and only if the map can be represented and its paths are normal. */
  lemma ArtifactIsItsMap(m: Merged, repoRoot: string)
    ensures MergeLanes([Emit(m)], repoRoot) == m <==> Representable(m) && NormalPaths(m, repoRoot)
  {
    hide Parse;
    hide Emit;
    hide MergeAll;
    hide MergeLanes;
    hide SafeFile;
    hide PathSafe;
    hide SfPath.NormalizedSf;
    hide Solid;
    hide Trim;
    RoundTripIff(m);
    if MergeLanes([Emit(m)], repoRoot) == m {
      LaneIsSolid(Emit(m), repoRoot);
      forall file | file in m
        ensures PathSafe(file) && SafeFile(m[file]) && file != "" && SfPath.NormalizedSf(file, repoRoot) == file
      {
        LandsOnItself(m, repoRoot, file);
        SolidPath(m, file);
      }
      NormalLane(m, repoRoot);
    } else if Representable(m) && NormalPaths(m, repoRoot) {
      NormalLane(m, repoRoot);
    }
  }
}
