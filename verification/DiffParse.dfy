/** `scripts/coverage-diff-gate.ts`: the added lines of a zero-context diff. */
module DiffParse {
  import opened Text

  /** The digits a string starts with. */
  function DigitRun(s: string): (d: string)
    ensures d <= s && AllDigits(d)
    ensures |d| < |s| ==> !IsDigit(s[|d|])
  {
    if s != "" && IsDigit(s[0]) then [s[0]] + DigitRun(s[1..]) else ""
  }

  /** `-?` of a pattern: the rest of `s` after `prefix`. */
  function After(s: string, prefix: string): Option<string> {
    if prefix <= s then Some(s[|prefix|..]) else None
  }

  /** One or more digits, then the rest. */
  function Number(s: string): Option<(nat, string)> {
    var d := DigitRun(s);
    if d == "" then None else Some((NatValue(d), s[|d|..]))
  }

  /** `\d+(?:,(\d+))?`: a start and, when there, a count. */
  function Range(s: string): Option<(nat, Option<nat>, string)> {
    match Number(s)
    case None => None
    case Some((start, rest)) =>
      if "," <= rest && Number(rest[1..]).Some? then
        var (count, more) := Number(rest[1..]).value;
        Some((start, Some(count), more))
      else Some((start, None, rest))
  }

  /** `^@@ -\d+(?:,\d+)? \+(\d+)(?:,(\d+))? @@`: the new side of a hunk header. */
  function HunkHeader(line: string): Option<(nat, nat)> {
    match After(line, "@@ -")
    case None => None
    case Some(s) =>
      match Range(s)
      case None => None
      case Some((_, _, s)) =>
        match After(s, " +")
        case None => None
        case Some(s) =>
          match Range(s)
          case None => None
          case Some((start, count, s)) =>
            if " @@" <= s then Some((start, if count.None? then 1 else count.value)) else None
  }

  type Changed = map<string, seq<nat>>

  datatype Reader = Reader(out: Changed, current: Option<string>)

  /** `p === "/dev/null" ? null : p.replace(/^b\//, "")`, an empty name being no file. */
  function Target(line: string): Option<string>
    requires |line| >= 4
  {
    var p := Trim(line[4..]);
    var name := if "b/" <= p then p[2..] else p;
    if p == "/dev/null" || name == "" then None else Some(name)
  }

  /** `count` consecutive line numbers from `start` on. */
  function Span(start: nat, count: nat): (r: seq<nat>)
    ensures |r| == count && forall i :: 0 <= i < count ==> r[i] == start + i
  {
    seq(count, i => start + i)
  }

  function Step(st: Reader, line: string): Reader {
    if "+++ " <= line then st.(current := Target(line))
    else if st.current.None? then st
    else
      match HunkHeader(line)
      case None => st
      case Some((start, count)) =>
        if count == 0 then st else
          var file := st.current.value;
          st.(out := st.out[file := (if file in st.out then st.out[file] else []) + Span(start, count)])
  }

  function Run(st: Reader, lines: seq<string>): Reader {
    if lines == [] then st else Step(Run(st, lines[..|lines| - 1]), lines[|lines| - 1])
  }

  const START := Reader(map[], None)

  function Parse(text: string): Changed {
    Run(START, Split(text, '\n')).out
  }

  lemma RunNothing(st: Reader)
    ensures Run(st, []) == st
  {
  }

  lemma RunLine(st: Reader, lines: seq<string>, k: nat)
    requires k < |lines|
    ensures Run(st, lines[..k + 1]) == Step(Run(st, lines[..k]), lines[k])
  {
    hide Step;
    assert lines[..k + 1][..k] == lines[..k];
  }

  method ParseUnifiedDiff(text: string) returns (out: Changed)
    ensures out == Parse(text)
  {
    hide HunkHeader;
    hide Target;
    hide Run;
    hide Split;
    RunNothing(START);
    out := map[];
    var current: Option<string> := None;
    var lines := Split(text, '\n');
    for k := 0 to |lines|
      invariant Run(START, lines[..k]) == Reader(out, current)
    {
      RunLine(START, lines, k);
      var line := lines[k];
      if "+++ " <= line {
        current := Target(line);
        continue;
      }
      if current.None? {
        continue;
      }
      var m := HunkHeader(line);
      if m.None? {
        continue;
      }
      var (start, count) := m.value;
      if count <= 0 {
        continue;
      }
      var file := current.value;
      ghost var before := if file in out then out[file] else [];
      var arr := if file in out then out[file] else [];
      for i := 0 to count
        invariant arr == before + Span(start, i)
      {
        arr := arr + [start + i];
      }
      out := out[file := arr];
    }
    assert lines[..|lines|] == lines;
  }

  // ----------------------------------------------- edits and their diff

  /** A step through a file: lines kept, or lines replaced (either side may be
      empty; a heading may follow the hunk header, and either side may lack its
      final newline). */
  datatype Edit =
    | Keep(kept: seq<string>)
    | Change(deleted: seq<string>, added: seq<string>, heading: string, oldNoEol: bool, newNoEol: bool)

  /** An edited file: its name, the header lines before `+++`, its edits, and
      whether the edits delete the whole file. */
  datatype FileEdit = FileEdit(name: string, preamble: seq<string>, edits: seq<Edit>, removed: bool)

  /** The new file, each line marked when it was inserted. */
  function NewFile(edits: seq<Edit>): seq<(string, bool)> {
    if edits == [] then [] else
      NewFile(edits[..|edits| - 1]) +
      match edits[|edits| - 1]
      case Keep(kept) => Marked(kept, false)
      case Change(_, added, _, _, _) => Marked(added, true)
  }

  function Marked(lines: seq<string>, inserted: bool): (r: seq<(string, bool)>)
    ensures |r| == |lines|
  {
    seq(|lines|, i requires 0 <= i < |lines| => (lines[i], inserted))
  }

  /** How many lines of the old file the edits walk over. */
  function OldLength(edits: seq<Edit>): nat {
    if edits == [] then 0 else
      OldLength(edits[..|edits| - 1]) +
      match edits[|edits| - 1]
      case Keep(kept) => |kept|
      case Change(deleted, _, _, _, _) => |deleted|
  }

  /** The 1-based positions of the inserted lines, in increasing order. */
  function Inserted(file: seq<(string, bool)>): seq<nat> {
    if file == [] then [] else
      var n := |file|;
      Inserted(file[..n - 1]) + if file[n - 1].1 then [n] else []
  }

  /** `start` or `start,count`; an empty side is numbered by the line before it. */
  function RangeText(before: nat, count: nat): string {
    if count == 1 then NatToString(before + 1)
    else if count == 0 then NatToString(before) + "," + NatToString(0)
    else NatToString(before + 1) + "," + NatToString(count)
  }

  function HunkLine(oldBefore: nat, deleted: nat, newBefore: nat, added: nat, heading: string): string {
    "@@ -" + RangeText(oldBefore, deleted) + " +" + RangeText(newBefore, added) + " @@" + heading
  }

  function Prefixed(sign: char, lines: seq<string>): (r: seq<string>)
    ensures |r| == |lines| && forall i :: 0 <= i < |r| ==> r[i] == [sign] + lines[i]
  {
    seq(|lines|, i requires 0 <= i < |lines| => [sign] + lines[i])
  }

  /** The hunks of a file without context lines. */
  function Hunks(edits: seq<Edit>): seq<string> {
    if edits == [] then [] else
      var before := edits[..|edits| - 1];
      Hunks(before) +
      match edits[|edits| - 1]
      case Keep(_) => []
      case Change(deleted, added, heading, oldNoEol, newNoEol) =>
        [HunkLine(OldLength(before), |deleted|, |NewFile(before)|, |added|, heading)]
        + ChangedLines(deleted, added, oldNoEol, newNoEol)
  }

  function ChangedLines(deleted: seq<string>, added: seq<string>, oldNoEol: bool, newNoEol: bool): seq<string> {
    Prefixed('-', deleted) + NoEol(oldNoEol) + (Prefixed('+', added) + NoEol(newNoEol))
  }

  function NoEol(missing: bool): seq<string> {
    if missing then ["\\ No newline at end of file"] else []
  }

  function FileLines(f: FileEdit): seq<string> {
    f.preamble + ["+++ " + if f.removed then "/dev/null" else "b/" + f.name] + Hunks(f.edits)
  }

  function DiffLines(files: seq<FileEdit>): seq<string> {
    if files == [] then [] else DiffLines(files[..|files| - 1]) + FileLines(files[|files| - 1])
  }

  /** `git diff --unified=0` over edited files. */
  function Render(files: seq<FileEdit>): string {
    Terminated(DiffLines(files))
  }

  /** What the diff should say: inserted positions per file, files without any left out. */
  function Expected(files: seq<FileEdit>): Changed {
    if files == [] then map[] else
      var last := files[|files| - 1];
      var inserted := Inserted(NewFile(last.edits));
      var before := Expected(files[..|files| - 1]);
      if last.removed || inserted == [] then before else before[last.name := inserted]
  }

  // ------------------------------------------------------ what is parsed

  /** Lines the parser passes over. */
  ghost predicate Quiet(line: string) {
    !("+++ " <= line) && !("@@ -" <= line)
  }

  ghost predicate AllQuiet(lines: seq<string>) {
    forall i :: 0 <= i < |lines| ==> Quiet(lines[i])
  }

  lemma {:induction false} RunConcat(st: Reader, a: seq<string>, b: seq<string>)
    ensures Run(st, a + b) == Run(Run(st, a), b)
  {
    hide Step;
    var ab := a + b;
    if b == [] {
      assert ab == a;
    } else {
      var last := |b| - 1;
      assert ab[..|ab| - 1] == a + b[..last] && ab[|ab| - 1] == b[last];
      RunConcat(st, a, b[..last]);
    }
  }

  lemma RunOne(st: Reader, line: string)
    ensures Run(st, [line]) == Step(st, line)
  {
    hide Step;
    assert [line][..0] == [];
  }

  lemma QuietStep(st: Reader, line: string)
    requires Quiet(line)
    ensures Step(st, line) == st
  {
  }

  lemma {:induction false} RunQuiet(st: Reader, lines: seq<string>)
    requires AllQuiet(lines)
    ensures Run(st, lines) == st
  {
    hide Step;
    hide Quiet;
    if lines != [] {
      RunQuiet(st, lines[..|lines| - 1]);
      QuietStep(st, lines[|lines| - 1]);
    }
  }

  lemma {:induction false} DigitRunOf(d: string, rest: string)
    requires AllDigits(d) && (rest == "" || !IsDigit(rest[0]))
    ensures DigitRun(d + rest) == d
  {
    if d == "" {
      assert d + rest == rest;
    } else {
      assert (d + rest)[1..] == d[1..] + rest;
      DigitRunOf(d[1..], rest);
      assert [d[0]] + d[1..] == d;
    }
  }

  lemma ReadsNumber(n: nat, rest: string)
    requires rest == "" || !IsDigit(rest[0])
    ensures Number(NatToString(n) + rest) == Some((n, rest))
  {
    var d := NatToString(n);
    DigitRunOf(d, rest);
    NatRoundTrip(n);
    assert (d + rest)[|d|..] == rest;
    hide NatToString;
    hide NatValue;
    hide DigitRun;
  }

  /** The range of `count` lines after `before` lines. */
  function RangeOf(before: nat, count: nat): (nat, Option<nat>) {
    (if count == 0 then before else before + 1, if count == 1 then None else Some(count))
  }

  lemma ReadsRange(before: nat, count: nat, rest: string)
    requires rest != "" && rest[0] == ' '
    ensures var r := RangeOf(before, count);
            Range(RangeText(before, count) + rest) == Some((r.0, r.1, rest))
  {
    var start := if count == 0 then before else before + 1;
    hide NatToString;
    hide Number;
    if count == 1 {
      ReadsNumber(start, rest);
      assert rest[0] != ","[0];
    } else {
      var tail := "," + (NatToString(count) + rest);
      assert RangeText(before, count) + rest == NatToString(start) + tail;
      ReadsNumber(start, tail);
      assert tail[1..] == NatToString(count) + rest;
      ReadsNumber(count, rest);
    }
  }

  lemma ReadsAfter(prefix: string, rest: string)
    ensures After(prefix + rest, prefix) == Some(rest)
  {
    assert (prefix + rest)[..|prefix|] == prefix;
  }

  /** A hunk header is read as the position and number of its added lines. */
  lemma ReadsHunkHeader(oldBefore: nat, deleted: nat, newBefore: nat, added: nat, heading: string)
    ensures HunkHeader(HunkLine(oldBefore, deleted, newBefore, added, heading)) ==
            Some((if added == 0 then newBefore else newBefore + 1, added))
  {
    hide Range;
    hide RangeText;
    hide After;
    var s3 := " @@" + heading;
    var s2 := RangeText(newBefore, added) + s3;
    var s1 := " +" + s2;
    var s0 := RangeText(oldBefore, deleted) + s1;
    assert HunkLine(oldBefore, deleted, newBefore, added, heading) == "@@ -" + s0;
    assert " @@" <= s3;
    ReadsAfter("@@ -", s0);
    ReadsRange(oldBefore, deleted, s1);
    ReadsAfter(" +", s2);
    ReadsRange(newBefore, added, s3);
  }

  // ------------------------------------------------- positions of edits

  lemma {:induction false} InsertedMarked(file: seq<(string, bool)>, lines: seq<string>, inserted: bool)
    ensures Inserted(file + Marked(lines, inserted)) ==
            Inserted(file) + if inserted then Span(|file| + 1, |lines|) else []
  {
    var all := file + Marked(lines, inserted);
    if lines == [] {
      assert all == file;
      assert Inserted(file) + [] == Inserted(file);
    } else {
      var last := |lines| - 1;
      assert all[..|all| - 1] == file + Marked(lines[..last], inserted);
      assert all[|all| - 1] == (lines[last], inserted);
      InsertedMarked(file, lines[..last], inserted);
      assert Span(|file| + 1, |lines|) == Span(|file| + 1, last) + [|all|];
      hide Inserted;
    }
  }

  /** `xs` appended to the entry of `name`; nothing for nothing. */
  function Extend(out: Changed, name: string, xs: seq<nat>): Changed {
    if xs == [] then out else out[name := (if name in out then out[name] else []) + xs]
  }

  lemma ExtendTwice(out: Changed, name: string, xs: seq<nat>, ys: seq<nat>)
    ensures Extend(Extend(out, name, xs), name, ys) == Extend(out, name, xs + ys)
  {
    var before := if name in out then out[name] else [];
    if xs == [] {
      assert xs + ys == ys;
    } else if ys == [] {
      assert xs + ys == xs;
    } else {
      assert before + xs + ys == before + (xs + ys);
    }
  }

  lemma HunkStep(st: Reader, oldBefore: nat, deleted: nat, newBefore: nat, added: nat, heading: string)
    ensures Step(st, HunkLine(oldBefore, deleted, newBefore, added, heading)) ==
            if st.current.None? then st
            else st.(out := Extend(st.out, st.current.value, Span(newBefore + 1, added)))
  {
    var line := HunkLine(oldBefore, deleted, newBefore, added, heading);
    assert line[0] == '@';
    ReadsHunkHeader(oldBefore, deleted, newBefore, added, heading);
    hide HunkHeader;
    hide HunkLine;
    assert !("+++ " <= line);
  }

  /** No added line reads as a file header. */
  ghost predicate NoHeaderLookalike(edits: seq<Edit>) {
    forall i :: 0 <= i < |edits| && edits[i].Change? ==>
      forall j :: 0 <= j < |edits[i].added| ==> !("++ " <= edits[i].added[j])
  }

  // ------------------------------------------ which file a hunk goes to

  /** The parser's current file after the added lines of a hunk: one that
      starts with `++ ` is printed as `+++ ` and read as a file header. */
  function Aim(current: Option<string>, added: seq<string>): Option<string> {
    if added == [] then current else
      var last := added[|added| - 1];
      if "++ " <= last then Target("+" + last) else Aim(current, added[..|added| - 1])
  }

  function AimAfter(current: Option<string>, edits: seq<Edit>): Option<string> {
    if edits == [] then current else
      var before := AimAfter(current, edits[..|edits| - 1]);
      match edits[|edits| - 1]
      case Keep(_) => before
      case Change(_, added, _, _, _) => Aim(before, added)
  }

  /** Before every hunk that adds lines, the last line that starts with `+++ `
      - the file's own header, or an added line - names the file. */
  predicate Steady(current: Option<string>, edits: seq<Edit>) {
    forall k :: 0 <= k < |edits| && edits[k].Change? && edits[k].added != [] ==> AimAfter(current, edits[..k]) == current
  }

  lemma NoLookalikeIsSteady(current: Option<string>, edits: seq<Edit>)
    requires NoHeaderLookalike(edits)
    ensures Steady(current, edits)
  {
    hide Aim;
    forall k | 0 <= k <= |edits| ensures AimAfter(current, edits[..k]) == current {
      NoLookalikeAims(current, edits, k);
    }
  }

  lemma {:induction false} NoLookalikeAims(current: Option<string>, edits: seq<Edit>, k: nat)
    requires NoHeaderLookalike(edits) && k <= |edits|
    ensures AimAfter(current, edits[..k]) == current
  {
    hide Aim;
    if k > 0 {
      assert edits[..k][..k - 1] == edits[..k - 1];
      NoLookalikeAims(current, edits, k - 1);
      if edits[k - 1].Change? {
        PlainAim(current, edits[k - 1].added);
      }
    }
  }

  lemma {:induction false} PlainAim(current: Option<string>, added: seq<string>)
    requires forall j :: 0 <= j < |added| ==> !("++ " <= added[j])
    ensures Aim(current, added) == current
  {
    hide Target;
    if added != [] {
      PlainAim(current, added[..|added| - 1]);
    }
  }

  lemma PlusStep(st: Reader, line: string)
    ensures Step(st, "+" + line) == if "++ " <= line then st.(current := Target("+" + line)) else st
  {
    hide HunkHeader;
    hide Target;
    var t := "+" + line;
    assert t[0] == '+';
    if "++ " <= line {
      assert t[..4] == "+" + line[..3];
    } else {
      assert t[1..] == line;
      assert Quiet(t);
      QuietStep(st, t);
    }
  }

  lemma {:induction false} RunPlus(st: Reader, added: seq<string>)
    ensures Run(st, Prefixed('+', added)) == st.(current := Aim(st.current, added))
  {
    hide Step;
    hide Target;
    if added == [] {
      RunNothing(st);
    } else {
      var init, last := added[..|added| - 1], added[|added| - 1];
      RunPlus(st, init);
      assert Prefixed('+', added) == Prefixed('+', init) + ["+" + last];
      RunConcat(st, Prefixed('+', init), ["+" + last]);
      RunOne(Run(st, Prefixed('+', init)), "+" + last);
      PlusStep(Run(st, Prefixed('+', init)), last);
    }
  }

  lemma QuietLines(deleted: seq<string>, missing: bool)
    ensures AllQuiet(Prefixed('-', deleted)) && AllQuiet(NoEol(missing))
  {
    var minus := Prefixed('-', deleted);
    forall i | 0 <= i < |minus| ensures Quiet(minus[i]) { assert minus[i][0] == '-'; }
    assert "\\ No newline at end of file"[0] == '\\';
  }

  lemma RunChanged(st: Reader, deleted: seq<string>, added: seq<string>, oldNoEol: bool, newNoEol: bool)
    ensures Run(st, ChangedLines(deleted, added, oldNoEol, newNoEol)) == st.(current := Aim(st.current, added))
  {
    hide Run;
    hide Aim;
    hide AllQuiet;
    hide Prefixed;
    hide NoEol;
    var minus, plus := Prefixed('-', deleted), Prefixed('+', added);
    QuietLines(deleted, oldNoEol);
    QuietLines(deleted, newNoEol);
    RunConcat(st, minus + NoEol(oldNoEol), plus + NoEol(newNoEol));
    RunConcat(st, minus, NoEol(oldNoEol));
    RunQuiet(st, minus);
    RunQuiet(st, NoEol(oldNoEol));
    RunConcat(st, plus, NoEol(newNoEol));
    RunPlus(st, added);
    RunQuiet(st.(current := Aim(st.current, added)), NoEol(newNoEol));
  }

  /** What the hunks of a file add to `out`, wherever they are credited. */
  function Credited(out: Changed, current: Option<string>, edits: seq<Edit>): Changed {
    if edits == [] then out else
      var before := edits[..|edits| - 1];
      var aim := AimAfter(current, before);
      match edits[|edits| - 1]
      case Keep(_) => Credited(out, current, before)
      case Change(_, added, _, _, _) =>
        if aim.None? then Credited(out, current, before)
        else Extend(Credited(out, current, before), aim.value, Span(|NewFile(before)| + 1, |added|))
  }

  lemma {:induction false} RunHunks(st: Reader, edits: seq<Edit>)
    ensures Run(st, Hunks(edits)) == Reader(Credited(st.out, st.current, edits), AimAfter(st.current, edits))
  {
    hide Step;
    hide HunkLine;
    hide ChangedLines;
    hide NewFile;
    hide Aim;
    hide Extend;
    if edits == [] {
      RunNothing(st);
    } else {
      var before := edits[..|edits| - 1];
      var mid := Run(st, Hunks(before));
      RunHunks(st, before);
      match edits[|edits| - 1] {
        case Keep(kept) =>
          assert Hunks(before) + [] == Hunks(before);
        case Change(deleted, added, heading, oldNoEol, newNoEol) =>
          var header := HunkLine(OldLength(before), |deleted|, |NewFile(before)|, |added|, heading);
          var lines := ChangedLines(deleted, added, oldNoEol, newNoEol);
          assert Hunks(edits) == Hunks(before) + ([header] + lines);
          RunConcat(st, Hunks(before), [header] + lines);
          RunConcat(mid, [header], lines);
          RunOne(mid, header);
          HunkStep(mid, OldLength(before), |deleted|, |NewFile(before)|, |added|, heading);
          RunChanged(Step(mid, header), deleted, added, oldNoEol, newNoEol);
      }
    }
  }

  /** The positions the last edit inserts. */
  function LastSpan(edits: seq<Edit>): seq<nat>
    requires edits != []
  {
    match edits[|edits| - 1]
    case Keep(_) => []
    case Change(_, added, _, _, _) => Span(|NewFile(edits[..|edits| - 1])| + 1, |added|)
  }

  lemma InsertedLast(edits: seq<Edit>)
    requires edits != []
    ensures Inserted(NewFile(edits)) == Inserted(NewFile(edits[..|edits| - 1])) + LastSpan(edits)
  {
    hide Inserted;
    hide Marked;
    hide NewFile;
    var before := NewFile(edits[..|edits| - 1]);
    NewFileLast(edits);
    match edits[|edits| - 1] {
      case Keep(kept) => InsertedMarked(before, kept, false);
      case Change(_, added, _, _, _) => InsertedMarked(before, added, true);
    }
  }

  lemma NewFileLast(edits: seq<Edit>)
    requires edits != []
    ensures NewFile(edits) == NewFile(edits[..|edits| - 1]) +
            match edits[|edits| - 1]
            case Keep(kept) => Marked(kept, false)
            case Change(_, added, _, _, _) => Marked(added, true)
  {
    hide Marked;
  }

  lemma CreditedLast(out: Changed, current: Option<string>, edits: seq<Edit>)
    requires edits != []
    ensures var before := edits[..|edits| - 1];
            var aim := AimAfter(current, before);
            Credited(out, current, edits) ==
            if aim.None? then Credited(out, current, before)
            else Extend(Credited(out, current, before), aim.value, LastSpan(edits))
  {
    hide AimAfter;
    hide NewFile;
  }

  lemma SteadyLast(current: Option<string>, edits: seq<Edit>)
    requires edits != []
    ensures var before := edits[..|edits| - 1];
            Steady(current, edits) <==>
            Steady(current, before) && (LastSpan(edits) == [] || AimAfter(current, before) == current)
  {
    hide AimAfter;
    hide NewFile;
    var last := |edits| - 1;
    var before := edits[..last];
    assert forall k :: 0 <= k < last ==> before[k] == edits[k] && before[..k] == edits[..k];
    if Steady(current, before) && (LastSpan(edits) == [] || AimAfter(current, before) == current) {
      forall k | 0 <= k <= last && edits[k].Change? && edits[k].added != [] ensures AimAfter(current, edits[..k]) == current {
        if k < last {
          assert before[k].added != [];
        } else {
          assert |LastSpan(edits)| == |edits[k].added|;
        }
      }
    }
  }

  /** Credited to the file itself, the hunks add exactly the positions of its inserted lines. */
  lemma {:induction false} SteadyCredits(out: Changed, current: Option<string>, edits: seq<Edit>)
    requires Steady(current, edits)
    ensures Credited(out, current, edits) ==
            if current.None? then out else Extend(out, current.value, Inserted(NewFile(edits)))
  {
    hide *;
    if edits == [] {
      NothingCredited(out, current);
    } else {
      var before := edits[..|edits| - 1];
      SteadyLast(current, edits);
      CreditedLast(out, current, edits);
      InsertedLast(edits);
      SteadyCredits(out, current, before);
      var aim, positions := AimAfter(current, before), Inserted(NewFile(before));
      if aim.Some? {
        ExtendNothing(Credited(out, current, before), aim.value);
      }
      if current.Some? {
        ExtendTwice(out, current.value, positions, LastSpan(edits));
      }
      assert LastSpan(edits) == [] ==> positions + LastSpan(edits) == positions;
    }
  }

  lemma ExtendNothing(out: Changed, name: string)
    ensures Extend(out, name, []) == out
  {
  }

  lemma NothingCredited(out: Changed, current: Option<string>)
    ensures Credited(out, current, []) == out
    ensures current.Some? ==> Extend(out, current.value, Inserted(NewFile([]))) == out
  {
  }

  // --------------------------------------------------------- whole diffs

  /** A name git prints unquoted: not empty and without white space at its end. */
  ghost predicate PlainName(name: string) {
    name != "" && !IsSpace(name[|name| - 1])
  }

  /** The file the hunks of `f` belong to; none when it is removed. */
  function Named(f: FileEdit): Option<string> {
    if f.removed then None else Some(f.name)
  }

  ghost predicate WellFormedFile(f: FileEdit) {
    PlainName(f.name) && AllQuiet(f.preamble) && Steady(Named(f), f.edits)
  }

  ghost predicate WellFormed(files: seq<FileEdit>) {
    && (forall i :: 0 <= i < |files| ==> WellFormedFile(files[i]))
    && (forall i, j :: 0 <= i < j < |files| ==> files[i].name != files[j].name)
  }

  function HeaderLine(f: FileEdit): string {
    "+++ " + if f.removed then "/dev/null" else "b/" + f.name
  }

  lemma HeaderStep(st: Reader, f: FileEdit)
    requires PlainName(f.name)
    ensures Step(st, HeaderLine(f)) == st.(current := Named(f))
  {
    var rest := if f.removed then "/dev/null" else "b/" + f.name;
    assert HeaderLine(f)[4..] == rest;
    if f.removed {
      TrimmedIsKept(rest);
    } else {
      assert rest[|rest| - 1] == f.name[|f.name| - 1];
      TrimmedIsKept(rest);
      assert rest[2..] == f.name;
      assert rest[0] != "/dev/null"[0];
    }
    hide Trim;
  }

  lemma FileShape(f: FileEdit)
    ensures FileLines(f) == f.preamble + ([HeaderLine(f)] + Hunks(f.edits))
  {
    hide Hunks;
  }

  lemma RunFile(st: Reader, f: FileEdit)
    requires PlainName(f.name) && AllQuiet(f.preamble)
    ensures Run(st, FileLines(f)).out == Credited(st.out, Named(f), f.edits)
  {
    hide *;
    FileShape(f);
    RunQuiet(st, f.preamble);
    RunConcat(st, f.preamble, [HeaderLine(f)] + Hunks(f.edits));
    RunConcat(st, [HeaderLine(f)], Hunks(f.edits));
    RunOne(st, HeaderLine(f));
    HeaderStep(st, f);
    RunHunks(Step(st, HeaderLine(f)), f.edits);
  }

  lemma {:induction false} ExpectedNames(files: seq<FileEdit>, name: string)
    requires forall i :: 0 <= i < |files| ==> files[i].name != name
    ensures name !in Expected(files)
  {
    if files != [] {
      ExpectedNames(files[..|files| - 1], name);
    }
  }

  lemma {:induction false} RunFiles(files: seq<FileEdit>)
    requires WellFormed(files)
    ensures Run(START, DiffLines(files)).out == Expected(files)
  {
    hide Step;
    hide FileLines;
    hide Inserted;
    hide AllQuiet;
    hide Steady;
    hide PlainName;
    hide Credited;
    if files != [] {
      var last := |files| - 1;
      RunFiles(files[..last]);
      RunConcat(START, DiffLines(files[..last]), FileLines(files[last]));
      assert WellFormedFile(files[last]);
      RunFile(Run(START, DiffLines(files[..last])), files[last]);
      SteadyCredits(Run(START, DiffLines(files[..last])).out, Named(files[last]), files[last].edits);
      ExpectedNames(files[..last], files[last].name);
      assert [] + Inserted(NewFile(files[last].edits)) == Inserted(NewFile(files[last].edits));
    }
  }

  lemma ParsesLines(files: seq<FileEdit>)
    requires OneLiners(DiffLines(files))
    ensures Parse(Render(files)) == Run(START, DiffLines(files)).out
  {
    hide Step;
    hide Terminated;
    hide DiffLines;
    var lines := DiffLines(files);
    assert Terminated(lines) + "" == Terminated(lines);
    SplitTerminated(lines, "");
    assert Split("", '\n') == [""];
    RunConcat(START, lines, [""]);
    RunOne(Run(START, lines), "");
    QuietStep(Run(START, lines), "");
  }

  /** For every edit script, rendered as a zero-context diff, the parser
      answers per file exactly the new-file positions of the inserted lines,
      and leaves files without inserted lines out. */
  lemma ParsesEdits(files: seq<FileEdit>)
    requires WellFormed(files) && OneLiners(DiffLines(files))
    ensures Parse(Render(files)) == Expected(files)
  {
    hide *;
    ParsesLines(files);
    RunFiles(files);
  }

  function Size(out: Changed, name: string): nat {
    if name in out then |out[name]| else 0
  }

  lemma ExtendSize(out: Changed, name: string, xs: seq<nat>, other: string)
    ensures Size(Extend(out, name, xs), other) == Size(out, other) + if name == other then |xs| else 0
    ensures Extend(out, name, xs) == map[] <==> out == map[] && xs == []
  {
    if xs != [] {
      assert name in Extend(out, name, xs);
    }
  }

  /** Credited elsewhere, some positions are missing under the file's own name. */
  lemma {:induction false} CreditedSize(name: string, edits: seq<Edit>)
    ensures Size(Credited(map[], Some(name), edits), name) <= |Inserted(NewFile(edits))|
    ensures Size(Credited(map[], Some(name), edits), name) == |Inserted(NewFile(edits))| ==> Steady(Some(name), edits)
  {
    hide *;
    if edits == [] {
      NothingSteady(Some(name));
    } else {
      var before := edits[..|edits| - 1];
      CreditedSize(name, before);
      SteadyLast(Some(name), edits);
      CreditedLast(map[], Some(name), edits);
      InsertedLast(edits);
      var aim := AimAfter(Some(name), before);
      if aim.Some? {
        ExtendSize(Credited(map[], Some(name), before), aim.value, LastSpan(edits), name);
      }
    }
  }

  lemma NothingSteady(current: Option<string>)
    ensures Steady(current, []) && Credited(map[], current, []) == map[]
    ensures current.Some? ==> Size(map[], current.value) == 0
  {
  }

  /** For a removed file nothing should be credited at all. */
  lemma {:induction false} CreditedNothing(edits: seq<Edit>)
    ensures Credited(map[], None, edits) == map[] ==> Steady(None, edits)
  {
    hide *;
    if edits == [] {
      NothingSteady(None);
    } else {
      var before := edits[..|edits| - 1];
      CreditedNothing(before);
      SteadyLast(None, edits);
      CreditedLast(map[], None, edits);
      var aim := AimAfter(None, before);
      if aim.Some? {
        ExtendSize(Credited(map[], None, before), aim.value, LastSpan(edits), aim.value);
      }
    }
  }

  /** The diff of one file is read right exactly when, before every hunk that
      adds lines, the last line that starts with `+++ ` names the file. */
  lemma ParsesFileIff(f: FileEdit)
    requires PlainName(f.name) && AllQuiet(f.preamble) && OneLiners(DiffLines([f]))
    ensures Parse(Render([f])) == Expected([f]) <==> Steady(Named(f), f.edits)
  {
    hide *;
    SingleFile(f);
    if Steady(Named(f), f.edits) {
      SteadyCredits(map[], Named(f), f.edits);
      ExpectedSingle(f);
    } else {
      ExpectedSingle(f);
      if f.removed {
        CreditedNothing(f.edits);
      } else {
        CreditedSize(f.name, f.edits);
      }
    }
  }

  lemma ExpectedSingle(f: FileEdit)
    ensures Expected([f]) == match Named(f) case None => map[] case Some(name) => Extend(map[], name, Inserted(NewFile(f.edits)))
    ensures !f.removed ==> Size(Expected([f]), f.name) == |Inserted(NewFile(f.edits))|
    ensures f.removed ==> Named(f) == None
    ensures !f.removed ==> Named(f) == Some(f.name)
  {
    hide Inserted;
    hide NewFile;
    assert [f][..0] == [];
    var xs := Inserted(NewFile(f.edits));
    assert [] + xs == xs;
  }

  lemma SingleFile(f: FileEdit)
    requires PlainName(f.name) && AllQuiet(f.preamble) && OneLiners(DiffLines([f]))
    ensures Parse(Render([f])) == Credited(map[], Named(f), f.edits)
  {
    hide *;
    ParsesLines([f]);
    SingleLines(f);
    RunFile(START, f);
  }

  lemma SingleLines(f: FileEdit)
    ensures DiffLines([f]) == FileLines(f) && START.out == map[]
  {
    hide FileLines;
    assert [f][..0] == [];
    assert [] + FileLines(f) == FileLines(f);
  }

  /** The expected positions are the marked ones, in increasing order. */
  lemma {:induction false} InsertedExactly(file: seq<(string, bool)>)
    ensures forall p :: p in Inserted(file) <==> 1 <= p <= |file| && file[p - 1].1
    ensures forall i, j :: 0 <= i < j < |Inserted(file)| ==> Inserted(file)[i] < Inserted(file)[j]
  {
    if file != [] {
      var n := |file|;
      InsertedExactly(file[..n - 1]);
      var rest := Inserted(file[..n - 1]);
      assert forall i :: 0 <= i < |rest| ==> rest[i] in rest;
    }
  }

  /** A new line `++ x`, a kept line and a new line `y`. */
  function LookalikeEdits(): seq<Edit> {
    [Change([], ["++ x"], "", false, false), Keep(["k"]), Change([], ["y"], "", false, false)]
  }

  lemma LookalikeHunks()
    ensures Hunks(LookalikeEdits()) == [HunkLine(0, 0, 0, 1, ""), "+++ x"] + [HunkLine(1, 0, 2, 1, ""), "+y"]
    ensures NewFile(LookalikeEdits()) == [("++ x", true), ("k", false), ("y", true)]
  {
    hide HunkLine;
    var e := LookalikeEdits();
    var e1, e2 := e[..1], e[..2];
    assert e2[..1] == e1 && e1[..0] == [];
    assert ['+'] + "++ x" == "+++ x" && ['+'] + "y" == "+y";
    assert Prefixed('+', ["++ x"]) == ["+++ x"] && Prefixed('+', ["y"]) == ["+y"] && Prefixed('-', []) == [];
    assert ChangedLines([], ["++ x"], false, false) == ["+++ x"];
    assert ChangedLines([], ["y"], false, false) == ["+y"];
    assert NewFile(e1) == [("++ x", true)];
    assert NewFile(e2) == [("++ x", true), ("k", false)];
    assert OldLength(e1) == 0 && OldLength(e2) == 1;
    assert Hunks(e1) == [HunkLine(0, 0, 0, 1, ""), "+++ x"];
    assert Hunks(e2) == [HunkLine(0, 0, 0, 1, ""), "+++ x"];
  }

  /** Why lookalikes are excluded: an added line reading `++ x` is taken for a
      file header, and the next hunk is credited to `x`. */
  lemma LookalikeMisleads()
    ensures Run(Reader(map[], Some("a")), Hunks(LookalikeEdits())).out == map["a" := [1], "x" := [3]]
    ensures Inserted(NewFile(LookalikeEdits())) == [1, 3]
  {
    hide *;
    LookalikeHunks();
    LookalikePositions();
    var h0, h1 := HunkLine(0, 0, 0, 1, ""), HunkLine(1, 0, 2, 1, "");
    var s0 := Reader(map[], Some("a"));
    var s1 := Reader(map["a" := [1]], Some("a"));
    var s2 := Reader(map["a" := [1]], Some("x"));
    var s3 := Reader(map["a" := [1], "x" := [3]], Some("x"));
    OneLineHunk(s0, 0, 0, "a");
    LookalikeStep(s1);
    RunPair(s0, h0, "+++ x");
    OneLineHunk(s2, 1, 2, "x");
    assert s2.out["x" := [3]] == s3.out;
    PlusIsQuiet(s3);
    RunPair(s2, h1, "+y");
    RunConcat(s0, [h0, "+++ x"], [h1, "+y"]);
  }

  lemma LookalikePositions()
    ensures Inserted([("++ x", true), ("k", false), ("y", true)]) == [1, 3]
  {
    var file := [("++ x", true), ("k", false), ("y", true)];
    assert file[..2][..1][..0] == [];
    assert Inserted(file[..2][..1]) == [1];
    assert Inserted(file[..2]) == [1];
  }

  lemma OneLineHunk(st: Reader, oldBefore: nat, newBefore: nat, name: string)
    requires st.current == Some(name) && name !in st.out
    ensures Step(st, HunkLine(oldBefore, 0, newBefore, 1, "")) == st.(out := st.out[name := [newBefore + 1]])
  {
    hide Step;
    hide HunkLine;
    HunkStep(st, oldBefore, 0, newBefore, 1, "");
    assert Span(newBefore + 1, 1) == [newBefore + 1];
    assert [] + Span(newBefore + 1, 1) == [newBefore + 1];
  }

  lemma PlusIsQuiet(st: Reader)
    ensures Step(st, "+y") == st
  {
  }

  lemma RunPair(st: Reader, a: string, b: string)
    ensures Run(st, [a, b]) == Step(Step(st, a), b)
  {
    hide *;
    assert [a, b] == [a] + [b];
    RunConcat(st, [a], [b]);
    RunOne(st, a);
    RunOne(Step(st, a), b);
  }

  lemma LookalikeStep(st: Reader)
    ensures Step(st, "+++ x") == st.(current := Some("x"))
  {
    assert "+++ x"[4..] == "x";
    TrimmedIsKept("x");
  }
}
