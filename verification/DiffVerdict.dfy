/** `scripts/coverage-diff-gate.ts`: what the diff reader takes from any text
    at all, whether or not a diff tool wrote it. */
module DiffVerdict {
  import opened Text
  import opened DiffParse

  // -------------------------------------------------------- the header line

  /** `d` or `d,n`, both of them digits. */
  ghost predicate SpellsRange(s: string, d: string, n: Option<string>) {
    && d != "" && AllDigits(d)
    && match n
       case None => s == d
       case Some(digits) => digits != "" && AllDigits(digits) && s == d + "," + digits
  }

  /** `@@ -range +d,n @@` and anything after it. */
  ghost predicate SpellsHunk(line: string, from: string, to: string, d: string, n: Option<string>, rest: string) {
    && line == "@@ -" + (from + (" +" + (to + (" @@" + rest))))
    && (exists a, b :: SpellsRange(from, a, b)) && SpellsRange(to, d, n)
  }

  /** The line announces `count` lines of the new file from `start` on; a
      count left out is 1. */
  ghost predicate Announces(line: string, start: nat, count: nat) {
    exists from, to, d, n, rest ::
      SpellsHunk(line, from, to, d, n, rest) && start == NatValue(d) && count == match n case None => 1 case Some(c) => NatValue(c)
  }

  lemma SpelledRange(s: string, d: string, n: Option<string>, rest: string)
    requires SpellsRange(s, d, n) && rest != "" && rest[0] == ' '
    ensures Range(s + rest) == Some((NatValue(d), if n.None? then None else Some(NatValue(n.value)), rest))
  {
    match n
    case None =>
      DigitRunOf(d, rest);
      assert (s + rest)[|d|..] == rest;
    case Some(digits) =>
      var tail := "," + digits + rest;
      assert s + rest == d + tail;
      DigitRunOf(d, tail);
      assert (d + tail)[|d|..] == tail && tail[1..] == digits + rest;
      DigitRunOf(digits, rest);
      assert (digits + rest)[|digits|..] == rest;
  }

  lemma NumberSpelled(s: string) returns (d: string)
    requires Number(s).Some?
    ensures d != "" && AllDigits(d) && Number(s).value.0 == NatValue(d) && s == d + Number(s).value.1
  {
    d := DigitRun(s);
  }

  lemma RangeSpelled(s: string) returns (text: string, d: string, n: Option<string>)
    requires Range(s).Some?
    ensures s == text + Range(s).value.2 && SpellsRange(text, d, n)
    ensures Range(s).value.0 == NatValue(d)
    ensures Range(s).value.1 == if n.None? then None else Some(NatValue(n.value))
  {
    hide Number;
    hide NatValue;
    hide AllDigits;
    d := NumberSpelled(s);
    var rest := Number(s).value.1;
    if "," <= rest && Number(rest[1..]).Some? {
      var c := NumberSpelled(rest[1..]);
      n, text := Some(c), d + "," + c;
      assert rest == "," + rest[1..];
      assert s == text + Number(rest[1..]).value.1;
    } else {
      n, text := None, d;
    }
  }

  /** Exactly the lines spelled so are taken for hunk headers. */
  lemma HunkHeaderIff(line: string, start: nat, count: nat)
    ensures HunkHeader(line) == Some((start, count)) <==> Announces(line, start, count)
  {
    if HunkHeader(line) == Some((start, count)) {
      HeaderSpelled(line);
    }
    if Announces(line, start, count) {
      var from, to, d, n, rest :| SpellsHunk(line, from, to, d, n, rest)
        && start == NatValue(d) && count == match n case None => 1 case Some(c) => NatValue(c);
      SpelledHeader(line, from, to, d, n, rest);
    }
  }

  lemma SpelledHeader(line: string, from: string, to: string, d: string, n: Option<string>, rest: string)
    requires SpellsHunk(line, from, to, d, n, rest)
    ensures HunkHeader(line) == Some((NatValue(d), match n case None => 1 case Some(c) => NatValue(c)))
  {
    hide Range;
    hide SpellsRange;
    var a, b :| SpellsRange(from, a, b);
    var s3 := " @@" + rest;
    var s2 := " +" + (to + s3);
    var s1 := from + s2;
    assert line[4..] == s1 && line[..4] == "@@ -";
    SpelledRange(from, a, b, s2);
    assert s2[2..] == to + s3 && s2[..2] == " +";
    SpelledRange(to, d, n, s3);
    assert s3[..3] == " @@";
  }

  lemma HeaderSpelled(line: string)
    requires HunkHeader(line).Some?
    ensures Announces(line, HunkHeader(line).value.0, HunkHeader(line).value.1)
  {
    hide Range;
    hide SpellsRange;
    var s1 := After(line, "@@ -").value;
    assert line == "@@ -" + s1;
    var from, a, b := RangeSpelled(s1);
    var s2 := Range(s1).value.2;
    var s := After(s2, " +").value;
    assert s2 == " +" + s;
    var to, d, n := RangeSpelled(s);
    var s3 := Range(s).value.2;
    assert s3 == " @@" + s3[3..];
    assert SpellsHunk(line, from, to, d, n, s3[3..]);
  }

  // ------------------------------------------------------------ every text

  ghost predicate NamesFile(line: string) { "+++ " <= line }

  /** The name after `+++ `, its blanks trimmed and one leading `b/` dropped;
      no file for `/dev/null` and for no name. */
  ghost predicate Names(line: string, file: string) {
    && NamesFile(line) && file != "" && Trim(line[4..]) != "/dev/null"
    && (Trim(line[4..]) == "b/" + file || (Trim(line[4..]) == file && !("b/" <= file)))
  }

  lemma TargetIff(line: string, file: string)
    requires NamesFile(line)
    ensures Target(line) == Some(file) <==> Names(line, file)
  {
    hide Trim;
    var p := Trim(line[4..]);
    if "b/" <= p { assert p == "b/" + p[2..]; }
    if p == "b/" + file { assert p[2..] == file && p[..2] == "b/"; }
  }

  /** Line `i` is read under `file`: the last `+++ ` line before it names it. */
  ghost predicate Under(lines: seq<string>, i: nat, file: string)
    requires i <= |lines|
  {
    exists j :: 0 <= j < i && Names(lines[j], file) && forall k :: j < k < i ==> !NamesFile(lines[k])
  }

  /** Line `i` puts its numbers under `file`. */
  ghost predicate Gives(lines: seq<string>, i: nat, file: string)
    requires i < |lines|
  {
    Under(lines, i, file) && !NamesFile(lines[i]) && HunkHeader(lines[i]).Some? && HunkHeader(lines[i]).value.1 > 0
  }

  /** The numbers put under `file` by the first `n` lines, in order. */
  ghost function Given(lines: seq<string>, n: nat, file: string): seq<nat>
    requires n <= |lines|
  {
    if n == 0 then [] else
      Given(lines, n - 1, file) +
      if Gives(lines, n - 1, file) then Span(HunkHeader(lines[n - 1]).value.0, HunkHeader(lines[n - 1]).value.1) else []
  }

  lemma UnderNext(lines: seq<string>, i: nat, n: nat, file: string)
    requires i + 1 == n <= |lines|
    ensures Under(lines, n, file) <==> if NamesFile(lines[i]) then Names(lines[i], file) else Under(lines, i, file)
  {
    hide Names;
    if Under(lines, n, file) {
      var j :| 0 <= j < n && Names(lines[j], file) && forall k :: j < k < n ==> !NamesFile(lines[k]);
      assert j < i ==> !NamesFile(lines[i]);
      assert forall k :: j < k < i ==> !NamesFile(lines[k]);
      NamesAFile(lines[j], file);
    } else if !NamesFile(lines[i]) && Under(lines, i, file) {
      var j :| 0 <= j < i && Names(lines[j], file) && forall k :: j < k < i ==> !NamesFile(lines[k]);
      assert forall k :: j < k < n ==> !NamesFile(lines[k]);
    }
  }

  lemma NamesAFile(line: string, file: string)
    requires Names(line, file)
    ensures NamesFile(line)
  {
  }

  /** The reader after `n` lines, as the lines tell it. */
  ghost predicate Tells(st: Reader, lines: seq<string>, n: nat)
    requires n <= |lines|
  {
    && (forall file :: st.current == Some(file) <==> Under(lines, n, file))
    && (forall file :: Listed(st.out, file) == Given(lines, n, file))
    && (forall file :: file in st.out ==> st.out[file] != [])
  }

  lemma CurrentNext(st: Reader, lines: seq<string>, i: nat, n: nat, file: string)
    requires i + 1 == n <= |lines| && (st.current == Some(file) <==> Under(lines, i, file))
    ensures Step(st, lines[i]).current == Some(file) <==> Under(lines, n, file)
  {
    hide HunkHeader;
    hide Names;
    hide Under;
    hide Target;
    UnderNext(lines, i, n, file);
    if NamesFile(lines[i]) { TargetIff(lines[i], file); }
  }

  function Listed(out: Changed, file: string): seq<nat> {
    if file in out then out[file] else []
  }

  lemma GivenNext(st: Reader, lines: seq<string>, i: nat, n: nat, file: string)
    requires i + 1 == n <= |lines| && (st.current == Some(file) <==> Under(lines, i, file))
    requires Listed(st.out, file) == Given(lines, i, file)
    ensures Listed(Step(st, lines[i]).out, file) == Given(lines, n, file)
  {
    hide HunkHeader;
    hide Under;
    hide Target;
    var given := Given(lines, i, file);
    assert given + [] == given;
  }

  lemma NoneEmpty(st: Reader, line: string)
    requires forall file :: file in st.out ==> st.out[file] != []
    ensures forall file :: file in Step(st, line).out ==> Step(st, line).out[file] != []
  {
    hide HunkHeader;
    hide Target;
  }

  lemma TellsNext(st: Reader, lines: seq<string>, i: nat, n: nat)
    requires i + 1 == n <= |lines| && Tells(st, lines, i)
    ensures Tells(Step(st, lines[i]), lines, n)
  {
    hide Step;
    forall file ensures Step(st, lines[i]).current == Some(file) <==> Under(lines, n, file) {
      CurrentNext(st, lines, i, n, file);
    }
    forall file ensures Listed(Step(st, lines[i]).out, file) == Given(lines, n, file) {
      assert Listed(st.out, file) == Given(lines, i, file);
      GivenNext(st, lines, i, n, file);
    }
    NoneEmpty(st, lines[i]);
  }

  lemma NothingTold(lines: seq<string>)
    ensures Tells(START, lines, 0)
  {
  }

  lemma {:induction false} RunTells(lines: seq<string>, n: nat)
    requires n <= |lines|
    ensures Tells(Run(START, lines[..n]), lines, n)
  {
    hide Tells;
    hide Step;
    if n == 0 {
      NothingTold(lines);
    } else {
      RunTells(lines, n - 1);
      assert lines[..n][..n - 1] == lines[..n - 1];
      TellsNext(Run(START, lines[..n - 1]), lines, n - 1, n);
    }
  }

  /** Any text is read so: each hunk header puts its span of line numbers under
      the file the last `+++ ` line names, and nothing else puts any. */
  lemma ParsesAnyText(text: string, file: string)
    ensures var lines, out := Split(text, '\n'), Parse(text);
            && (file in out <==> Given(lines, |lines|, file) != [])
            && (file in out ==> out[file] == Given(lines, |lines|, file))
  {
    hide Run;
    hide Split;
    hide Given;
    var lines := Split(text, '\n');
    assert lines[..|lines|] == lines;
    RunTells(lines, |lines|);
  }
}
