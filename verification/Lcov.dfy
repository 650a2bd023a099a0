/** `scripts/merge-lcov.ts`: the line-oriented lcov parser. */
module Lcov {
  import opened Text

  /** One SF..end_of_record block: `da` holds (line, hits), `fn` (line, name)
      and `fnda` (hits, name), each in file order. */
  datatype Record = Record(sf: string, da: seq<(int, int)>, fn: seq<(int, string)>, fnda: seq<(int, string)>)

  datatype Fault =
    | EndWithoutSf | NoColon | NestedSf | EmptyPath
    | OutsideRecord(kind: string) | BadNumber(kind: string)

  datatype Warning = UnknownType(kind: string) | Malformed(line: nat, fault: Fault) | Truncated

  datatype ParseResult = ParseResult(records: seq<Record>, warnings: seq<Warning>, malformed: bool)

  const END_OF_RECORD := "end_of_record"
  const KNOWN_RECOMPUTED := {"TN", "FNF", "FNH", "LF", "LH"}

  /** The parser between two lines. */
  datatype Parser =
    | Running(records: seq<Record>, current: Option<Record>, warnings: seq<Warning>, warned: set<string>)
    | Failed(warnings: seq<Warning>)

  const START := Running([], None, [], {})

  /** One carriage return before the newline belongs to the line end. */
  function StripCr(raw: string): string {
    if EndsWith(raw, "\r") then raw[..|raw| - 1] else raw
  }

  function Fail(st: Parser, no: nat, fault: Fault): Parser {
    Failed(st.warnings + [Malformed(no, fault)])
  }

  /** `number[,name]`: the text before the first comma, and after it. */
  function BeforeComma(rest: string): string {
    var comma := IndexOf(rest, ',');
    if comma < 0 then rest else rest[..comma]
  }

  function AfterComma(rest: string): string {
    var comma := IndexOf(rest, ',');
    if comma < 0 then "" else rest[comma + 1..]
  }

  /** The DA fields: line and hits, both of them numbers. */
  function ReadDa(rest: string): Option<(int, int)> {
    var parts := Split(rest, ',');
    var ln := ReadNumber(parts[0]);
    var hits := if |parts| < 2 then None else ReadNumber(parts[1]);
    if ln.None? || hits.None? then None else Some((ln.value, hits.value))
  }

  /** A line inside or outside a record that is neither blank nor the end marker. */
  function StepField(st: Parser, kind: string, rest: string, no: nat): Parser
    requires st.Running?
  {
    if kind == "SF" then
      if st.current.Some? then Fail(st, no, NestedSf)
      else if Trim(rest) == "" then Fail(st, no, EmptyPath)
      else st.(current := Some(Record(Trim(rest), [], [], [])))
    else if kind in KNOWN_RECOMPUTED then st
    else if kind in {"DA", "FN", "FNDA"} then
      if st.current.None? then Fail(st, no, OutsideRecord(kind))
      else
        var cur := st.current.value;
        if kind == "DA" then
          var da := ReadDa(rest);
          if da.None? then Fail(st, no, BadNumber(kind))
          else st.(current := Some(cur.(da := cur.da + [da.value])))
        else
          var num := ReadNumber(BeforeComma(rest));
          if num.None? then Fail(st, no, BadNumber(kind))
          else if kind == "FN" then st.(current := Some(cur.(fn := cur.fn + [(num.value, AfterComma(rest))])))
          else st.(current := Some(cur.(fnda := cur.fnda + [(num.value, AfterComma(rest))])))
    else if kind in st.warned then st
    else st.(warned := st.warned + {kind}, warnings := st.warnings + [UnknownType(kind)])
  }

  /** One line, its carriage return removed. */
  function StepLine(st: Parser, line: string, no: nat): Parser
    requires st.Running?
  {
    if Trim(line) == "" then st
    else if line == END_OF_RECORD then
      if st.current.None? then Fail(st, no, EndWithoutSf)
      else st.(records := st.records + [st.current.value], current := None)
    else
      var colon := IndexOf(line, ':');
      if colon < 0 then Fail(st, no, NoColon)
      else StepField(st, line[..colon], line[colon + 1..], no)
  }

  function Step(st: Parser, raw: string, no: nat): Parser {
    if st.Failed? then st else StepLine(st, StripCr(raw), no)
  }

  /** The lines, the first of them numbered `no`. */
  function Run(st: Parser, lines: seq<string>, no: nat): Parser {
    if lines == [] then st else
      var last := |lines| - 1;
      Step(Run(st, lines[..last], no), lines[last], no + last)
  }

  /** All or nothing: a fault anywhere, or a record left open, discards every record. */
  function Finish(st: Parser): ParseResult {
    if st.Failed? then ParseResult([], st.warnings, true)
    else if st.current.Some? then ParseResult([], st.warnings + [Truncated], true)
    else ParseResult(st.records, st.warnings, false)
  }

  function Parse(text: string): ParseResult {
    Finish(Run(START, Split(text, '\n'), 1))
  }

  lemma RunLine(st: Parser, lines: seq<string>, i: nat, no: nat)
    requires i < |lines|
    ensures Run(st, lines[..i + 1], no) == Step(Run(st, lines[..i], no), lines[i], no + i)
  {
    hide Step;
    assert lines[..i + 1][..i] == lines[..i];
  }

  /** After a fault the rest of the text changes nothing. */
  lemma {:induction false} FailedStays(st: Parser, lines: seq<string>, i: nat, j: nat, no: nat)
    requires i <= j <= |lines| && Run(st, lines[..i], no).Failed?
    ensures Run(st, lines[..j], no) == Run(st, lines[..i], no)
    decreases j
  {
    hide Run;
    if i < j {
      RunLine(st, lines, j - 1, no);
      FailedStays(st, lines, i, j - 1, no);
    }
  }

  lemma RunNothing(st: Parser, no: nat)
    ensures Run(st, [], no) == st
  {
  }

  /** The parsing loop: the first fault answers at once. */
  method ParseLcovText(text: string) returns (r: ParseResult)
    ensures r == Parse(text)
  {
    hide Run;
    hide Trim;
    hide StripCr;
    hide ReadDa;
    hide ReadNumber;
    hide BeforeComma;
    hide AfterComma;
    hide IndexOf;
    RunNothing(START, 1);
    var records: seq<Record> := [];
    var current: Option<Record> := None;
    var warnings: seq<Warning> := [];
    var warnedTypes: set<string> := {};
    var lines := Split(text, '\n');
    for i := 0 to |lines|
      invariant Run(START, lines[..i], 1) == Running(records, current, warnings, warnedTypes)
    {
      RunLine(START, lines, i, 1);
      if Run(START, lines[..i + 1], 1).Failed? {
        FailedStays(START, lines, i + 1, |lines|, 1);
      }
      assert lines[..|lines|] == lines;
      var line := StripCr(lines[i]);
      if Trim(line) == "" {
        continue;
      }
      if line == END_OF_RECORD {
        if current.None? {
          return ParseResult([], warnings + [Malformed(i + 1, EndWithoutSf)], true);
        }
        records := records + [current.value];
        current := None;
        continue;
      }
      var colon := IndexOf(line, ':');
      if colon < 0 {
        return ParseResult([], warnings + [Malformed(i + 1, NoColon)], true);
      }
      var kind := line[..colon];
      var rest := line[colon + 1..];
      if kind == "SF" {
        if current.Some? {
          return ParseResult([], warnings + [Malformed(i + 1, NestedSf)], true);
        }
        if Trim(rest) == "" {
          return ParseResult([], warnings + [Malformed(i + 1, EmptyPath)], true);
        }
        current := Some(Record(Trim(rest), [], [], []));
        continue;
      }
      if kind in KNOWN_RECOMPUTED {
        continue;
      }
      if kind == "DA" {
        if current.None? {
          return ParseResult([], warnings + [Malformed(i + 1, OutsideRecord(kind))], true);
        }
        var da := ReadDa(rest);
        if da.None? {
          return ParseResult([], warnings + [Malformed(i + 1, BadNumber(kind))], true);
        }
        current := Some(current.value.(da := current.value.da + [da.value]));
        continue;
      }
      if kind == "FN" || kind == "FNDA" {
        if current.None? {
          return ParseResult([], warnings + [Malformed(i + 1, OutsideRecord(kind))], true);
        }
        var num := ReadNumber(BeforeComma(rest));
        if num.None? {
          return ParseResult([], warnings + [Malformed(i + 1, BadNumber(kind))], true);
        }
        if kind == "FN" {
          current := Some(current.value.(fn := current.value.fn + [(num.value, AfterComma(rest))]));
        } else {
          current := Some(current.value.(fnda := current.value.fnda + [(num.value, AfterComma(rest))]));
        }
        continue;
      }
      if kind !in warnedTypes {
        warnedTypes := warnedTypes + {kind};
        warnings := warnings + [UnknownType(kind)];
      }
    }
    assert lines[..|lines|] == lines;
    if current.Some? {
      return ParseResult([], warnings + [Truncated], true);
    }
    return ParseResult(records, warnings, false);
  }

  // -------------------------------------------------- laws of the parser

  lemma {:induction false} RunConcat(st: Parser, a: seq<string>, b: seq<string>, no: nat)
    ensures Run(st, a + b, no) == Run(Run(st, a, no), b, no + |a|)
    decreases |b|
  {
    hide Step;
    var ab := a + b;
    if b == [] {
      assert ab == a;
    } else {
      var last := |b| - 1;
      assert ab[..|ab| - 1] == a + b[..last] && ab[|ab| - 1] == b[last];
      RunConcat(st, a, b[..last], no);
    }
  }

  lemma RunThen(st: Parser, a: seq<string>, mid: Parser, b: seq<string>, end: Parser, no: nat)
    requires Run(st, a, no) == mid && Run(mid, b, no + |a|) == end
    ensures Run(st, a + b, no) == end
  {
    hide *;
    RunConcat(st, a, b, no);
  }

  lemma RunOne(st: Parser, a: string, no: nat)
    ensures Run(st, [a], no) == Step(st, a, no)
  {
    hide Step;
    assert [a][..0] == [];
  }

  lemma RunLast(st: Parser, lines: seq<string>, no: nat)
    requires lines != []
    ensures var last := |lines| - 1;
            Run(st, lines, no) == Step(Run(st, lines[..last], no), lines[last], no + last)
  {
  }

  /** Malformed input never contributes a record. */
  lemma MalformedHasNoRecords(text: string)
    ensures Parse(text).malformed ==> Parse(text).records == []
  {
  }

  /** A line other than the end marker keeps a record open or is a fault. */
  lemma OpenStaysOpen(st: Parser, raw: string, no: nat)
    requires st.Running? && st.current.Some? && StripCr(raw) != END_OF_RECORD
    ensures Step(st, raw, no).Running? ==>
      Step(st, raw, no).current.Some? && Step(st, raw, no).records == st.records
  {
  }

  /** Paths and names that can come out of the parser. */
  ghost predicate LineSafe(name: string) {
    '\n' !in name
  }

  ghost predicate PathSafe(path: string) {
    path != "" && IsTrimmed(path) && LineSafe(path)
  }

  ghost predicate SafeRecord(r: Record) {
    && PathSafe(r.sf)
    && (forall i :: 0 <= i < |r.fn| ==> LineSafe(r.fn[i].1))
    && (forall i :: 0 <= i < |r.fnda| ==> LineSafe(r.fnda[i].1))
  }

  ghost predicate SafeParser(st: Parser) {
    st.Running? ==>
      && (forall i :: 0 <= i < |st.records| ==> SafeRecord(st.records[i]))
      && (st.current.Some? ==> SafeRecord(st.current.value))
  }

  lemma StepFieldSafe(st: Parser, kind: string, rest: string, no: nat)
    requires st.Running? && SafeParser(st) && LineSafe(rest)
    ensures SafeParser(StepField(st, kind, rest, no))
  {
    hide ReadDa;
    hide BeforeComma;
    hide Trim;
    TrimShape(rest);
    assert LineSafe(Trim(rest)) && LineSafe(AfterComma(rest));
    hide AfterComma;
    hide LineSafe;
  }

  lemma StepLineSafe(st: Parser, line: string, no: nat)
    requires st.Running? && SafeParser(st) && LineSafe(line)
    ensures SafeParser(StepLine(st, line, no))
  {
    hide StepField;
    hide SafeRecord;
    hide Trim;
    hide IndexOf;
    var colon := IndexOf(line, ':');
    if Trim(line) == "" || line == END_OF_RECORD || colon < 0 {
    } else {
      StepFieldSafe(st, line[..colon], line[colon + 1..], no);
    }
  }

  lemma StepSafe(st: Parser, raw: string, no: nat)
    requires SafeParser(st) && LineSafe(raw)
    ensures SafeParser(Step(st, raw, no))
  {
    hide StepLine;
    if st.Running? {
      StepLineSafe(st, StripCr(raw), no);
    }
  }

  lemma {:induction false} RunSafe(st: Parser, lines: seq<string>, no: nat)
    requires SafeParser(st) && forall l :: l in lines ==> LineSafe(l)
    ensures SafeParser(Run(st, lines, no))
  {
    hide SafeParser;
    hide Step;
    if lines != [] {
      var last := |lines| - 1;
      RunSafe(st, lines[..last], no);
      StepSafe(Run(st, lines[..last], no), lines[last], no + last);
    }
  }

  /** Whatever the text, every parsed path is trimmed and not empty and no
      parsed path or name spans lines. */
  lemma ParsedIsSafe(text: string)
    ensures forall r :: r in Parse(text).records ==> SafeRecord(r)
  {
    SplitPieces(text, '\n');
    RunSafe(START, Split(text, '\n'), 1);
  }

  /** Every unknown record type is reported once. */
  ghost predicate WarnedOnce(st: Parser) {
    st.Running? ==>
      && (forall i, j :: 0 <= i < j < |st.warnings| ==> st.warnings[i] != st.warnings[j])
      && (forall i :: 0 <= i < |st.warnings| ==> st.warnings[i].UnknownType? && st.warnings[i].kind in st.warned)
  }

  lemma StepWarnsOnce(st: Parser, raw: string, no: nat)
    requires WarnedOnce(st)
    ensures WarnedOnce(Step(st, raw, no))
  {
    hide StepField;
    hide Trim;
    var line := StripCr(raw);
    var colon := IndexOf(line, ':');
    if st.Running? && colon >= 0 {
      FieldWarnsOnce(st, line[..colon], line[colon + 1..], no);
    }
  }

  lemma FieldWarnsOnce(st: Parser, kind: string, rest: string, no: nat)
    requires st.Running? && WarnedOnce(st)
    ensures WarnedOnce(StepField(st, kind, rest, no))
  {
    hide Trim;
    hide ReadDa;
    hide BeforeComma;
    hide AfterComma;
  }

  lemma {:induction false} RunWarnsOnce(st: Parser, lines: seq<string>, no: nat)
    requires WarnedOnce(st)
    ensures WarnedOnce(Run(st, lines, no))
  {
    hide WarnedOnce;
    hide Step;
    if lines != [] {
      var last := |lines| - 1;
      RunWarnsOnce(st, lines[..last], no);
      StepWarnsOnce(Run(st, lines[..last], no), lines[last], no + last);
    }
  }

  /** A well-formed file is warned about at most once per unknown type. */
  lemma WarnsOncePerType(text: string)
    ensures var w := Parse(text).warnings;
            !Parse(text).malformed ==>
              (forall i :: 0 <= i < |w| ==> w[i].UnknownType?) && forall i, j :: 0 <= i < j < |w| ==> w[i] != w[j]
  {
    RunWarnsOnce(START, Split(text, '\n'), 1);
  }
}
