/** `scripts/merge-lcov.ts`: what an lcov text means line by line — which texts
    are malformed, which fault is reported, what every record holds — without
    running the parser over it. */
module LcovVerdict {
  import opened Text
  import opened Lcov

  // ------------------------------------------------------------- one line

  /** A line ending in the marker, its own carriage return aside. */
  predicate Ends(raw: string) {
    StripCr(raw) == "end_of_record"
  }

  predicate HasColon(raw: string) {
    ':' in StripCr(raw)
  }

  /** The record type, before the first colon, and what follows the colon. */
  function KindOf(raw: string): string
    requires HasColon(raw)
  {
    StripCr(raw)[..IndexOf(StripCr(raw), ':')]
  }

  function RestOf(raw: string): string
    requires HasColon(raw)
  {
    StripCr(raw)[IndexOf(StripCr(raw), ':') + 1..]
  }

  predicate Is(raw: string, kind: string) {
    HasColon(raw) && KindOf(raw) == kind
  }

  /** One carriage return, and no more than one, belongs to the line end. */
  lemma StripsOneCr(line: string)
    ensures StripCr(line + "\r") == line
    ensures line == "" || line[|line| - 1] != '\r' ==> StripCr(line) == line
  {
    var s := line + "\r";
    assert s[|s| - 1..] == "\r";
    if line != "" {
      assert line[|line| - 1..] == [line[|line| - 1]];
    }
  }

  /** A line is its type, a colon and its rest. */
  lemma ColonCut(raw: string)
    requires HasColon(raw)
    ensures StripCr(raw) == KindOf(raw) + ":" + RestOf(raw) && ':' !in KindOf(raw)
  {
    hide StripCr;
  }

  /** The comma cuts a rest in two; without one everything stands before it. */
  lemma CommaCut(rest: string)
    ensures ',' !in BeforeComma(rest)
    ensures ',' in rest ==> rest == BeforeComma(rest) + "," + AfterComma(rest)
    ensures ',' !in rest ==> BeforeComma(rest) == rest && AfterComma(rest) == ""
  {
  }

  // --------------------------------------------------------- the DA fields

  /** The first two fields of a DA line. */
  predicate ReadsAs(rest: string, ln: int, hits: int) {
    && ',' in rest
    && ReadNumber(BeforeComma(rest)) == Some(ln)
    && ReadNumber(BeforeComma(AfterComma(rest))) == Some(hits)
  }

  lemma SplitFields(rest: string)
    ensures Split(rest, ',')[0] == BeforeComma(rest)
    ensures |Split(rest, ',')| >= 2 <==> ',' in rest
    ensures ',' in rest ==> Split(rest, ',')[1] == BeforeComma(AfterComma(rest))
  {
    hide Split;
    hide BeforeComma;
    hide AfterComma;
    CommaCut(rest);
    SplitFirst(rest);
    if ',' in rest {
      var after := AfterComma(rest);
      assert rest == BeforeComma(rest) + [','] + after;
      SplitHead(BeforeComma(rest), ',', after);
      SplitFirst(after);
    }
  }

  lemma SplitFirst(rest: string)
    ensures Split(rest, ',')[0] == BeforeComma(rest)
    ensures ',' !in rest ==> |Split(rest, ',')| == 1
  {
    hide Split;
    hide BeforeComma;
    hide AfterComma;
    CommaCut(rest);
    if ',' in rest {
      assert rest == BeforeComma(rest) + [','] + AfterComma(rest);
      SplitHead(BeforeComma(rest), ',', AfterComma(rest));
    } else {
      SplitWhole(rest, ',');
    }
  }

  lemma ReadDaIff(rest: string)
    ensures ReadDa(rest).Some? <==> exists ln, hits :: ReadsAs(rest, ln, hits)
    ensures ReadDa(rest).Some? ==> ReadsAs(rest, ReadDa(rest).value.0, ReadDa(rest).value.1)
  {
    hide Split;
    hide BeforeComma;
    hide AfterComma;
    hide ReadNumber;
    SplitFields(rest);
    if ReadDa(rest).Some? {
      assert ReadsAs(rest, ReadDa(rest).value.0, ReadDa(rest).value.1);
    }
  }

  // ------------------------------------------------------------ the numbers

  /** Blanks, a sign or none, digits, blanks. */
  ghost predicate Spells(s: string, a: string, sign: string, digits: string, b: string) {
    && s == a + (sign + digits) + b && IsBlank(a) && IsBlank(b)
    && sign in {"", "+", "-"} && digits != "" && AllDigits(digits)
  }

  function Signed(sign: string, digits: string): int
    requires AllDigits(digits)
  {
    if sign == "-" then -(NatValue(digits) as int) else NatValue(digits) as int
  }

  ghost predicate IsNumeral(s: string, v: int) {
    exists a, sign, digits, b :: Spells(s, a, sign, digits, b) && v == Signed(sign, digits)
  }

  lemma SpelledRead(s: string, a: string, sign: string, digits: string, b: string)
    requires Spells(s, a, sign, digits, b)
    ensures ReadNumber(s) == Some(Signed(sign, digits))
  {
    var t := sign + digits;
    assert t[|t| - 1] == digits[|digits| - 1];
    TrimPadded(a, t, b);
    if sign == "" {
      assert t == digits;
    } else {
      assert t[0] == sign[0] && t[1..] == digits;
    }
  }

  lemma ReadSpelled(s: string)
    requires ReadNumber(s).Some? && !IsBlank(s)
    ensures IsNumeral(s, ReadNumber(s).value)
  {
    TrimShape(s);
    var a := TrimStartCut(s);
    var b := TrimEndCut(TrimStart(s));
    var t := Trim(s);
    assert s == a + t + b;
    if AllDigits(t) {
      assert Spells(s, a, "", t, b) by { assert "" + t == t; }
    } else {
      assert t == t[..1] + t[1..] && t[..1] == [t[0]];
      assert Spells(s, a, t[..1], t[1..], b);
    }
  }

  /** What counts as a number, and which: decimal digits with a sign or none
      between blanks, and blank text, which is 0. */
  lemma NumberIff(s: string, v: int)
    ensures ReadNumber(s) == Some(v) <==> if IsBlank(s) then v == 0 else IsNumeral(s, v)
  {
    TrimShape(s);
    hide ReadNumber;
    if IsBlank(s) {
      BlankIsZero(s);
    } else {
      if ReadNumber(s) == Some(v) { ReadSpelled(s); }
      if IsNumeral(s, v) {
        var a, sign, digits, b :| Spells(s, a, sign, digits, b) && v == Signed(sign, digits);
        SpelledRead(s, a, sign, digits, b);
      }
    }
  }

  lemma BlankIsZero(s: string)
    requires IsBlank(s)
    ensures ReadNumber(s) == Some(0)
  {
    TrimShape(s);
  }

  // ------------------------------------------------------------ the faults

  /** A record is open before line `i`: some earlier SF has met no end marker since. */
  ghost predicate OpenAt(lines: seq<string>, i: nat)
    requires i <= |lines|
  {
    exists j :: 0 <= j < i && Is(lines[j], "SF") && forall k :: j < k < i ==> !Ends(lines[k])
  }

  /** What is wrong with line `i`. */
  ghost predicate Wrong(lines: seq<string>, i: nat, fault: Fault)
    requires i < |lines|
  {
    var raw := lines[i];
    match fault
    case EndWithoutSf => Ends(raw) && !OpenAt(lines, i)
    case NoColon => !IsBlank(StripCr(raw)) && !Ends(raw) && !HasColon(raw)
    case NestedSf => Is(raw, "SF") && OpenAt(lines, i)
    case EmptyPath => Is(raw, "SF") && !OpenAt(lines, i) && IsBlank(RestOf(raw))
    case OutsideRecord(kind) => kind in {"DA", "FN", "FNDA"} && Is(raw, kind) && !OpenAt(lines, i)
    case BadNumber(kind) =>
      && kind in {"DA", "FN", "FNDA"} && Is(raw, kind) && OpenAt(lines, i)
      && if kind == "DA" then !exists ln, hits :: ReadsAs(RestOf(raw), ln, hits)
         else ReadNumber(BeforeComma(RestOf(raw))).None?
  }

  ghost predicate Faulty(lines: seq<string>, i: nat)
    requires i < |lines|
  {
    exists fault :: Wrong(lines, i, fault)
  }

  ghost predicate Sound(lines: seq<string>, n: nat)
    requires n <= |lines|
  {
    forall i: nat :: i < n ==> !Faulty(lines, i)
  }

  lemma OpenNext(lines: seq<string>, i: nat, n: nat)
    requires i + 1 == n <= |lines|
    ensures OpenAt(lines, n) <==> Is(lines[i], "SF") || (OpenAt(lines, i) && !Ends(lines[i]))
    ensures Ends(lines[i]) ==> !HasColon(lines[i])
  {
    hide StripCr;
    hide KindOf;
    if OpenAt(lines, n) && !Is(lines[i], "SF") {
      var j :| 0 <= j < n && Is(lines[j], "SF") && forall k :: j < k < n ==> !Ends(lines[k]);
      assert j != i;
      assert forall k :: j < k < i ==> !Ends(lines[k]);
    }
    if OpenAt(lines, i) && !Ends(lines[i]) {
      var j :| 0 <= j < i && Is(lines[j], "SF") && forall k :: j < k < i ==> !Ends(lines[k]);
      assert forall k :: j < k < n ==> !Ends(lines[k]);
    }
  }

  /** The parser goes on from `i` as the lines before it say it stands. */
  ghost predicate Stands(st: Parser, lines: seq<string>, i: nat)
    requires i <= |lines|
  {
    st.Running? && (st.current.Some? <==> OpenAt(lines, i))
  }

  /** The line `i` stops the parser exactly when something is wrong with it. */
  ghost predicate Judged(st: Parser, after: Parser, lines: seq<string>, i: nat, no: nat)
    requires i < |lines| && st.Running?
  {
    if Faulty(lines, i)
    then exists fault :: Wrong(lines, i, fault) && after == Failed(st.warnings + [Lcov.Malformed(no, fault)])
    else after.Running? && (after.current.Some? <==> Is(lines[i], "SF") || (st.current.Some? && !Ends(lines[i])))
  }

  lemma FieldJudged(st: Parser, lines: seq<string>, i: nat, no: nat)
    requires i < |lines| && Stands(st, lines, i) && HasColon(lines[i]) && !Ends(lines[i])
    ensures Judged(st, StepField(st, KindOf(lines[i]), RestOf(lines[i]), no), lines, i, no)
  {
    hide StripCr;
    hide KindOf;
    hide RestOf;
    hide Trim;
    hide ReadDa;
    hide ReadNumber;
    hide BeforeComma;
    hide ReadsAs;
    hide OpenAt;
    hide Ends;
    var kind, rest := KindOf(lines[i]), RestOf(lines[i]);
    ReadDaIff(rest);
    TrimShape(rest);
    var after := StepField(st, kind, rest, no);
    if after.Failed? {
      var fault := after.warnings[|after.warnings| - 1].fault;
      assert Wrong(lines, i, fault);
    }
  }

  lemma LineJudged(st: Parser, lines: seq<string>, i: nat, no: nat)
    requires i < |lines| && Stands(st, lines, i)
    ensures Judged(st, Step(st, lines[i], no), lines, i, no)
  {
    hide StepField;
    hide StripCr;
    hide Trim;
    hide OpenAt;
    hide ReadNumber;
    hide ReadsAs;
    var raw := lines[i];
    TrimShape(StripCr(raw));
    if IsBlank(StripCr(raw)) {
      BlankHasNoColon(StripCr(raw));
    } else if Ends(raw) {
      if st.current.None? {
        assert Wrong(lines, i, EndWithoutSf);
      }
    } else if !HasColon(raw) {
      assert Wrong(lines, i, NoColon);
    } else {
      FieldJudged(st, lines, i, no);
    }
  }

  lemma BlankHasNoColon(s: string)
    requires IsBlank(s)
    ensures ':' !in s && s != "end_of_record"
  {
    var marker := "end_of_record";
    assert marker[0] == 'e' && marker[0] in marker;
  }

  // ----------------------------------------------------------- the verdict

  /** The first fault found, if any, up to line `n`. */
  ghost predicate Verdict(st: Parser, lines: seq<string>, n: nat)
    requires n <= |lines|
  {
    if Sound(lines, n) then Stands(st, lines, n)
    else st.Failed? && st.warnings != [] && FirstFault(lines, n, st.warnings[|st.warnings| - 1])
  }

  ghost predicate FirstFault(lines: seq<string>, n: nat, w: Warning)
    requires n <= |lines|
  {
    exists i: nat, fault :: i < n && Sound(lines, i) && Wrong(lines, i, fault) && w == Warning.Malformed(i + 1, fault)
  }

  lemma {:induction false} RunVerdict(lines: seq<string>, n: nat)
    requires n <= |lines|
    ensures Verdict(Run(START, lines[..n], 1), lines, n)
  {
    hide Wrong;
    hide Step;
    hide Run;
    hide Faulty;
    if n == 0 {
      RunNothing(START, 1);
      assert lines[..0] == [];
    } else {
      var i := n - 1;
      RunVerdict(lines, i);
      RunLine(START, lines, i, 1);
      var st := Run(START, lines[..i], 1);
      OpenNext(lines, i, n);
      VerdictNext(st, Run(START, lines[..n], 1), lines, i, n);
    }
  }

  lemma VerdictNext(st: Parser, after: Parser, lines: seq<string>, i: nat, n: nat)
    requires i + 1 == n <= |lines| && Verdict(st, lines, i) && after == Step(st, lines[i], n)
    requires OpenAt(lines, n) <==> Is(lines[i], "SF") || (OpenAt(lines, i) && !Ends(lines[i]))
    ensures Verdict(after, lines, n)
  {
    hide Wrong;
    hide StepLine;
    hide Faulty;
    hide OpenAt;
    hide Is;
    hide Ends;
    if Sound(lines, i) {
      LineJudged(st, lines, i, n);
    }
  }

  /** The parser rejects a text exactly when some line is wrong where it
      stands or a record is still open at the end; it names the first wrong
      line and what is wrong with it, and keeps nothing. */
  lemma MalformedIff(text: string)
    ensures var lines, r := Split(text, '\n'), Parse(text);
            && (r.malformed <==> (exists i: nat :: i < |lines| && Faulty(lines, i)) || OpenAt(lines, |lines|))
            && (r.malformed ==> r.records == [] && r.warnings != [])
            && (!Sound(lines, |lines|) ==> FirstFault(lines, |lines|, r.warnings[|r.warnings| - 1]))
            && (Sound(lines, |lines|) && OpenAt(lines, |lines|) ==> r.warnings[|r.warnings| - 1] == Truncated)
  {
    hide Run;
    hide Split;
    hide OpenAt;
    hide Faulty;
    hide FirstFault;
    var lines := Split(text, '\n');
    RunVerdict(lines, |lines|);
    assert lines[..|lines|] == lines;
  }

  // ----------------------------------------------------------- the records

  /** What the lines of one type say, from line `o` up to line `e`, in order. */
  function Rests(lines: seq<string>, o: nat, e: nat, kind: string): seq<string>
    requires o <= e <= |lines|
    decreases e
  {
    if o == e then [] else
      var last := lines[e - 1];
      Rests(lines, o, e - 1, kind) + if Is(last, kind) then [RestOf(last)] else []
  }

  ghost predicate DaRead(rests: seq<string>, da: seq<(int, int)>) {
    |da| == |rests| && forall k :: 0 <= k < |da| ==> ReadsAs(rests[k], da[k].0, da[k].1)
  }

  /** A number up to the comma, a name after it. */
  ghost predicate NamedRead(rests: seq<string>, entries: seq<(int, string)>) {
    |entries| == |rests|
    && forall k :: 0 <= k < |entries| ==>
      ReadNumber(BeforeComma(rests[k])) == Some(entries[k].0) && AfterComma(rests[k]) == entries[k].1
  }

  /** `r` holds what the lines from the SF line `o` up to line `e` say. */
  ghost predicate Holds(r: Record, lines: seq<string>, o: nat, e: nat)
    requires o < e <= |lines|
  {
    && Is(lines[o], "SF") && r.sf == Trim(RestOf(lines[o]))
    && DaRead(Rests(lines, o, e, "DA"), r.da)
    && NamedRead(Rests(lines, o, e, "FN"), r.fn)
    && NamedRead(Rests(lines, o, e, "FNDA"), r.fnda)
  }

  /** The records are the blocks of the first `n` lines: the `k`-th runs from
      the SF line `marks[k].0` to the end marker `marks[k].1`. */
  ghost predicate Blocks(lines: seq<string>, n: nat, marks: seq<(nat, nat)>, records: seq<Record>)
    requires n <= |lines|
  {
    && |marks| == |records|
    && (forall k :: 0 <= k < |marks| ==>
          marks[k].0 < marks[k].1 < n && Ends(lines[marks[k].1])
          && Holds(records[k], lines, marks[k].0, marks[k].1))
    && (forall j, k :: 0 <= j < k < |marks| ==> marks[j].1 < marks[k].0)
    && (forall i: nat :: i < n && Ends(lines[i]) ==> exists k :: 0 <= k < |marks| && marks[k].1 == i)
  }

  /** Every SF line up to `n` starts a block, but for the one still open. */
  ghost predicate AllStarted(lines: seq<string>, n: nat, marks: seq<(nat, nat)>, open: Option<nat>)
    requires n <= |lines|
  {
    forall i: nat :: i < n && Is(lines[i], "SF") ==> open == Some(i) || exists k :: 0 <= k < |marks| && marks[k].0 == i
  }

  /** The parser's state after `n` lines, as the lines tell it. */
  ghost predicate Tells(st: Parser, lines: seq<string>, n: nat, marks: seq<(nat, nat)>, open: Option<nat>)
    requires n <= |lines|
  {
    && st.Running? && Blocks(lines, n, marks, st.records) && AllStarted(lines, n, marks, open)
    && (st.current.Some? <==> open.Some?)
    && (open.Some? ==> open.value < n && Holds(st.current.value, lines, open.value, n))
    && (open.Some? ==> forall k :: 0 <= k < |marks| ==> marks[k].1 < open.value)
  }

  lemma RestsNext(lines: seq<string>, o: nat, i: nat, n: nat, kind: string)
    requires o <= i && i + 1 == n <= |lines|
    ensures Rests(lines, o, n, kind) ==
            Rests(lines, o, i, kind) + if Is(lines[i], kind) then [RestOf(lines[i])] else []
  {
  }

  /** A line of no recorded type leaves the open record as it stands. */
  lemma HoldsStill(r: Record, lines: seq<string>, o: nat, i: nat, n: nat)
    requires o < i && i + 1 == n <= |lines| && Holds(r, lines, o, i)
    requires !Is(lines[i], "DA") && !Is(lines[i], "FN") && !Is(lines[i], "FNDA")
    ensures Holds(r, lines, o, n)
  {
    hide *;
    RestsNext(lines, o, i, n, "DA");
    RestsNext(lines, o, i, n, "FN");
    RestsNext(lines, o, i, n, "FNDA");
    Reheld(r, lines, o, i, n);
  }

  lemma Reheld(r: Record, lines: seq<string>, o: nat, i: nat, n: nat)
    requires o < i < n <= |lines| && Holds(r, lines, o, i)
    requires Rests(lines, o, n, "DA") == Rests(lines, o, i, "DA")
    requires Rests(lines, o, n, "FN") == Rests(lines, o, i, "FN")
    requires Rests(lines, o, n, "FNDA") == Rests(lines, o, i, "FNDA")
    ensures Holds(r, lines, o, n)
  {
    hide Rests;
    hide Is;
    hide RestOf;
  }

  lemma HoldsDa(r: Record, lines: seq<string>, o: nat, i: nat, n: nat, e: (int, int))
    requires o < i && i + 1 == n <= |lines| && Holds(r, lines, o, i)
    requires Is(lines[i], "DA") && ReadsAs(RestOf(lines[i]), e.0, e.1)
    ensures Holds(r.(da := r.da + [e]), lines, o, n)
  {
    hide ReadsAs;
    hide RestOf;
    hide KindOf;
    RestsNext(lines, o, i, n, "DA");
    RestsNext(lines, o, i, n, "FN");
    RestsNext(lines, o, i, n, "FNDA");
    hide Rests;
  }

  lemma HoldsFn(r: Record, lines: seq<string>, o: nat, i: nat, n: nat, e: (int, string))
    requires o < i && i + 1 == n <= |lines| && Holds(r, lines, o, i)
    requires Is(lines[i], "FN")
    requires ReadNumber(BeforeComma(RestOf(lines[i]))) == Some(e.0) && AfterComma(RestOf(lines[i])) == e.1
    ensures Holds(r.(fn := r.fn + [e]), lines, o, n)
  {
    hide ReadNumber;
    hide BeforeComma;
    hide AfterComma;
    hide RestOf;
    hide KindOf;
    RestsNext(lines, o, i, n, "DA");
    RestsNext(lines, o, i, n, "FN");
    RestsNext(lines, o, i, n, "FNDA");
    hide Rests;
  }

  lemma HoldsFnda(r: Record, lines: seq<string>, o: nat, i: nat, n: nat, e: (int, string))
    requires o < i && i + 1 == n <= |lines| && Holds(r, lines, o, i)
    requires Is(lines[i], "FNDA")
    requires ReadNumber(BeforeComma(RestOf(lines[i]))) == Some(e.0) && AfterComma(RestOf(lines[i])) == e.1
    ensures Holds(r.(fnda := r.fnda + [e]), lines, o, n)
  {
    hide ReadNumber;
    hide BeforeComma;
    hide AfterComma;
    hide RestOf;
    hide KindOf;
    RestsNext(lines, o, i, n, "DA");
    RestsNext(lines, o, i, n, "FN");
    RestsNext(lines, o, i, n, "FNDA");
    hide Rests;
  }

  lemma OpensNew(lines: seq<string>, i: nat, n: nat)
    requires i + 1 == n <= |lines| && Is(lines[i], "SF")
    ensures Holds(Record(Trim(RestOf(lines[i])), [], [], []), lines, i, n)
  {
    hide RestOf;
    hide KindOf;
    RestsNext(lines, i, i, n, "DA");
    RestsNext(lines, i, i, n, "FN");
    RestsNext(lines, i, i, n, "FNDA");
    assert Rests(lines, i, i, "DA") == [] && Rests(lines, i, i, "FN") == [] && Rests(lines, i, i, "FNDA") == [];
    hide Rests;
  }

  /** What a field line does to the open record. */
  lemma FieldHolds(st: Parser, lines: seq<string>, o: nat, i: nat, n: nat)
    requires o < i && i + 1 == n <= |lines| && HasColon(lines[i])
    requires st.Running? && st.current.Some? && Holds(st.current.value, lines, o, i)
    ensures var after := StepField(st, KindOf(lines[i]), RestOf(lines[i]), n);
            after.Running? ==>
              && after.records == st.records && after.current.Some?
              && Holds(after.current.value, lines, o, n) && !Is(lines[i], "SF")
  {
    hide Holds;
    hide RestOf;
    hide KindOf;
    hide ReadDa;
    hide ReadNumber;
    hide BeforeComma;
    hide AfterComma;
    hide ReadsAs;
    hide Trim;
    var kind, rest, r := KindOf(lines[i]), RestOf(lines[i]), st.current.value;
    if kind == "DA" {
      ReadDaIff(rest);
      if ReadDa(rest).Some? { HoldsDa(r, lines, o, i, n, ReadDa(rest).value); }
    } else if kind == "FN" {
      var num := ReadNumber(BeforeComma(rest));
      if num.Some? { HoldsFn(r, lines, o, i, n, (num.value, AfterComma(rest))); }
    } else if kind == "FNDA" {
      var num := ReadNumber(BeforeComma(rest));
      if num.Some? { HoldsFnda(r, lines, o, i, n, (num.value, AfterComma(rest))); }
    } else {
      HoldsStill(r, lines, o, i, n);
    }
  }

  lemma BlocksOn(lines: seq<string>, i: nat, n: nat, marks: seq<(nat, nat)>, records: seq<Record>)
    requires i + 1 == n <= |lines| && Blocks(lines, i, marks, records) && !Ends(lines[i])
    ensures Blocks(lines, n, marks, records)
  {
    hide Holds;
    hide Ends;
  }

  lemma StartedOn(lines: seq<string>, i: nat, n: nat, marks: seq<(nat, nat)>, open: Option<nat>)
    requires i + 1 == n <= |lines| && AllStarted(lines, i, marks, open)
    ensures !Is(lines[i], "SF") ==> AllStarted(lines, n, marks, open)
    ensures open.None? ==> AllStarted(lines, n, marks, Some(i))
  {
    hide Is;
  }

  /** A line neither SF nor end marker moves nothing but the open record. */
  lemma TellsOn(st: Parser, after: Parser, lines: seq<string>, i: nat, n: nat, marks: seq<(nat, nat)>, open: Option<nat>)
    requires i + 1 == n <= |lines| && Tells(st, lines, i, marks, open)
    requires after.Running? && after.records == st.records && !Ends(lines[i]) && !Is(lines[i], "SF")
    requires after.current.Some? <==> open.Some?
    requires open.Some? ==> Holds(after.current.value, lines, open.value, n)
    ensures Tells(after, lines, n, marks, open)
  {
    hide Holds;
    hide Is;
    hide Ends;
    hide AllStarted;
    BlocksOn(lines, i, n, marks, st.records);
    StartedOn(lines, i, n, marks, open);
  }

  lemma MarksBefore(lines: seq<string>, i: nat, marks: seq<(nat, nat)>, records: seq<Record>)
    requires i <= |lines| && Blocks(lines, i, marks, records)
    ensures forall k :: 0 <= k < |marks| ==> marks[k].1 < i
  {
    hide Holds;
    hide Ends;
  }

  lemma TellsOpened(st: Parser, after: Parser, lines: seq<string>, i: nat, n: nat, marks: seq<(nat, nat)>)
    requires i + 1 == n <= |lines| && Tells(st, lines, i, marks, None)
    requires Is(lines[i], "SF") && !Ends(lines[i])
    requires after == st.(current := Some(Record(Trim(RestOf(lines[i])), [], [], [])))
    ensures Tells(after, lines, n, marks, Some(i))
  {
    hide Holds;
    hide Is;
    hide Ends;
    hide Trim;
    hide Blocks;
    hide AllStarted;
    OpensNew(lines, i, n);
    BlocksOn(lines, i, n, marks, st.records);
    StartedOn(lines, i, n, marks, None);
    MarksBefore(lines, i, marks, st.records);
  }

  lemma TellsClosed(st: Parser, after: Parser, lines: seq<string>, i: nat, n: nat, marks: seq<(nat, nat)>, o: nat)
    requires i + 1 == n <= |lines| && Tells(st, lines, i, marks, Some(o))
    requires Ends(lines[i]) && !Is(lines[i], "SF")
    requires after == st.(records := st.records + [st.current.value], current := None)
    ensures Tells(after, lines, n, marks + [(o, i)], None)
  {
    hide Holds;
    hide Is;
    hide Ends;
    var grown := marks + [(o, i)];
    assert forall k :: 0 <= k < |marks| ==> grown[k] == marks[k];
    assert grown[|marks|] == (o, i);
  }

  lemma TellsField(st: Parser, lines: seq<string>, i: nat, n: nat, marks: seq<(nat, nat)>, open: Option<nat>)
    returns (open': Option<nat>)
    requires i + 1 == n <= |lines| && Tells(st, lines, i, marks, open) && HasColon(lines[i]) && !Ends(lines[i])
    requires StepField(st, KindOf(lines[i]), RestOf(lines[i]), n).Running?
    ensures Tells(StepField(st, KindOf(lines[i]), RestOf(lines[i]), n), lines, n, marks, open')
  {
    hide Holds;
    hide RestOf;
    hide KindOf;
    hide Ends;
    hide ReadDa;
    hide ReadNumber;
    hide BeforeComma;
    hide AfterComma;
    hide Trim;
    hide Blocks;
    hide AllStarted;
    var after := StepField(st, KindOf(lines[i]), RestOf(lines[i]), n);
    open' := open;
    if KindOf(lines[i]) == "SF" {
      TellsOpened(st, after, lines, i, n, marks);
      open' := Some(i);
    } else {
      if open.Some? { FieldHolds(st, lines, open.value, i, n); }
      TellsOn(st, after, lines, i, n, marks, open);
    }
  }

  lemma TellsLine(st: Parser, lines: seq<string>, i: nat, n: nat, marks: seq<(nat, nat)>, open: Option<nat>)
    returns (marks': seq<(nat, nat)>, open': Option<nat>)
    requires i + 1 == n <= |lines| && Tells(st, lines, i, marks, open) && Step(st, lines[i], n).Running?
    ensures Tells(Step(st, lines[i], n), lines, n, marks', open')
  {
    hide StepField;
    hide StripCr;
    hide Trim;
    hide Holds;
    hide Blocks;
    hide AllStarted;
    var raw := lines[i];
    marks', open' := marks, open;
    TrimShape(StripCr(raw));
    if IsBlank(StripCr(raw)) {
      BlankHasNoColon(StripCr(raw));
      if open.Some? { HoldsStill(st.current.value, lines, open.value, i, n); }
      TellsOn(st, st, lines, i, n, marks, open);
    } else if Ends(raw) {
      TellsClosed(st, Step(st, raw, n), lines, i, n, marks, open.value);
      marks', open' := marks + [(open.value, i)], None;
    } else {
      open' := TellsField(st, lines, i, n, marks, open);
    }
  }

  lemma {:induction false} RunTells(lines: seq<string>, n: nat) returns (marks: seq<(nat, nat)>, open: Option<nat>)
    requires n <= |lines| && Run(START, lines[..n], 1).Running?
    ensures Tells(Run(START, lines[..n], 1), lines, n, marks, open)
  {
    hide Run;
    hide Step;
    hide Holds;
    if n == 0 {
      RunNothing(START, 1);
      assert lines[..0] == [];
      marks, open := [], None;
    } else {
      var i := n - 1;
      RunLine(START, lines, i, 1);
      FaultLasts(lines, i, n);
      marks, open := RunTells(lines, i);
      marks, open := TellsLine(Run(START, lines[..i], 1), lines, i, n, marks, open);
    }
  }

  lemma FaultLasts(lines: seq<string>, i: nat, n: nat)
    requires i + 1 == n <= |lines|
    ensures Run(START, lines[..i], 1).Failed? ==> Run(START, lines[..n], 1).Failed?
  {
    hide Run;
    RunLine(START, lines, i, 1);
  }

  /** The records are the blocks of the lines, one for each SF line. */
  ghost predicate AreTheBlocks(lines: seq<string>, records: seq<Record>) {
    exists marks :: Blocks(lines, |lines|, marks, records) && AllStarted(lines, |lines|, marks, None)
  }

  /** A well-formed text yields one record for every block from an SF line to
      its end marker, in order, holding exactly what the block's lines say. */
  lemma RecordsAreTheBlocks(text: string)
    requires !Parse(text).malformed
    ensures AreTheBlocks(Split(text, '\n'), Parse(text).records)
  {
    hide Run;
    hide Split;
    hide Blocks;
    hide AllStarted;
    hide Holds;
    var lines := Split(text, '\n');
    assert lines[..|lines|] == lines;
    var marks, open := RunTells(lines, |lines|);
    assert open.None?;
  }

  // ---------------------------------------------------------- the warnings

  /** A record type the format of this script does not know. */
  ghost predicate Unknown(kind: string) {
    kind !in {"SF", "DA", "FN", "FNDA", "TN", "FNF", "FNH", "LF", "LH"}
  }

  ghost predicate Warned(st: Parser, lines: seq<string>, n: nat)
    requires n <= |lines|
  {
    st.Running? ==> forall kind ::
      && (kind in st.warned <==> UsesUnknown(lines[..n], kind))
      && (kind in st.warned <==> UnknownType(kind) in st.warnings)
  }

  /** Only an unknown type not yet warned about is warned about. */
  ghost predicate Reports(st: Parser, after: Parser, kind: string)
    requires st.Running?
  {
    after.Running? ==>
      if Unknown(kind) && kind !in st.warned
      then after.warned == st.warned + {kind} && after.warnings == st.warnings + [UnknownType(kind)]
      else after.warned == st.warned && after.warnings == st.warnings
  }

  lemma FieldReports(st: Parser, kind: string, rest: string, no: nat)
    requires st.Running?
    ensures Reports(st, StepField(st, kind, rest, no), kind)
  {
    hide ReadDa;
    hide ReadNumber;
    hide BeforeComma;
    hide AfterComma;
    hide Trim;
  }

  lemma LineReports(st: Parser, raw: string, no: nat)
    requires st.Running?
    ensures if HasColon(raw) then Reports(st, Step(st, raw, no), KindOf(raw))
            else Step(st, raw, no).Running? ==>
              Step(st, raw, no).warned == st.warned && Step(st, raw, no).warnings == st.warnings
  {
    hide StepField;
    hide StripCr;
    hide Reports;
    hide Trim;
    hide IsBlank;
    TrimShape(StripCr(raw));
    if IsBlank(StripCr(raw)) {
      BlankHasNoColon(StripCr(raw));
    } else if HasColon(raw) {
      assert StripCr(raw) != END_OF_RECORD;
      FieldReports(st, KindOf(raw), RestOf(raw), no);
    }
  }

  lemma WarnedNext(st: Parser, after: Parser, lines: seq<string>, i: nat, n: nat)
    requires i + 1 == n <= |lines| && Warned(st, lines, i) && after == Step(st, lines[i], n)
    ensures Warned(after, lines, n)
  {
    hide StepLine;
    hide KindOf;
    hide HasColon;
    hide Unknown;
    if st.Running? {
      LineReports(st, lines[i], n);
    }
  }

  lemma {:induction false} RunWarned(lines: seq<string>, n: nat)
    requires n <= |lines|
    ensures Warned(Run(START, lines[..n], 1), lines, n)
  {
    hide Step;
    hide Run;
    if n == 0 {
      RunNothing(START, 1);
      assert lines[..0] == [];
    } else {
      RunWarned(lines, n - 1);
      RunLine(START, lines, n - 1, 1);
      WarnedNext(Run(START, lines[..n - 1], 1), Run(START, lines[..n], 1), lines, n - 1, n);
    }
  }

  ghost predicate UsesUnknown(lines: seq<string>, kind: string) {
    exists i :: 0 <= i < |lines| && Is(lines[i], kind) && Unknown(kind)
  }

  /** A well-formed text is warned about exactly for the types it uses and
      this script does not know. */
  lemma WarnedIff(text: string, kind: string)
    requires !Parse(text).malformed
    ensures UnknownType(kind) in Parse(text).warnings <==>
            UsesUnknown(Split(text, '\n'), kind)
  {
    hide Run;
    hide Split;
    hide Is;
    hide Unknown;
    var lines := Split(text, '\n');
    RunWarned(lines, |lines|);
    assert lines[..|lines|] == lines;
  }
}
