/** `evals/takes-bootstrap/scorer.ts`: scoring predicted takes against a
    corpus, and what graduating guarantees. */
module Scorer {
  import opened Text

  datatype Kind = Fact | Take | Bet | Hunch

  datatype Expected = Expected(claimRe: string, kind: Kind, weightMin: real, weightMax: real)

  datatype Case = Case(id: string, expected: seq<Expected>, forbid: seq<string>)

  datatype Claim = Claim(claim: string, kind: string, weight: real)

  /** `claims` is None when the classifier's output could not be parsed. */
  datatype Prediction = Prediction(id: string, claims: Option<seq<Claim>>)

  /** `test(re, s)` is `new RegExp(re, "i").test(s)`. */
  type RegexTest = (string, string) -> bool

  datatype Tally = Tally(expected: nat, matched: nat, predicted: nat, precise: nat)

  datatype Violation = Violation(id: string, forbidRe: string, claim: string)

  const KINDS: seq<Kind> := [Fact, Take, Bet, Hunch]

  function KindNamed(name: string): Option<Kind> {
    if name == "fact" then Some(Fact)
    else if name == "take" then Some(Take)
    else if name == "bet" then Some(Bet)
    else if name == "hunch" then Some(Hunch)
    else None
  }

  // --------------------------------------------------------- what counts

  /** `new Map(...)` by id: the last prediction of an id wins; a missing one
      and an unparseable one are the same failure. */
  function ClaimsFor(predictions: seq<Prediction>, id: string): Option<seq<Claim>> {
    if predictions == [] then None else
      var last := predictions[|predictions| - 1];
      if last.id == id then last.claims else ClaimsFor(predictions[..|predictions| - 1], id)
  }

  predicate Hits(test: RegexTest, e: Expected, cl: Claim) {
    KindNamed(cl.kind) == Some(e.kind) && test(e.claimRe, cl.claim) && e.weightMin <= cl.weight <= e.weightMax
  }

  predicate IsHit(test: RegexTest, e: Expected, claims: seq<Claim>) {
    exists i :: 0 <= i < |claims| && Hits(test, e, claims[i])
  }

  predicate Credits(test: RegexTest, e: Expected, cl: Claim) {
    KindNamed(cl.kind) == Some(e.kind) && test(e.claimRe, cl.claim)
  }

  predicate IsPrecise(test: RegexTest, cl: Claim, expected: seq<Expected>) {
    exists i :: 0 <= i < |expected| && Credits(test, expected[i], cl)
  }

  /** How many elements satisfy a predicate. */
  function Count<A>(p: A -> bool, s: seq<A>): (n: nat)
    ensures n <= |s|
  {
    if s == [] then 0 else Count(p, s[..|s| - 1]) + if p(s[|s| - 1]) then 1 else 0
  }

  function Add(a: Tally, b: Tally): Tally {
    Tally(a.expected + b.expected, a.matched + b.matched, a.predicted + b.predicted, a.precise + b.precise)
  }

  const NOTHING := Tally(0, 0, 0, 0)

  function Owed(kind: Kind): Expected -> bool {
    (e: Expected) => e.kind == kind
  }

  function Met(test: RegexTest, claims: seq<Claim>, kind: Kind): Expected -> bool {
    (e: Expected) => e.kind == kind && IsHit(test, e, claims)
  }

  function Made(kind: Kind): Claim -> bool {
    (cl: Claim) => KindNamed(cl.kind) == Some(kind)
  }

  function Right(test: RegexTest, expected: seq<Expected>, kind: Kind): Claim -> bool {
    (cl: Claim) => KindNamed(cl.kind) == Some(kind) && IsPrecise(test, cl, expected)
  }

  /** What one case adds to the tally of one kind: what it owes counts even
      when there is no output to score. */
  function CaseTally(test: RegexTest, c: Case, claims: Option<seq<Claim>>, kind: Kind): Tally {
    match claims
    case None => Tally(Count(Owed(kind), c.expected), 0, 0, 0)
    case Some(cls) =>
      Tally(Count(Owed(kind), c.expected), Count(Met(test, cls, kind), c.expected),
            Count(Made(kind), cls), Count(Right(test, c.expected, kind), cls))
  }

  function TallyOf(test: RegexTest, corpus: seq<Case>, predictions: seq<Prediction>, kind: Kind): Tally {
    if corpus == [] then NOTHING else
      var c := corpus[|corpus| - 1];
      Add(TallyOf(test, corpus[..|corpus| - 1], predictions, kind), CaseTally(test, c, ClaimsFor(predictions, c.id), kind))
  }

  function Malformed(corpus: seq<Case>, predictions: seq<Prediction>): seq<string> {
    if corpus == [] then [] else
      var c := corpus[|corpus| - 1];
      Malformed(corpus[..|corpus| - 1], predictions) + if ClaimsFor(predictions, c.id).None? then [c.id] else []
  }

  /** The claims one forbidden pattern matches. */
  function LeaksOf(test: RegexTest, id: string, re: string, claims: seq<Claim>): seq<Violation> {
    if claims == [] then [] else
      var cl := claims[|claims| - 1];
      LeaksOf(test, id, re, claims[..|claims| - 1]) + if test(re, cl.claim) then [Violation(id, re, cl.claim)] else []
  }

  function CaseLeaks(test: RegexTest, id: string, forbid: seq<string>, claims: seq<Claim>): seq<Violation> {
    if forbid == [] then [] else
      CaseLeaks(test, id, forbid[..|forbid| - 1], claims) + LeaksOf(test, id, forbid[|forbid| - 1], claims)
  }

  function Leaks(test: RegexTest, corpus: seq<Case>, predictions: seq<Prediction>): seq<Violation> {
    if corpus == [] then [] else
      var c := corpus[|corpus| - 1];
      Leaks(test, corpus[..|corpus| - 1], predictions) +
      match ClaimsFor(predictions, c.id) case Some(claims) => CaseLeaks(test, c.id, c.forbid, claims) case None => []
  }

  // ---------------------------------------------------------- the ratios

  function Ratio(part: nat, whole: nat): real {
    if whole == 0 then 1.0 else part as real / whole as real
  }

  const MIN_PRECISION := 0.8
  const MIN_RECALL := 0.7

  function Totals(t: Kind -> Tally): Tally {
    Add(Add(Add(Add(NOTHING, t(Fact)), t(Take)), t(Bet)), t(Hunch))
  }

  function F1(precision: real, recall: real): real {
    if precision + recall == 0.0 then 0.0 else (2.0 * precision * recall) / (precision + recall)
  }

  predicate KindPasses(t: Tally) {
    && !(t.predicted > 0 && Ratio(t.precise, t.predicted) < MIN_PRECISION)
    && !(t.expected > 0 && Ratio(t.matched, t.expected) < MIN_RECALL)
  }

  datatype Report = Report(
    malformed: seq<string>, violations: seq<Violation>, byKind: map<Kind, Tally>,
    precision: real, recall: real, f1: real, graduated: bool)

  function Tallying(test: RegexTest, corpus: seq<Case>, predictions: seq<Prediction>): Kind -> Tally {
    kind => TallyOf(test, corpus, predictions, kind)
  }

  function Score(test: RegexTest, corpus: seq<Case>, predictions: seq<Prediction>): Report {
    var t := Tallying(test, corpus, predictions);
    var totals := Totals(t);
    var precision, recall := Ratio(totals.precise, totals.predicted), Ratio(totals.matched, totals.expected);
    Report(
      Malformed(corpus, predictions), Leaks(test, corpus, predictions),
      map[Fact := t(Fact), Take := t(Take), Bet := t(Bet), Hunch := t(Hunch)],
      precision, recall, F1(precision, recall),
      && Malformed(corpus, predictions) == [] && Leaks(test, corpus, predictions) == []
      && KindPasses(t(Fact)) && KindPasses(t(Take)) && KindPasses(t(Bet)) && KindPasses(t(Hunch)))
  }

  // ----------------------------------------------------------- the loops

  /** The running tally of every kind. */
  type Tallies = map<Kind, Tally>

  ghost predicate Complete(t: Tallies) {
    forall k: Kind :: k in t
  }

  method PushLeaksOf(test: RegexTest, id: string, re: string, claims: seq<Claim>, before: seq<Violation>)
    returns (out: seq<Violation>)
    ensures out == before + LeaksOf(test, id, re, claims)
  {
    out := before;
    for k := 0 to |claims|
      invariant out == before + LeaksOf(test, id, re, claims[..k])
    {
      assert claims[..k + 1][..k] == claims[..k];
      if test(re, claims[k].claim) {
        out := out + [Violation(id, re, claims[k].claim)];
      }
    }
    assert claims[..|claims|] == claims;
  }

  method PushLeaks(test: RegexTest, c: Case, claims: seq<Claim>, before: seq<Violation>) returns (out: seq<Violation>)
    ensures out == before + CaseLeaks(test, c.id, c.forbid, claims)
  {
    hide LeaksOf;
    out := before;
    for i := 0 to |c.forbid|
      invariant out == before + CaseLeaks(test, c.id, c.forbid[..i], claims)
    {
      assert c.forbid[..i + 1][..i] == c.forbid[..i];
      out := PushLeaksOf(test, c.id, c.forbid[i], claims, out);
    }
    assert c.forbid[..|c.forbid|] == c.forbid;
  }

  /** `claims.some(...)` */
  method SomeHit(test: RegexTest, e: Expected, claims: seq<Claim>) returns (hit: bool)
    ensures hit == IsHit(test, e, claims)
  {
    for i := 0 to |claims|
      invariant forall j :: 0 <= j < i ==> !Hits(test, e, claims[j])
    {
      if Hits(test, e, claims[i]) { return true; }
    }
    return false;
  }

  method SomeCredit(test: RegexTest, cl: Claim, expected: seq<Expected>) returns (ok: bool)
    ensures ok == IsPrecise(test, cl, expected)
  {
    for i := 0 to |expected|
      invariant forall j :: 0 <= j < i ==> !Credits(test, expected[j], cl)
    {
      if Credits(test, expected[i], cl) { return true; }
    }
    return false;
  }

  /** The expected entries up to `i`, on top of `base`. */
  function Recalled(test: RegexTest, base: Tally, expected: seq<Expected>, claims: Option<seq<Claim>>, kind: Kind): Tally {
    base.(expected := base.expected + Count(Owed(kind), expected),
          matched := base.matched + match claims case Some(cls) => Count(Met(test, cls, kind), expected) case None => 0)
  }

  lemma RecalledNext(test: RegexTest, base: Tally, expected: seq<Expected>, i: nat, claims: Option<seq<Claim>>, kind: Kind)
    requires i < |expected|
    ensures var before, after, e := Recalled(test, base, expected[..i], claims, kind),
                                    Recalled(test, base, expected[..i + 1], claims, kind), expected[i];
            after == if e.kind != kind then before
                     else before.(expected := before.expected + 1,
                                  matched := before.matched +
                                    if claims.Some? && IsHit(test, e, claims.value) then 1 else 0)
  {
    assert expected[..i + 1][..i] == expected[..i];
  }

  /** The loop over what a case expects. */
  method TallyExpected(test: RegexTest, c: Case, claims: Option<seq<Claim>>, before: Tallies) returns (t: Tallies)
    requires Complete(before)
    ensures Complete(t) && forall k: Kind :: t[k] == Recalled(test, before[k], c.expected, claims, k)
  {
    hide Recalled;
    hide IsHit;
    t := before;
    NothingRecalled(test, c.expected, claims, before);
    for i := 0 to |c.expected|
      invariant Complete(t) && forall k: Kind :: t[k] == Recalled(test, before[k], c.expected[..i], claims, k)
    {
      var e := c.expected[i];
      forall k: Kind { RecalledNext(test, before[k], c.expected, i, claims, k); }
      t := t[e.kind := t[e.kind].(expected := t[e.kind].expected + 1)];
      if claims.Some? {
        var hit := SomeHit(test, e, claims.value);
        if hit {
          t := t[e.kind := t[e.kind].(matched := t[e.kind].matched + 1)];
        }
      }
    }
    assert c.expected[..|c.expected|] == c.expected;
  }

  lemma NothingRecalled(test: RegexTest, expected: seq<Expected>, claims: Option<seq<Claim>>, before: Tallies)
    requires Complete(before)
    ensures forall k: Kind :: before[k] == Recalled(test, before[k], expected[..0], claims, k)
  {
  }

  /** The predictions up to `i`, on top of `base`. */
  function Predicted(test: RegexTest, base: Tally, expected: seq<Expected>, claims: seq<Claim>, kind: Kind): Tally {
    base.(predicted := base.predicted + Count(Made(kind), claims),
          precise := base.precise + Count(Right(test, expected, kind), claims))
  }

  lemma PredictedNext(test: RegexTest, base: Tally, expected: seq<Expected>, claims: seq<Claim>, i: nat, kind: Kind)
    requires i < |claims|
    ensures var before, after, cl := Predicted(test, base, expected, claims[..i], kind),
                                     Predicted(test, base, expected, claims[..i + 1], kind), claims[i];
            after == if KindNamed(cl.kind) != Some(kind) then before
                     else before.(predicted := before.predicted + 1,
                                  precise := before.precise + if IsPrecise(test, cl, expected) then 1 else 0)
  {
    assert claims[..i + 1][..i] == claims[..i];
  }

  lemma NothingPredicted(test: RegexTest, expected: seq<Expected>, claims: seq<Claim>, before: Tallies)
    requires Complete(before)
    ensures forall k: Kind :: before[k] == Predicted(test, before[k], expected, claims[..0], k)
  {
  }

  /** The loop over what was predicted. */
  method TallyClaims(test: RegexTest, c: Case, claims: seq<Claim>, before: Tallies) returns (t: Tallies)
    requires Complete(before)
    ensures Complete(t) && forall k: Kind :: t[k] == Predicted(test, before[k], c.expected, claims, k)
  {
    hide Predicted;
    hide IsPrecise;
    hide KindNamed;
    t := before;
    NothingPredicted(test, c.expected, claims, before);
    for i := 0 to |claims|
      invariant Complete(t) && forall k: Kind :: t[k] == Predicted(test, before[k], c.expected, claims[..i], k)
    {
      var cl := claims[i];
      forall k: Kind { PredictedNext(test, before[k], c.expected, claims, i, k); }
      var named := KindNamed(cl.kind);
      if named.None? { continue; }
      var kind := named.value;
      t := t[kind := t[kind].(predicted := t[kind].predicted + 1)];
      var ok := SomeCredit(test, cl, c.expected);
      if ok {
        t := t[kind := t[kind].(precise := t[kind].precise + 1)];
      }
    }
    assert claims[..|claims|] == claims;
  }

  lemma TallyNext(test: RegexTest, corpus: seq<Case>, i: nat, predictions: seq<Prediction>, kind: Kind)
    requires i < |corpus|
    ensures var c, claims := corpus[i], ClaimsFor(predictions, corpus[i].id);
            var recalled := Recalled(test, TallyOf(test, corpus[..i], predictions, kind), c.expected, claims, kind);
            TallyOf(test, corpus[..i + 1], predictions, kind) ==
            match claims
            case Some(cls) => Predicted(test, recalled, c.expected, cls, kind)
            case None => recalled
  {
    hide Count;
    assert corpus[..i + 1][..i] == corpus[..i];
  }

  /** The loop over the corpus. */
  method TallyCorpus(test: RegexTest, corpus: seq<Case>, predictions: seq<Prediction>)
    returns (malformed: seq<string>, violations: seq<Violation>, tally: Tallies)
    ensures malformed == Malformed(corpus, predictions) && violations == Leaks(test, corpus, predictions)
    ensures Complete(tally) && forall k: Kind :: tally[k] == TallyOf(test, corpus, predictions, k)
  {
    hide Recalled;
    hide Predicted;
    hide CaseLeaks;
    hide ClaimsFor;
    malformed, violations := [], [];
    tally := map[Fact := NOTHING, Take := NOTHING, Bet := NOTHING, Hunch := NOTHING];
    forall k: Kind ensures k in tally && tally[k] == NOTHING { assert k.Fact? || k.Take? || k.Bet? || k.Hunch?; }
    for i := 0 to |corpus|
      invariant malformed == Malformed(corpus[..i], predictions)
      invariant violations == Leaks(test, corpus[..i], predictions)
      invariant Complete(tally) && forall k: Kind :: tally[k] == TallyOf(test, corpus[..i], predictions, k)
    {
      var c := corpus[i];
      assert corpus[..i + 1][..i] == corpus[..i];
      forall k: Kind { TallyNext(test, corpus, i, predictions, k); }
      var pred := ClaimsFor(predictions, c.id);
      if pred.None? {
        malformed := malformed + [c.id];
        tally := TallyExpected(test, c, None, tally);
        continue;
      }
      violations := PushLeaks(test, c, pred.value, violations);
      tally := TallyExpected(test, c, pred, tally);
      tally := TallyClaims(test, c, pred.value, tally);
    }
    assert corpus[..|corpus|] == corpus;
  }

  method ScoreCorpus(test: RegexTest, corpus: seq<Case>, predictions: seq<Prediction>) returns (report: Report)
    ensures report == Score(test, corpus, predictions)
  {
    hide TallyOf;
    hide KindPasses;
    hide Malformed;
    hide Leaks;
    var malformed, violations, tally := TallyCorpus(test, corpus, predictions);
    var totals := NOTHING;
    var passes := malformed == [] && violations == [];
    for i := 0 to |KINDS|
      invariant totals == SumOver(Tallying(test, corpus, predictions), i)
      invariant passes == (malformed == [] && violations == [] && forall j :: 0 <= j < i ==> KindPasses(tally[KINDS[j]]))
    {
      totals := Add(totals, tally[KINDS[i]]);
      passes := passes && KindPasses(tally[KINDS[i]]);
    }
    assert KINDS[0] == Fact && KINDS[1] == Take && KINDS[2] == Bet && KINDS[3] == Hunch;
    SameTallies(tally);
    var precision, recall := Ratio(totals.precise, totals.predicted), Ratio(totals.matched, totals.expected);
    return Report(malformed, violations, tally, precision, recall, F1(precision, recall), passes);
  }

  lemma SameTallies(t: Tallies)
    requires Complete(t)
    ensures t == map[Fact := t[Fact], Take := t[Take], Bet := t[Bet], Hunch := t[Hunch]]
  {
    var listed := map[Fact := t[Fact], Take := t[Take], Bet := t[Bet], Hunch := t[Hunch]];
    forall k: Kind ensures k in listed && listed[k] == t[k] { assert k.Fact? || k.Take? || k.Bet? || k.Hunch?; }
    assert t.Keys == listed.Keys;
  }

  function SumOver(t: Kind -> Tally, i: nat): Tally
    requires i <= |KINDS|
  {
    if i == 0 then NOTHING else Add(SumOver(t, i - 1), t(KINDS[i - 1]))
  }

  // ------------------------------------------------------------ the laws

  lemma {:induction false} CountMonotone<A(!new)>(p: A -> bool, q: A -> bool, s: seq<A>)
    requires forall x :: p(x) ==> q(x)
    ensures Count(p, s) <= Count(q, s)
  {
    if s != [] {
      CountMonotone(p, q, s[..|s| - 1]);
    }
  }

  /** No more is matched than expected, no more is right than predicted. */
  lemma {:induction false} TallyBounds(test: RegexTest, corpus: seq<Case>, predictions: seq<Prediction>, kind: Kind)
    ensures var t := TallyOf(test, corpus, predictions, kind); t.matched <= t.expected && t.precise <= t.predicted
  {
    if corpus != [] {
      var c := corpus[|corpus| - 1];
      TallyBounds(test, corpus[..|corpus| - 1], predictions, kind);
      match ClaimsFor(predictions, c.id)
      case None =>
      case Some(claims) =>
        CountMonotone(Met(test, claims, kind), Owed(kind), c.expected);
        CountMonotone(Right(test, c.expected, kind), Made(kind), claims);
    }
  }

  /** What is expected of a kind does not depend on the predictions: a
      missing or malformed one takes nothing out of the denominator. */
  lemma {:induction false} NothingSkipped(test: RegexTest, corpus: seq<Case>, a: seq<Prediction>, b: seq<Prediction>, kind: Kind)
    ensures TallyOf(test, corpus, a, kind).expected == TallyOf(test, corpus, b, kind).expected
  {
    hide Count;
    hide ClaimsFor;
    if corpus != [] {
      NothingSkipped(test, corpus[..|corpus| - 1], a, b, kind);
    }
  }

  predicate SameButWeight(a: seq<Claim>, b: seq<Claim>) {
    |a| == |b| && forall i :: 0 <= i < |a| ==> a[i].kind == b[i].kind && a[i].claim == b[i].claim
  }

  lemma {:induction false} CountAlike(p: Claim -> bool, a: seq<Claim>, b: seq<Claim>)
    requires |a| == |b| && forall i :: 0 <= i < |a| ==> p(a[i]) == p(b[i])
    ensures Count(p, a) == Count(p, b)
  {
    if a != [] {
      CountAlike(p, a[..|a| - 1], b[..|b| - 1]);
    }
  }

  lemma {:induction false} CountNone<A>(p: A -> bool, s: seq<A>)
    requires forall i :: 0 <= i < |s| ==> !p(s[i])
    ensures Count(p, s) == 0
  {
    if s != [] {
      CountNone(p, s[..|s| - 1]);
    }
  }

  /** A right claim with the wrong weight is a miss of recall, not a
      hallucination: precision does not look at weights at all, and recall
      counts nothing whose weights are all out of range. */
  lemma OffRangeIsAMiss(test: RegexTest, c: Case, a: seq<Claim>, b: seq<Claim>, kind: Kind)
    requires SameButWeight(a, b)
    requires forall e, cl :: e in c.expected && cl in b ==> !(e.weightMin <= cl.weight <= e.weightMax)
    ensures CaseTally(test, c, Some(b), kind) == CaseTally(test, c, Some(a), kind).(matched := 0)
  {
    hide KindNamed;
    CountAlike(Made(kind), a, b);
    forall i | 0 <= i < |a| ensures Right(test, c.expected, kind)(a[i]) == Right(test, c.expected, kind)(b[i]) {
      SameCredit(test, c.expected, a[i], b[i]);
    }
    CountAlike(Right(test, c.expected, kind), a, b);
    forall i | 0 <= i < |c.expected| ensures !Met(test, b, kind)(c.expected[i]) {
      assert forall j :: 0 <= j < |b| ==> b[j] in b;
    }
    CountNone(Met(test, b, kind), c.expected);
  }

  lemma SameCredit(test: RegexTest, expected: seq<Expected>, a: Claim, b: Claim)
    requires a.kind == b.kind && a.claim == b.claim
    ensures IsPrecise(test, a, expected) == IsPrecise(test, b, expected)
  {
    hide KindNamed;
    assert forall i :: 0 <= i < |expected| ==> Credits(test, expected[i], a) == Credits(test, expected[i], b);
  }

  lemma {:induction false} MalformedIff(corpus: seq<Case>, predictions: seq<Prediction>)
    ensures Malformed(corpus, predictions) == [] <==>
            forall i :: 0 <= i < |corpus| ==> ClaimsFor(predictions, corpus[i].id).Some?
  {
    if corpus != [] {
      MalformedIff(corpus[..|corpus| - 1], predictions);
    }
  }

  /** A violation is a claim made for a case that a pattern it forbids matches. */
  predicate Leaked(test: RegexTest, c: Case, claims: seq<Claim>) {
    exists j, k :: 0 <= j < |c.forbid| && 0 <= k < |claims| && test(c.forbid[j], claims[k].claim)
  }

  lemma {:induction false} NoLeaksOf(test: RegexTest, id: string, re: string, claims: seq<Claim>)
    ensures LeaksOf(test, id, re, claims) == [] <==> forall k :: 0 <= k < |claims| ==> !test(re, claims[k].claim)
  {
    if claims != [] {
      var init := claims[..|claims| - 1];
      NoLeaksOf(test, id, re, init);
      assert forall k :: 0 <= k < |init| ==> init[k] == claims[k];
    }
  }

  lemma {:induction false} NoCaseLeaks(test: RegexTest, id: string, forbid: seq<string>, claims: seq<Claim>)
    ensures CaseLeaks(test, id, forbid, claims) == [] <==>
            forall j, k :: 0 <= j < |forbid| && 0 <= k < |claims| ==> !test(forbid[j], claims[k].claim)
  {
    if forbid != [] {
      NoCaseLeaks(test, id, forbid[..|forbid| - 1], claims);
      NoLeaksOf(test, id, forbid[|forbid| - 1], claims);
      var init := forbid[..|forbid| - 1];
      assert forall j :: 0 <= j < |init| ==> init[j] == forbid[j];
    }
  }

  lemma {:induction false} NoLeaksIff(test: RegexTest, corpus: seq<Case>, predictions: seq<Prediction>)
    ensures Leaks(test, corpus, predictions) == [] <==>
            forall i :: 0 <= i < |corpus| && ClaimsFor(predictions, corpus[i].id).Some? ==>
                          !Leaked(test, corpus[i], ClaimsFor(predictions, corpus[i].id).value)
  {
    hide ClaimsFor;
    if corpus != [] {
      var c := corpus[|corpus| - 1];
      NoLeaksIff(test, corpus[..|corpus| - 1], predictions);
      match ClaimsFor(predictions, c.id)
      case None =>
      case Some(claims) => NoCaseLeaks(test, c.id, c.forbid, claims);
    }
  }

  /** Over exact fractions: at least `bar` of the whole, where there is a whole. */
  predicate Reaches(part: nat, whole: nat, bar: real) {
    part as real >= bar * whole as real
  }

  lemma RatioReaches(part: nat, whole: nat, bar: real)
    requires bar <= 1.0
    ensures whole > 0 ==> (Ratio(part, whole) >= bar <==> Reaches(part, whole, bar))
    ensures Reaches(part, whole, bar) ==> Ratio(part, whole) >= bar
  {
    if whole > 0 {
      var w := whole as real;
      assert Ratio(part, whole) * w == part as real;
      if Ratio(part, whole) >= bar {
        assert Ratio(part, whole) * w >= bar * w;
      } else {
        assert Ratio(part, whole) * w < bar * w;
      }
    }
  }

  lemma ReachesAdd(p1: nat, w1: nat, p2: nat, w2: nat, bar: real)
    requires Reaches(p1, w1, bar) && Reaches(p2, w2, bar)
    ensures Reaches(p1 + p2, w1 + w2, bar)
  {
    assert bar * (w1 + w2) as real == bar * w1 as real + bar * w2 as real;
  }

  lemma KindReaches(t: Tally)
    requires KindPasses(t)
    ensures Reaches(t.precise, t.predicted, MIN_PRECISION) && Reaches(t.matched, t.expected, MIN_RECALL)
  {
    RatioReaches(t.precise, t.predicted, MIN_PRECISION);
    RatioReaches(t.matched, t.expected, MIN_RECALL);
  }

  lemma SumReaches(a: Tally, b: Tally)
    requires Reaches(a.precise, a.predicted, MIN_PRECISION) && Reaches(a.matched, a.expected, MIN_RECALL)
    requires Reaches(b.precise, b.predicted, MIN_PRECISION) && Reaches(b.matched, b.expected, MIN_RECALL)
    ensures var s := Add(a, b);
            Reaches(s.precise, s.predicted, MIN_PRECISION) && Reaches(s.matched, s.expected, MIN_RECALL)
  {
    ReachesAdd(a.precise, a.predicted, b.precise, b.predicted, MIN_PRECISION);
    ReachesAdd(a.matched, a.expected, b.matched, b.expected, MIN_RECALL);
  }

  lemma F1Bound(p: real, r: real)
    requires p >= 0.8 && r >= 0.7
    ensures F1(p, r) >= 56.0 / 75.0
  {
    var a, b := p - 0.8, r - 0.7;
    assert a * b >= 0.0;
    assert p * r == 0.56 + 0.7 * a + 0.8 * b + a * b;
    assert 2.0 * p * r == 2.0 * (p * r);
    assert 75.0 * (2.0 * p * r) >= 56.0 * (p + r);
    Divided(2.0 * p * r, p + r);
  }

  lemma Scaled(a: real, b: real, d: real)
    requires a < b && d > 0.0
    ensures a * d < b * d
  {
  }

  lemma Divided(n: real, d: real)
    requires d > 0.0 && 75.0 * n >= 56.0 * d
    ensures n / d >= 56.0 / 75.0
  {
    var q := n / d;
    assert q * d == n;
    if q < 56.0 / 75.0 {
      Scaled(q, 56.0 / 75.0, d);
    }
  }

  lemma RatioAtMostOne(part: nat, whole: nat)
    requires part <= whole
    ensures 0.0 <= Ratio(part, whole) <= 1.0
  {
    if whole > 0 {
      var q, w := Ratio(part, whole), whole as real;
      assert q * w == part as real;
      if q > 1.0 {
        Scaled(1.0, q, w);
      } else if q < 0.0 {
        Scaled(q, 0.0, w);
      }
    }
  }

  /** A graduated corpus has precision at least 0.8, recall at least 0.7 and
      f1 at least 56/75 over all kinds together, although the code checks each
      kind alone; every case has claims, and none of them a forbidden one. */
  lemma GraduationBound(test: RegexTest, corpus: seq<Case>, predictions: seq<Prediction>)
    requires Score(test, corpus, predictions).graduated
    ensures var r := Score(test, corpus, predictions);
            && 0.8 <= r.precision <= 1.0 && 0.7 <= r.recall <= 1.0 && r.f1 >= 56.0 / 75.0
            && (forall i :: 0 <= i < |corpus| ==>
                  && ClaimsFor(predictions, corpus[i].id).Some?
                  && !Leaked(test, corpus[i], ClaimsFor(predictions, corpus[i].id).value))
  {
    hide TallyOf;
    hide KindPasses;
    hide Reaches;
    hide Ratio;
    hide F1;
    hide ClaimsFor;
    hide Leaked;
    hide Malformed;
    hide Leaks;
    MalformedIff(corpus, predictions);
    NoLeaksIff(test, corpus, predictions);
    var t := Tallying(test, corpus, predictions);
    var totals := Totals(t);
    TotalsReach(t);
    TallyBounds(test, corpus, predictions, Fact);
    TallyBounds(test, corpus, predictions, Take);
    TallyBounds(test, corpus, predictions, Bet);
    TallyBounds(test, corpus, predictions, Hunch);
    RatioReaches(totals.precise, totals.predicted, MIN_PRECISION);
    RatioReaches(totals.matched, totals.expected, MIN_RECALL);
    RatioAtMostOne(totals.precise, totals.predicted);
    RatioAtMostOne(totals.matched, totals.expected);
    F1Bound(Ratio(totals.precise, totals.predicted), Ratio(totals.matched, totals.expected));
  }

  lemma TotalsReach(t: Kind -> Tally)
    requires KindPasses(t(Fact)) && KindPasses(t(Take)) && KindPasses(t(Bet)) && KindPasses(t(Hunch))
    ensures var s := Totals(t);
            Reaches(s.precise, s.predicted, MIN_PRECISION) && Reaches(s.matched, s.expected, MIN_RECALL)
  {
    hide KindPasses;
    hide Add;
    KindReaches(t(Fact));
    KindReaches(t(Take));
    KindReaches(t(Bet));
    KindReaches(t(Hunch));
    assert Reaches(0, 0, MIN_PRECISION) && Reaches(0, 0, MIN_RECALL);
    var one := Add(NOTHING, t(Fact));
    SumReaches(NOTHING, t(Fact));
    SumReaches(one, t(Take));
    SumReaches(Add(one, t(Take)), t(Bet));
    SumReaches(Add(Add(one, t(Take)), t(Bet)), t(Hunch));
  }
}
