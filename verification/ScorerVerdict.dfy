/** `evals/takes-bootstrap/scorer.ts`: what the score of a corpus is worth —
    its counts as sets of entries and claims, and when it graduates. */
module ScorerVerdict {
  import opened Mapping
  import opened Text
  import opened Scorer

  // ------------------------------------------------------------- entries

  function NameOf(kind: Kind): string {
    match kind
    case Fact => "fact"
    case Take => "take"
    case Bet => "bet"
    case Hunch => "hunch"
  }

  lemma KindNamedIff(name: string, kind: Kind)
    ensures KindNamed(name) == Some(kind) <==> name == NameOf(kind)
  {
  }

  /** The last prediction for `id` is there, and has these claims. */
  ghost predicate Answers(predictions: seq<Prediction>, id: string, claims: seq<Claim>) {
    exists i :: 0 <= i < |predictions| && predictions[i] == Prediction(id, Some(claims))
      && forall j :: i < j < |predictions| ==> predictions[j].id != id
  }

  lemma {:induction false} ClaimsForIff(predictions: seq<Prediction>, id: string, claims: seq<Claim>)
    ensures ClaimsFor(predictions, id) == Some(claims) <==> Answers(predictions, id, claims)
  {
    if predictions != [] {
      var last := |predictions| - 1;
      var init := predictions[..last];
      ClaimsForIff(init, id, claims);
      assert forall i :: 0 <= i < last ==> init[i] == predictions[i];
      if predictions[last].id == id && ClaimsFor(predictions, id) == Some(claims) {
        assert predictions[last] == Prediction(id, Some(claims));
      }
    }
  }

  /** A place in the corpus: the number of a case, and of an entry or claim in it. */
  type Slot = (int, int)

  ghost function OwedSlots(corpus: seq<Case>, kind: Kind): set<Slot> {
    set i, j | 0 <= i < |corpus| && 0 <= j < |corpus[i].expected| && corpus[i].expected[j].kind == kind :: (i, j)
  }

  /** Some claim of the entry's kind matches its pattern, within its weights. */
  ghost predicate MatchedAt(test: RegexTest, e: Expected, claims: seq<Claim>) {
    exists k :: 0 <= k < |claims| && claims[k].kind == NameOf(e.kind)
      && test(e.claimRe, claims[k].claim) && e.weightMin <= claims[k].weight <= e.weightMax
  }

  /** The claim matches the pattern of some expected entry of its kind. */
  ghost predicate PreciseAt(test: RegexTest, cl: Claim, expected: seq<Expected>) {
    exists j :: 0 <= j < |expected| && cl.kind == NameOf(expected[j].kind) && test(expected[j].claimRe, cl.claim)
  }

  ghost predicate MatchedIn(test: RegexTest, corpus: seq<Case>, predictions: seq<Prediction>, s: Slot) {
    && 0 <= s.0 < |corpus| && 0 <= s.1 < |corpus[s.0].expected|
    && exists claims :: Answers(predictions, corpus[s.0].id, claims) && MatchedAt(test, corpus[s.0].expected[s.1], claims)
  }

  ghost function MatchedSlots(test: RegexTest, corpus: seq<Case>, predictions: seq<Prediction>, kind: Kind): set<Slot> {
    set s | s in OwedSlots(corpus, kind) && MatchedIn(test, corpus, predictions, s)
  }

  /** The claims made for the `i`-th case, none if it has no output. */
  function ClaimsOf(corpus: seq<Case>, predictions: seq<Prediction>, i: int): seq<Claim>
    requires 0 <= i < |corpus|
  {
    match ClaimsFor(predictions, corpus[i].id) case Some(claims) => claims case None => []
  }

  lemma ClaimsOfIff(corpus: seq<Case>, predictions: seq<Prediction>, i: int)
    requires 0 <= i < |corpus|
    ensures forall claims :: Answers(predictions, corpus[i].id, claims) ==> ClaimsOf(corpus, predictions, i) == claims
    ensures ClaimsOf(corpus, predictions, i) != [] ==>
              Answers(predictions, corpus[i].id, ClaimsOf(corpus, predictions, i))
  {
    hide ClaimsFor;
    hide Answers;
    forall claims { ClaimsForIff(predictions, corpus[i].id, claims); }
  }

  ghost function MadeSlots(corpus: seq<Case>, predictions: seq<Prediction>, kind: Kind): set<Slot> {
    set i, k | 0 <= i < |corpus| && 0 <= k < |ClaimsOf(corpus, predictions, i)|
               && ClaimsOf(corpus, predictions, i)[k].kind == NameOf(kind) :: (i, k)
  }

  ghost predicate PreciseIn(test: RegexTest, corpus: seq<Case>, predictions: seq<Prediction>, s: Slot) {
    && 0 <= s.0 < |corpus| && 0 <= s.1 < |ClaimsOf(corpus, predictions, s.0)|
    && PreciseAt(test, ClaimsOf(corpus, predictions, s.0)[s.1], corpus[s.0].expected)
  }

  ghost function PreciseSlots(test: RegexTest, corpus: seq<Case>, predictions: seq<Prediction>, kind: Kind): set<Slot> {
    set s | s in MadeSlots(corpus, predictions, kind) && PreciseIn(test, corpus, predictions, s)
  }

  // ------------------------------------------------------------ counting

  /** Row `i` of a table, its first `w` places. */
  function Row(i: int, w: nat): set<Slot> {
    set j | 0 <= j < w :: (i, j)
  }

  ghost function Pick(slots: set<Slot>, q: Slot -> bool): set<Slot> {
    set s | s in slots && q(s)
  }

  lemma RowNext(i: int, w: nat, v: nat)
    requires v == w + 1
    ensures Row(i, v) == Row(i, w) + {(i, w)} && (i, w) !in Row(i, w)
  {
  }

  lemma {:induction false} RowCounts<A>(s: seq<A>, p: A -> bool, i: int, q: Slot -> bool, w: nat)
    requires w <= |s| && forall j :: 0 <= j < |s| ==> (q((i, j)) <==> p(s[j]))
    ensures |Pick(Row(i, w), q)| == Count(p, s[..w])
  {
    if w == 0 {
      assert Pick(Row(i, 0), q) == {};
    } else {
      hide Row;
      hide Pick;
      RowCounts(s, p, i, q, w - 1);
      RowNext(i, w - 1, w);
      PickAdds(Row(i, w - 1), (i, w - 1), q);
      assert s[..w][..w - 1] == s[..w - 1];
    }
  }

  lemma PickAdds(slots: set<Slot>, s: Slot, q: Slot -> bool)
    requires s !in slots
    ensures |Pick(slots + {s}, q)| == |Pick(slots, q)| + if q(s) then 1 else 0
  {
    var before := Pick(slots, q);
    assert Pick(slots + {s}, q) == if q(s) then before + {s} else before;
  }

  /** Slots of the first `n` rows and of row `n` together. */
  lemma PickSplit(all: set<Slot>, before: set<Slot>, row: set<Slot>, n: int, q: Slot -> bool)
    requires all == before + row && (forall s :: s in before ==> s.0 < n) && forall s :: s in row ==> s.0 == n
    ensures |Pick(all, q)| == |Pick(before, q)| + |Pick(row, q)|
  {
    assert Pick(all, q) == Pick(before, q) + Pick(row, q);
    assert Pick(before, q) !! Pick(row, q);
  }

  /** All places of a table whose `i`-th row has `wide(i)` of them. */
  function Grid(n: nat, wide: int -> nat): set<Slot> {
    set i, j | 0 <= i < n && 0 <= j < wide(i) :: (i, j)
  }

  lemma GridNext(n: nat, m: nat, wide: int -> nat, q: Slot -> bool)
    requires m == n + 1
    ensures |Pick(Grid(m, wide), q)| == |Pick(Grid(n, wide), q)| + |Pick(Row(n, wide(n)), q)|
  {
    PickSplit(Grid(m, wide), Grid(n, wide), Row(n, wide(n)), n, q);
  }

  function ExpectedWide(corpus: seq<Case>): int -> nat {
    i => if 0 <= i < |corpus| then |corpus[i].expected| else 0
  }

  function ClaimsWide(corpus: seq<Case>, predictions: seq<Prediction>): int -> nat {
    i => if 0 <= i < |corpus| then |ClaimsOf(corpus, predictions, i)| else 0
  }

  function IsOwed(corpus: seq<Case>, kind: Kind): Slot -> bool {
    (s: Slot) => 0 <= s.0 < |corpus| && 0 <= s.1 < |corpus[s.0].expected| && corpus[s.0].expected[s.1].kind == kind
  }

  ghost function IsMatched(test: RegexTest, corpus: seq<Case>, predictions: seq<Prediction>, kind: Kind): Slot -> bool {
    (s: Slot) => IsOwed(corpus, kind)(s) && MatchedIn(test, corpus, predictions, s)
  }

  function IsMade(corpus: seq<Case>, predictions: seq<Prediction>, kind: Kind): Slot -> bool {
    (s: Slot) => 0 <= s.0 < |corpus| && 0 <= s.1 < |ClaimsOf(corpus, predictions, s.0)|
         && ClaimsOf(corpus, predictions, s.0)[s.1].kind == NameOf(kind)
  }

  ghost function IsRight(test: RegexTest, corpus: seq<Case>, predictions: seq<Prediction>, kind: Kind): Slot -> bool {
    (s: Slot) => IsMade(corpus, predictions, kind)(s) && PreciseIn(test, corpus, predictions, s)
  }

  lemma HitIff(test: RegexTest, e: Expected, claims: seq<Claim>)
    ensures IsHit(test, e, claims) <==> MatchedAt(test, e, claims)
  {
    hide KindNamed;
    hide NameOf;
    forall k | 0 <= k < |claims|
      ensures Hits(test, e, claims[k]) <==>
              claims[k].kind == NameOf(e.kind) && test(e.claimRe, claims[k].claim)
              && e.weightMin <= claims[k].weight <= e.weightMax
    {
      KindNamedIff(claims[k].kind, e.kind);
    }
  }

  lemma CreditIff(test: RegexTest, cl: Claim, expected: seq<Expected>)
    ensures IsPrecise(test, cl, expected) <==> PreciseAt(test, cl, expected)
  {
    hide KindNamed;
    hide NameOf;
    forall j | 0 <= j < |expected|
      ensures Credits(test, expected[j], cl) <==> cl.kind == NameOf(expected[j].kind) && test(expected[j].claimRe, cl.claim)
    {
      KindNamedIff(cl.kind, expected[j].kind);
    }
  }

  lemma OwedRow(corpus: seq<Case>, n: nat, kind: Kind)
    requires n < |corpus|
    ensures |Pick(Row(n, |corpus[n].expected|), IsOwed(corpus, kind))| == Count(Owed(kind), corpus[n].expected)
  {
    var expected := corpus[n].expected;
    RowCounts(expected, Owed(kind), n, IsOwed(corpus, kind), |expected|);
    assert expected[..|expected|] == expected;
  }

  lemma MetIff(test: RegexTest, claims: seq<Claim>, kind: Kind, e: Expected)
    ensures Met(test, claims, kind)(e) <==> e.kind == kind && MatchedAt(test, e, claims)
  {
    HitIff(test, e, claims);
  }

  lemma RightIff(test: RegexTest, expected: seq<Expected>, kind: Kind, cl: Claim)
    ensures Right(test, expected, kind)(cl) <==> cl.kind == NameOf(kind) && PreciseAt(test, cl, expected)
  {
    KindNamedIff(cl.kind, kind);
    CreditIff(test, cl, expected);
  }

  lemma MatchedInIff(test: RegexTest, corpus: seq<Case>, predictions: seq<Prediction>, n: int, j: int, kind: Kind)
    requires 0 <= n < |corpus| && 0 <= j < |corpus[n].expected|
    ensures IsMatched(test, corpus, predictions, kind)((n, j)) <==>
            corpus[n].expected[j].kind == kind && ClaimsFor(predictions, corpus[n].id).Some?
            && MatchedAt(test, corpus[n].expected[j], ClaimsFor(predictions, corpus[n].id).value)
  {
    var s: Slot, id, e := (n, j), corpus[n].id, corpus[n].expected[j];
    forall claims ensures ClaimsFor(predictions, id) == Some(claims) <==> Answers(predictions, id, claims) {
      ClaimsForIff(predictions, id, claims);
    }
    assert IsOwed(corpus, kind)(s) <==> e.kind == kind;
    assert IsMatched(test, corpus, predictions, kind)(s) <==> e.kind == kind && MatchedIn(test, corpus, predictions, s);
    if ClaimsFor(predictions, id).Some? {
      assert Answers(predictions, id, ClaimsFor(predictions, id).value);
    }
  }

  lemma MatchedRow(test: RegexTest, corpus: seq<Case>, predictions: seq<Prediction>, n: nat, kind: Kind, claims: seq<Claim>)
    requires n < |corpus| && ClaimsFor(predictions, corpus[n].id) == Some(claims)
    ensures |Pick(Row(n, |corpus[n].expected|), IsMatched(test, corpus, predictions, kind))| ==
            Count(Met(test, claims, kind), corpus[n].expected)
  {
    hide *;
    var expected, q, p := corpus[n].expected, IsMatched(test, corpus, predictions, kind), Met(test, claims, kind);
    forall j | 0 <= j < |expected| ensures q((n, j)) <==> p(expected[j]) {
      MetIff(test, claims, kind, expected[j]);
      MatchedInIff(test, corpus, predictions, n, j, kind);
    }
    RowCounts(expected, p, n, q, |expected|);
    assert expected[..|expected|] == expected;
  }

  lemma UnmatchedRow(test: RegexTest, corpus: seq<Case>, predictions: seq<Prediction>, n: nat, kind: Kind)
    requires n < |corpus| && ClaimsFor(predictions, corpus[n].id).None?
    ensures |Pick(Row(n, |corpus[n].expected|), IsMatched(test, corpus, predictions, kind))| == 0
  {
    hide ClaimsFor;
    hide IsMatched;
    var q := IsMatched(test, corpus, predictions, kind);
    forall j | 0 <= j < |corpus[n].expected| ensures !q((n, j)) {
      MatchedInIff(test, corpus, predictions, n, j, kind);
    }
    assert Pick(Row(n, |corpus[n].expected|), q) == {};
  }

  lemma MadeRow(corpus: seq<Case>, predictions: seq<Prediction>, n: nat, kind: Kind)
    requires n < |corpus|
    ensures |Pick(Row(n, |ClaimsOf(corpus, predictions, n)|), IsMade(corpus, predictions, kind))| ==
            Count(Made(kind), ClaimsOf(corpus, predictions, n))
  {
    hide KindNamed;
    hide NameOf;
    hide ClaimsOf;
    hide Count;
    var claims, q, p := ClaimsOf(corpus, predictions, n), IsMade(corpus, predictions, kind), Made(kind);
    forall j | 0 <= j < |claims| ensures q((n, j)) <==> p(claims[j]) {
      KindNamedIff(claims[j].kind, kind);
    }
    RowCounts(claims, p, n, q, |claims|);
    assert claims[..|claims|] == claims;
  }

  lemma PreciseInIff(test: RegexTest, corpus: seq<Case>, predictions: seq<Prediction>, n: int, j: int, kind: Kind)
    requires 0 <= n < |corpus| && 0 <= j < |ClaimsOf(corpus, predictions, n)|
    ensures var cl := ClaimsOf(corpus, predictions, n)[j];
            IsRight(test, corpus, predictions, kind)((n, j)) <==> Right(test, corpus[n].expected, kind)(cl)
  {
    var s: Slot, cl := (n, j), ClaimsOf(corpus, predictions, n)[j];
    RightIff(test, corpus[n].expected, kind, cl);
    assert IsMade(corpus, predictions, kind)(s) <==> cl.kind == NameOf(kind);
    assert PreciseIn(test, corpus, predictions, s) <==> PreciseAt(test, cl, corpus[n].expected);
    assert IsRight(test, corpus, predictions, kind)(s) <==> IsMade(corpus, predictions, kind)(s) && PreciseIn(test, corpus, predictions, s);
  }

  lemma RightRow(test: RegexTest, corpus: seq<Case>, predictions: seq<Prediction>, n: nat, kind: Kind)
    requires n < |corpus|
    ensures |Pick(Row(n, |ClaimsOf(corpus, predictions, n)|), IsRight(test, corpus, predictions, kind))| ==
            Count(Right(test, corpus[n].expected, kind), ClaimsOf(corpus, predictions, n))
  {
    hide *;
    var claims, q := ClaimsOf(corpus, predictions, n), IsRight(test, corpus, predictions, kind);
    var p := Right(test, corpus[n].expected, kind);
    forall j | 0 <= j < |claims| ensures q((n, j)) <==> p(claims[j]) {
      PreciseInIff(test, corpus, predictions, n, j, kind);
    }
    RowCounts(claims, p, n, q, |claims|);
    assert claims[..|claims|] == claims;
  }

  /** The tally over the first `n` cases, as numbers of slots. */
  ghost predicate Tallied(t: Tally, test: RegexTest, corpus: seq<Case>, predictions: seq<Prediction>, n: nat, kind: Kind) {
    && t.expected == |Pick(Grid(n, ExpectedWide(corpus)), IsOwed(corpus, kind))|
    && t.matched == |Pick(Grid(n, ExpectedWide(corpus)), IsMatched(test, corpus, predictions, kind))|
    && t.predicted == |Pick(Grid(n, ClaimsWide(corpus, predictions)), IsMade(corpus, predictions, kind))|
    && t.precise == |Pick(Grid(n, ClaimsWide(corpus, predictions)), IsRight(test, corpus, predictions, kind))|
  }

  lemma TalliedNext(t: Tally, test: RegexTest, corpus: seq<Case>, predictions: seq<Prediction>, n: nat, m: nat, kind: Kind)
    requires m == n + 1 <= |corpus| && Tallied(t, test, corpus, predictions, n, kind)
    ensures var c := corpus[n];
            Tallied(Add(t, CaseTally(test, c, ClaimsFor(predictions, c.id), kind)), test, corpus, predictions, m, kind)
  {
    hide Pick;
    hide Grid;
    hide Row;
    hide IsOwed;
    hide IsMatched;
    hide IsMade;
    hide IsRight;
    hide ClaimsFor;
    hide Count;
    GridNext(n, m, ExpectedWide(corpus), IsOwed(corpus, kind));
    GridNext(n, m, ExpectedWide(corpus), IsMatched(test, corpus, predictions, kind));
    GridNext(n, m, ClaimsWide(corpus, predictions), IsMade(corpus, predictions, kind));
    GridNext(n, m, ClaimsWide(corpus, predictions), IsRight(test, corpus, predictions, kind));
    OwedRow(corpus, n, kind);
    MadeRow(corpus, predictions, n, kind);
    RightRow(test, corpus, predictions, n, kind);
    match ClaimsFor(predictions, corpus[n].id)
    case Some(claims) =>
      MatchedRow(test, corpus, predictions, n, kind, claims);
    case None =>
      UnmatchedRow(test, corpus, predictions, n, kind);
      CountNone(Made(kind), []);
      CountNone(Right(test, corpus[n].expected, kind), []);
  }

  lemma NoneTallied(test: RegexTest, corpus: seq<Case>, predictions: seq<Prediction>, kind: Kind)
    ensures Tallied(NOTHING, test, corpus, predictions, 0, kind)
  {
    assert Grid(0, ExpectedWide(corpus)) == {} && Grid(0, ClaimsWide(corpus, predictions)) == {};
    hide Grid;
  }

  lemma {:induction false} CasesTallied(test: RegexTest, corpus: seq<Case>, predictions: seq<Prediction>, n: nat, kind: Kind)
    requires n <= |corpus|
    ensures Tallied(TallyOf(test, corpus[..n], predictions, kind), test, corpus, predictions, n, kind)
  {
    hide Tallied;
    hide ClaimsFor;
    hide CaseTally;
    if n == 0 {
      NoneTallied(test, corpus, predictions, kind);
    } else {
      CasesTallied(test, corpus, predictions, n - 1, kind);
      assert corpus[..n][..n - 1] == corpus[..n - 1];
      TalliedNext(TallyOf(test, corpus[..n - 1], predictions, kind), test, corpus, predictions, n - 1, n, kind);
    }
  }

  lemma ExpectedSlots(test: RegexTest, corpus: seq<Case>, predictions: seq<Prediction>, kind: Kind)
    ensures OwedSlots(corpus, kind) == Pick(Grid(|corpus|, ExpectedWide(corpus)), IsOwed(corpus, kind))
    ensures MatchedSlots(test, corpus, predictions, kind) ==
            Pick(Grid(|corpus|, ExpectedWide(corpus)), IsMatched(test, corpus, predictions, kind))
  {
    hide MatchedIn;
    assert OwedSlots(corpus, kind) == Pick(Grid(|corpus|, ExpectedWide(corpus)), IsOwed(corpus, kind));
  }

  lemma ClaimSlots(test: RegexTest, corpus: seq<Case>, predictions: seq<Prediction>, kind: Kind)
    ensures MadeSlots(corpus, predictions, kind) == Pick(Grid(|corpus|, ClaimsWide(corpus, predictions)), IsMade(corpus, predictions, kind))
    ensures PreciseSlots(test, corpus, predictions, kind) ==
            Pick(Grid(|corpus|, ClaimsWide(corpus, predictions)), IsRight(test, corpus, predictions, kind))
  {
    hide PreciseIn;
    hide ClaimsOf;
    assert MadeSlots(corpus, predictions, kind) ==
           Pick(Grid(|corpus|, ClaimsWide(corpus, predictions)), IsMade(corpus, predictions, kind));
  }

  lemma ByKind(test: RegexTest, corpus: seq<Case>, predictions: seq<Prediction>, kind: Kind)
    ensures var t := Score(test, corpus, predictions).byKind;
            kind in t && t[kind] == TallyOf(test, corpus, predictions, kind)
  {
    hide TallyOf;
    hide Malformed;
    hide Leaks;
    hide KindPasses;
    hide Ratio;
    hide F1;
    assert kind.Fact? || kind.Take? || kind.Bet? || kind.Hunch?;
  }

  /** The four counts of a kind: entries expected, entries matched, claims
      made, claims that match an expected entry. */
  lemma CountsOfKind(test: RegexTest, corpus: seq<Case>, predictions: seq<Prediction>, kind: Kind)
    ensures var t := Score(test, corpus, predictions).byKind;
            kind in t && t[kind] == Tally(|OwedSlots(corpus, kind)|, |MatchedSlots(test, corpus, predictions, kind)|,
                                          |MadeSlots(corpus, predictions, kind)|,
                                          |PreciseSlots(test, corpus, predictions, kind)|)
  {
    hide *;
    ByKind(test, corpus, predictions, kind);
    KindTallied(test, corpus, predictions, kind);
  }

  lemma KindTallied(test: RegexTest, corpus: seq<Case>, predictions: seq<Prediction>, kind: Kind)
    ensures TallyOf(test, corpus, predictions, kind) ==
            Tally(|OwedSlots(corpus, kind)|, |MatchedSlots(test, corpus, predictions, kind)|,
                  |MadeSlots(corpus, predictions, kind)|, |PreciseSlots(test, corpus, predictions, kind)|)
  {
    hide TallyOf;
    hide Pick;
    hide Grid;
    hide OwedSlots;
    hide MatchedSlots;
    hide MadeSlots;
    hide PreciseSlots;
    CasesTallied(test, corpus, predictions, |corpus|, kind);
    assert corpus[..|corpus|] == corpus;
    ExpectedSlots(test, corpus, predictions, kind);
    ClaimSlots(test, corpus, predictions, kind);
  }

  // ---------------------------------------------------------- graduation

  ghost predicate IsAnswered(predictions: seq<Prediction>, id: string) {
    exists claims :: Answers(predictions, id, claims)
  }

  ghost predicate AllAnswered(corpus: seq<Case>, predictions: seq<Prediction>) {
    forall i :: 0 <= i < |corpus| ==> IsAnswered(predictions, corpus[i].id)
  }

  /** No claim made for a case matches a pattern the case forbids. */
  ghost predicate NothingForbidden(test: RegexTest, corpus: seq<Case>, predictions: seq<Prediction>) {
    forall i, claims :: 0 <= i < |corpus| && Answers(predictions, corpus[i].id, claims) ==>
      forall re, cl: Claim :: re in corpus[i].forbid && cl in claims ==> !test(re, cl.claim)
  }

  /** At least 8 in 10 claims of the kind are right, and 7 in 10 entries matched. */
  ghost predicate Clears(test: RegexTest, corpus: seq<Case>, predictions: seq<Prediction>, kind: Kind) {
    && 10 * |PreciseSlots(test, corpus, predictions, kind)| >= 8 * |MadeSlots(corpus, predictions, kind)|
    && 10 * |MatchedSlots(test, corpus, predictions, kind)| >= 7 * |OwedSlots(corpus, kind)|
  }

  lemma PassesIff(t: Tally)
    ensures KindPasses(t) <==> 10 * t.precise >= 8 * t.predicted && 10 * t.matched >= 7 * t.expected
  {
    RatioReaches(t.precise, t.predicted, MIN_PRECISION);
    RatioReaches(t.matched, t.expected, MIN_RECALL);
    assert Reaches(t.precise, t.predicted, MIN_PRECISION) <==> 10 * t.precise >= 8 * t.predicted;
    assert Reaches(t.matched, t.expected, MIN_RECALL) <==> 10 * t.matched >= 7 * t.expected;
  }

  lemma IsAnsweredIff(predictions: seq<Prediction>, id: string)
    ensures IsAnswered(predictions, id) <==> ClaimsFor(predictions, id).Some?
  {
    if claims :| Answers(predictions, id, claims) { ClaimsForIff(predictions, id, claims); }
    if ClaimsFor(predictions, id).Some? { ClaimsForIff(predictions, id, ClaimsFor(predictions, id).value); }
  }

  lemma AnsweredIff(corpus: seq<Case>, predictions: seq<Prediction>)
    ensures AllAnswered(corpus, predictions) <==> Malformed(corpus, predictions) == []
  {
    hide ClaimsFor;
    hide IsAnswered;
    hide Malformed;
    MalformedIff(corpus, predictions);
    forall i | 0 <= i < |corpus|
      ensures IsAnswered(predictions, corpus[i].id) <==> ClaimsFor(predictions, corpus[i].id).Some?
    {
      IsAnsweredIff(predictions, corpus[i].id);
    }
  }

  lemma LeakedIff(test: RegexTest, c: Case, claims: seq<Claim>)
    ensures Leaked(test, c, claims) <==> !forall re, cl: Claim :: re in c.forbid && cl in claims ==> !test(re, cl.claim)
  {
    if re, cl :| re in c.forbid && cl in claims && test(re, cl.claim) {
      var j :| 0 <= j < |c.forbid| && c.forbid[j] == re;
      var k :| 0 <= k < |claims| && claims[k] == cl;
      assert test(c.forbid[j], claims[k].claim);
    }
    if Leaked(test, c, claims) {
      var j, k :| 0 <= j < |c.forbid| && 0 <= k < |claims| && test(c.forbid[j], claims[k].claim);
      assert c.forbid[j] in c.forbid && claims[k] in claims;
    }
  }

  lemma ForbiddenIff(test: RegexTest, corpus: seq<Case>, predictions: seq<Prediction>)
    ensures NothingForbidden(test, corpus, predictions) <==> Leaks(test, corpus, predictions) == []
  {
    NoLeaksIff(test, corpus, predictions);
    forall i, claims | 0 <= i < |corpus|
      ensures ClaimsFor(predictions, corpus[i].id) == Some(claims) <==> Answers(predictions, corpus[i].id, claims)
      ensures Leaked(test, corpus[i], claims) <==>
              !forall re, cl: Claim :: re in corpus[i].forbid && cl in claims ==> !test(re, cl.claim)
    {
      ClaimsForIff(predictions, corpus[i].id, claims);
      LeakedIff(test, corpus[i], claims);
    }
    hide Leaked;
    hide Leaks;
    if NothingForbidden(test, corpus, predictions) {
      forall i | 0 <= i < |corpus| && ClaimsFor(predictions, corpus[i].id).Some?
        ensures !Leaked(test, corpus[i], ClaimsFor(predictions, corpus[i].id).value)
      {
        assert Answers(predictions, corpus[i].id, ClaimsFor(predictions, corpus[i].id).value);
      }
    }
  }

  /** A corpus graduates exactly when every case has claims, no claim matches
      a pattern its case forbids, and every kind clears both bars. */
  lemma GraduatesIff(test: RegexTest, corpus: seq<Case>, predictions: seq<Prediction>)
    ensures Score(test, corpus, predictions).graduated <==>
            && AllAnswered(corpus, predictions) && NothingForbidden(test, corpus, predictions)
            && forall kind :: Clears(test, corpus, predictions, kind)
  {
    hide *;
    AnsweredIff(corpus, predictions);
    ForbiddenIff(test, corpus, predictions);
    AllKinds(test, corpus, predictions);
    GraduatedParts(test, corpus, predictions);
  }

  lemma GraduatedParts(test: RegexTest, corpus: seq<Case>, predictions: seq<Prediction>)
    ensures Score(test, corpus, predictions).graduated <==>
            && Malformed(corpus, predictions) == [] && Leaks(test, corpus, predictions) == []
            && KindPasses(TallyOf(test, corpus, predictions, Fact)) && KindPasses(TallyOf(test, corpus, predictions, Take))
            && KindPasses(TallyOf(test, corpus, predictions, Bet)) && KindPasses(TallyOf(test, corpus, predictions, Hunch))
  {
    hide Malformed;
    hide Leaks;
    hide KindPasses;
    hide TallyOf;
    hide Ratio;
    hide F1;
  }

  lemma ClearsIff(test: RegexTest, corpus: seq<Case>, predictions: seq<Prediction>, kind: Kind)
    ensures Clears(test, corpus, predictions, kind) <==> KindPasses(TallyOf(test, corpus, predictions, kind))
  {
    KindTallied(test, corpus, predictions, kind);
    PassesIff(TallyOf(test, corpus, predictions, kind));
    hide KindPasses;
    hide TallyOf;
  }

  lemma AllKinds(test: RegexTest, corpus: seq<Case>, predictions: seq<Prediction>)
    ensures (forall kind :: Clears(test, corpus, predictions, kind)) <==>
            && KindPasses(TallyOf(test, corpus, predictions, Fact)) && KindPasses(TallyOf(test, corpus, predictions, Take))
            && KindPasses(TallyOf(test, corpus, predictions, Bet)) && KindPasses(TallyOf(test, corpus, predictions, Hunch))
  {
    hide KindPasses;
    hide TallyOf;
    forall kind: Kind
      ensures Clears(test, corpus, predictions, kind) <==> KindPasses(TallyOf(test, corpus, predictions, kind))
      ensures kind.Fact? || kind.Take? || kind.Bet? || kind.Hunch?
    {
      ClearsIff(test, corpus, predictions, kind);
    }
    assert Clears(test, corpus, predictions, Fact) <==> KindPasses(TallyOf(test, corpus, predictions, Fact));
    assert Clears(test, corpus, predictions, Take) <==> KindPasses(TallyOf(test, corpus, predictions, Take));
    assert Clears(test, corpus, predictions, Bet) <==> KindPasses(TallyOf(test, corpus, predictions, Bet));
    assert Clears(test, corpus, predictions, Hunch) <==> KindPasses(TallyOf(test, corpus, predictions, Hunch));
  }

  // -------------------------------------------------- what is reported

  /** Some case of the corpus has this id. */
  ghost predicate HasCase(corpus: seq<Case>, id: string) {
    exists c :: c in corpus && c.id == id
  }

  lemma {:induction false} MalformedListed(corpus: seq<Case>, predictions: seq<Prediction>, id: string)
    ensures id in Malformed(corpus, predictions) <==> HasCase(corpus, id) && !IsAnswered(predictions, id)
  {
    hide IsAnswered;
    hide ClaimsFor;
    IsAnsweredIff(predictions, id);
    if corpus != [] {
      var last := corpus[|corpus| - 1];
      MalformedListed(corpus[..|corpus| - 1], predictions, id);
      assert corpus == corpus[..|corpus| - 1] + [last];
      assert HasCase(corpus, id) <==> HasCase(corpus[..|corpus| - 1], id) || last.id == id by {
        if last.id == id { assert last in corpus; }
        if c :| c in corpus[..|corpus| - 1] && c.id == id { assert c in corpus; }
      }
    }
  }

  /** A claim made for a case, matched by a pattern the case forbids. */
  ghost predicate Violates(test: RegexTest, c: Case, claims: seq<Claim>, v: Violation) {
    && c.id == v.id && v.forbidRe in c.forbid && test(v.forbidRe, v.claim)
    && exists cl :: cl in claims && cl.claim == v.claim
  }

  ghost predicate CaseViolates(test: RegexTest, c: Case, predictions: seq<Prediction>, v: Violation) {
    exists claims :: Answers(predictions, c.id, claims) && Violates(test, c, claims, v)
  }

  ghost predicate IsViolation(test: RegexTest, corpus: seq<Case>, predictions: seq<Prediction>, v: Violation) {
    exists c :: c in corpus && CaseViolates(test, c, predictions, v)
  }

  lemma {:induction false} LeaksOfListed(test: RegexTest, id: string, re: string, claims: seq<Claim>, v: Violation)
    ensures v in LeaksOf(test, id, re, claims) <==>
            v.id == id && v.forbidRe == re && test(re, v.claim) && exists cl :: cl in claims && cl.claim == v.claim
  {
    if claims != [] {
      var n := |claims| - 1;
      LeaksOfListed(test, id, re, claims[..n], v);
      assert claims == claims[..n] + [claims[n]];
      assert claims[n] in claims;
      forall cl { InLast(claims, cl); }
    }
  }

  lemma {:induction false} CaseLeaksListed(test: RegexTest, id: string, forbid: seq<string>, claims: seq<Claim>, v: Violation)
    ensures v in CaseLeaks(test, id, forbid, claims) <==>
            v.id == id && v.forbidRe in forbid && test(v.forbidRe, v.claim) && exists cl :: cl in claims && cl.claim == v.claim
  {
    hide LeaksOf;
    if forbid != [] {
      var n := |forbid| - 1;
      CaseLeaksListed(test, id, forbid[..n], claims, v);
      LeaksOfListed(test, id, forbid[n], claims, v);
      InLast(forbid, v.forbidRe);
    }
  }

  lemma {:induction false} ViolationsListed(test: RegexTest, corpus: seq<Case>, predictions: seq<Prediction>, v: Violation)
    ensures v in Leaks(test, corpus, predictions) <==> IsViolation(test, corpus, predictions, v)
  {
    hide CaseViolates;
    hide ClaimsFor;
    hide CaseLeaks;
    if corpus != [] {
      var n := |corpus| - 1;
      ViolationsListed(test, corpus[..n], predictions, v);
      forall c { InLast(corpus, c); }
      CaseViolatesIff(test, corpus[n], predictions, v);
      assert corpus[n] in corpus;
    }
  }

  lemma CaseViolatesIff(test: RegexTest, c: Case, predictions: seq<Prediction>, v: Violation)
    ensures CaseViolates(test, c, predictions, v) <==>
            match ClaimsFor(predictions, c.id)
            case None => false
            case Some(claims) => v in CaseLeaks(test, c.id, c.forbid, claims)
  {
    forall claims ensures ClaimsFor(predictions, c.id) == Some(claims) <==> Answers(predictions, c.id, claims) {
      ClaimsForIff(predictions, c.id, claims);
    }
    match ClaimsFor(predictions, c.id)
    case None =>
    case Some(claims) =>
      CaseLeaksListed(test, c.id, c.forbid, claims, v);
      assert Answers(predictions, c.id, claims);
  }

  /** The report names exactly the cases without claims and the claims that
      match what their case forbids. */
  lemma Reported(test: RegexTest, corpus: seq<Case>, predictions: seq<Prediction>)
    ensures var r := Score(test, corpus, predictions);
            && (forall id :: id in r.malformed <==> HasCase(corpus, id) && !IsAnswered(predictions, id))
            && (forall v :: v in r.violations <==> IsViolation(test, corpus, predictions, v))
  {
    hide *;
    forall id { MalformedListed(corpus, predictions, id); }
    forall v { ViolationsListed(test, corpus, predictions, v); }
    ReportLists(test, corpus, predictions);
  }

  lemma ReportLists(test: RegexTest, corpus: seq<Case>, predictions: seq<Prediction>)
    ensures Score(test, corpus, predictions).malformed == Malformed(corpus, predictions)
    ensures Score(test, corpus, predictions).violations == Leaks(test, corpus, predictions)
  {
    hide Malformed;
    hide Leaks;
    hide TallyOf;
    hide Ratio;
    hide F1;
    hide KindPasses;
  }

  // ----------------------------------------------------- the overall score

  ghost function MadeInAll(corpus: seq<Case>, predictions: seq<Prediction>): nat {
    |MadeSlots(corpus, predictions, Fact)| + |MadeSlots(corpus, predictions, Take)|
    + |MadeSlots(corpus, predictions, Bet)| + |MadeSlots(corpus, predictions, Hunch)|
  }

  ghost function PreciseInAll(test: RegexTest, corpus: seq<Case>, predictions: seq<Prediction>): nat {
    |PreciseSlots(test, corpus, predictions, Fact)| + |PreciseSlots(test, corpus, predictions, Take)|
    + |PreciseSlots(test, corpus, predictions, Bet)| + |PreciseSlots(test, corpus, predictions, Hunch)|
  }

  ghost function OwedInAll(corpus: seq<Case>): nat {
    |OwedSlots(corpus, Fact)| + |OwedSlots(corpus, Take)| + |OwedSlots(corpus, Bet)| + |OwedSlots(corpus, Hunch)|
  }

  ghost function MatchedInAll(test: RegexTest, corpus: seq<Case>, predictions: seq<Prediction>): nat {
    |MatchedSlots(test, corpus, predictions, Fact)| + |MatchedSlots(test, corpus, predictions, Take)|
    + |MatchedSlots(test, corpus, predictions, Bet)| + |MatchedSlots(test, corpus, predictions, Hunch)|
  }

  /** A share of a whole; of nothing it is 1. */
  ghost predicate IsShare(share: real, part: nat, whole: nat) {
    if whole == 0 then share == 1.0 else share * whole as real == part as real
  }

  lemma RatioIsShare(part: nat, whole: nat)
    ensures IsShare(Ratio(part, whole), part, whole)
  {
  }

  lemma F1Harmonic(p: real, r: real)
    ensures F1(p, r) * (p + r) == if p + r == 0.0 then 0.0 else 2.0 * p * r
    ensures p + r == 0.0 ==> F1(p, r) == 0.0
  {
  }

  /** Precision is the share of the claims that are right, recall the share of
      the entries that are matched, and f1 their harmonic mean, 0 when both are. */
  lemma OverallScore(test: RegexTest, corpus: seq<Case>, predictions: seq<Prediction>)
    ensures var r := Score(test, corpus, predictions);
            && IsShare(r.precision, PreciseInAll(test, corpus, predictions), MadeInAll(corpus, predictions))
            && IsShare(r.recall, MatchedInAll(test, corpus, predictions), OwedInAll(corpus))
            && r.precision >= 0.0 && r.recall >= 0.0
            && r.f1 * (r.precision + r.recall) == 2.0 * r.precision * r.recall
            && (r.precision + r.recall == 0.0 ==> r.f1 == 0.0)
  {
    hide *;
    var r := Score(test, corpus, predictions);
    var precise, made := PreciseInAll(test, corpus, predictions), MadeInAll(corpus, predictions);
    var matched, owed := MatchedInAll(test, corpus, predictions), OwedInAll(corpus);
    OverallParts(test, corpus, predictions);
    RatioIsShare(precise, made);
    RatioIsShare(matched, owed);
    RatioNonNegative(precise, made);
    RatioNonNegative(matched, owed);
    F1Harmonic(r.precision, r.recall);
    NoProduct(r.precision, r.recall);
  }

  lemma OverallParts(test: RegexTest, corpus: seq<Case>, predictions: seq<Prediction>)
    ensures var r := Score(test, corpus, predictions);
            && r.precision == Ratio(PreciseInAll(test, corpus, predictions), MadeInAll(corpus, predictions))
            && r.recall == Ratio(MatchedInAll(test, corpus, predictions), OwedInAll(corpus))
            && r.f1 == F1(r.precision, r.recall)
  {
    hide *;
    TotalsInAll(test, corpus, predictions);
    ScoreParts(test, corpus, predictions);
  }

  lemma ScoreParts(test: RegexTest, corpus: seq<Case>, predictions: seq<Prediction>)
    ensures var r, totals := Score(test, corpus, predictions), Totals(Tallying(test, corpus, predictions));
            && r.precision == Ratio(totals.precise, totals.predicted) && r.recall == Ratio(totals.matched, totals.expected)
            && r.f1 == F1(r.precision, r.recall)
  {
    hide Totals;
    hide TallyOf;
    hide Ratio;
    hide F1;
    hide Malformed;
    hide Leaks;
    hide KindPasses;
  }

  lemma KindSummed(test: RegexTest, corpus: seq<Case>, predictions: seq<Prediction>, kind: Kind)
    ensures Tallying(test, corpus, predictions)(kind) ==
            Tally(|OwedSlots(corpus, kind)|, |MatchedSlots(test, corpus, predictions, kind)|,
                  |MadeSlots(corpus, predictions, kind)|, |PreciseSlots(test, corpus, predictions, kind)|)
  {
    KindTallied(test, corpus, predictions, kind);
  }

  lemma TotalsSum(t: Kind -> Tally)
    ensures Totals(t) == Tally(t(Fact).expected + t(Take).expected + t(Bet).expected + t(Hunch).expected,
                               t(Fact).matched + t(Take).matched + t(Bet).matched + t(Hunch).matched,
                               t(Fact).predicted + t(Take).predicted + t(Bet).predicted + t(Hunch).predicted,
                               t(Fact).precise + t(Take).precise + t(Bet).precise + t(Hunch).precise)
  {
  }

  lemma TotalsInAll(test: RegexTest, corpus: seq<Case>, predictions: seq<Prediction>)
    ensures Totals(Tallying(test, corpus, predictions)) ==
            Tally(OwedInAll(corpus), MatchedInAll(test, corpus, predictions),
                  MadeInAll(corpus, predictions), PreciseInAll(test, corpus, predictions))
  {
    hide Tallying;
    hide Totals;
    hide MadeSlots;
    hide PreciseSlots;
    hide OwedSlots;
    hide MatchedSlots;
    KindSummed(test, corpus, predictions, Fact);
    KindSummed(test, corpus, predictions, Take);
    KindSummed(test, corpus, predictions, Bet);
    KindSummed(test, corpus, predictions, Hunch);
    TotalsSum(Tallying(test, corpus, predictions));
  }

  lemma RatioNonNegative(part: nat, whole: nat)
    ensures Ratio(part, whole) >= 0.0
  {
  }

  lemma NoProduct(p: real, r: real)
    requires p >= 0.0 && r >= 0.0
    ensures p + r == 0.0 ==> 2.0 * p * r == 0.0
  {
    if p + r == 0.0 {
      assert p == 0.0 && r == 0.0;
    }
  }
}
