/** `scripts/dent/ingest-dropbox.ts`: allocating slugs, and the accounts of
    the staging loop. */
module Stager {
  import opened Sorting
  import opened Text

  // ------------------------------------------------------------ the slugs

  /** The names tried for a page, in order: the base, the base with the
      extension, then with a counter from 2. */
  function Candidate(base: string, ext: string, k: nat): string {
    if k == 0 then base
    else if k == 1 then base + "-" + ext
    else base + "-" + ext + "-" + NatToString(k)
  }

  lemma CandidatesDiffer(base: string, ext: string, j: nat, k: nat)
    requires j != k
    ensures Candidate(base, ext, j) != Candidate(base, ext, k)
  {
    hide NatToString;
    if j >= 2 && k >= 2 {
      var head := base + "-" + ext + "-";
      assert Candidate(base, ext, j)[|head|..] == NatToString(j);
      assert Candidate(base, ext, k)[|head|..] == NatToString(k);
      if NatToString(j) == NatToString(k) {
        NatToStringInjective(j, k);
      }
    }
  }

  /** `slug` is the first of the candidates not seen. */
  ghost predicate IsFirstFree(seen: set<string>, base: string, ext: string, slug: string) {
    exists k: nat :: slug == Candidate(base, ext, k) && IsFree(seen, base, ext, k)
  }

  ghost predicate IsFree(seen: set<string>, base: string, ext: string, k: nat) {
    Candidate(base, ext, k) !in seen && forall j: nat :: j < k ==> Candidate(base, ext, j) in seen
  }

  lemma FirstFreeUnique(seen: set<string>, base: string, ext: string, a: string, b: string)
    requires IsFirstFree(seen, base, ext, a) && IsFirstFree(seen, base, ext, b)
    ensures a == b && a !in seen
  {
    var j: nat :| a == Candidate(base, ext, j) && IsFree(seen, base, ext, j);
    var k: nat :| b == Candidate(base, ext, k) && IsFree(seen, base, ext, k);
  }

  /** `base-ext-n`, the counters below it taken. */
  ghost predicate IsNumbered(seen: set<string>, base: string, ext: string, slug: string, n: nat) {
    && n >= 2 && slug == base + "-" + ext + "-" + NatToString(n) && slug !in seen
    && forall m: nat :: 2 <= m < n ==> base + "-" + ext + "-" + NatToString(m) in seen
  }

  /** A page keeps its own name while that is free; then it takes its type as
      well; then the first free counter from 2. */
  lemma SlugIff(seen: set<string>, base: string, ext: string, slug: string)
    ensures IsFirstFree(seen, base, ext, slug) <==>
            if base !in seen then slug == base
            else if base + "-" + ext !in seen then slug == base + "-" + ext
            else exists n: nat :: IsNumbered(seen, base, ext, slug, n)
  {
    hide NatToString;
    assert Candidate(base, ext, 0) == base && Candidate(base, ext, 1) == base + "-" + ext;
    if IsFirstFree(seen, base, ext, slug) {
      var k: nat :| slug == Candidate(base, ext, k) && IsFree(seen, base, ext, k);
      if k >= 2 {
        forall m: nat | 2 <= m < k ensures base + "-" + ext + "-" + NatToString(m) in seen {
          assert Candidate(base, ext, m) in seen;
        }
        assert IsNumbered(seen, base, ext, slug, k);
      }
    }
    if base !in seen {
      assert IsFree(seen, base, ext, 0);
    } else if base + "-" + ext !in seen {
      assert IsFree(seen, base, ext, 1);
    } else if n: nat :| IsNumbered(seen, base, ext, slug, n) {
      assert IsFree(seen, base, ext, n) && slug == Candidate(base, ext, n);
    }
  }

  // ------------------------------------------------------------- the rows

  /** What the loop sees of one manifest row: the slug of its path, its size,
      and what reading and re-reading it give (None when reading throws). */
  datatype Row = Row(slug: string, ext: string, bytes: nat, extracted: Option<string>, recovered: string)

  const UNREAD_EXTS := {"key", "pages", "numbers"}
  const MIN_CHARS := 50
  const MAX_CHARS := 800_000

  function NonSpace(s: string): (n: nat)
    ensures n <= |s|
  {
    if s == "" then 0 else NonSpace(s[..|s| - 1]) + if IsSpace(s[|s| - 1]) then 0 else 1
  }

  predicate IsLower(c: char) { 'a' <= c <= 'z' }

  predicate IsWord(c: char) { IsLower(c) || 'A' <= c <= 'Z' || IsDigit(c) || c == '_' }

  /** Where the run of lower-case letters from `i` on ends. */
  function RunEnd(s: string, i: nat): (j: nat)
    requires i <= |s|
    ensures i <= j <= |s|
    decreases |s| - i
  {
    if i < |s| && IsLower(s[i]) then RunEnd(s, i + 1) else i
  }

  /** Matches of a backslash, lower-case letters and a word boundary, from `i` on. */
  function ControlTokens(s: string, i: nat): nat
    requires i <= |s|
    decreases |s| - i
  {
    if i == |s| then 0
    else if s[i] == '\\' && RunEnd(s, i + 1) > i + 1 && (RunEnd(s, i + 1) == |s| || !IsWord(s[RunEnd(s, i + 1)])) then
      1 + ControlTokens(s, RunEnd(s, i + 1))
    else ControlTokens(s, i + 1)
  }

  predicate LooksLikeMarkupDump(s: string) {
    "{\\rtf" <= TrimStart(s) || ControlTokens(s, 0) > 300
  }

  datatype Outcome = Staged | Pointer | Failed | Review

  predicate IsRecovered(row: Row) {
    row.recovered != "" && !LooksLikeMarkupDump(row.recovered) && NonSpace(row.recovered) >= MIN_CHARS
  }

  /** Where a row ends up. */
  function Route(row: Row): Outcome {
    if row.ext in UNREAD_EXTS then Pointer
    else if row.extracted.None? then Failed
    else
      var text := row.extracted.value;
      if NonSpace(text) < MIN_CHARS then Pointer
      else if LooksLikeMarkupDump(text) && !IsRecovered(row) then Review
      else if |if LooksLikeMarkupDump(text) then row.recovered else text| > MAX_CHARS then Review
      else Staged
  }

  /** What a row adds to the downloaded bytes: everything that could be read. */
  function Read(row: Row): nat {
    if row.ext in UNREAD_EXTS || row.extracted.None? then 0 else row.bytes
  }

  function Count(rows: seq<Row>, o: Outcome): nat {
    if rows == [] then 0 else Count(rows[..|rows| - 1], o) + if Route(rows[|rows| - 1]) == o then 1 else 0
  }

  function Bytes(rows: seq<Row>): nat {
    if rows == [] then 0 else Bytes(rows[..|rows| - 1]) + Read(rows[|rows| - 1])
  }

  /** The rows staged, in order. */
  function StagedRows(rows: seq<Row>): seq<Row> {
    if rows == [] then [] else
      StagedRows(rows[..|rows| - 1]) + if Route(rows[|rows| - 1]) == Staged then [rows[|rows| - 1]] else []
  }

  function Names(slugs: seq<string>): set<string> {
    set s | s in slugs
  }

  /** Every slug is the first free one for its row, given the slugs before it. */
  ghost predicate Allocated(slugs: seq<string>, rows: seq<Row>) {
    && |slugs| == |rows|
    && forall j :: 0 <= j < |slugs| ==> IsFirstFree(Names(slugs[..j]), rows[j].slug, rows[j].ext, slugs[j])
  }

  class Staging {
    var seenSlugs: set<string>
    var log: seq<string>
    var staged: nat
    var pointers: nat
    var failed: nat
    var review: nat
    var downloaded: nat

    constructor ()
      ensures seenSlugs == {} && log == []
      ensures staged == pointers == failed == review == downloaded == 0
    {
      seenSlugs, log := {}, [];
      staged, pointers, failed, review, downloaded := 0, 0, 0, 0, 0;
    }

    /** The state after the rows so far. */
    ghost predicate Accounts(rows: seq<Row>)
      reads this
    {
      && staged == Count(rows, Staged) && pointers == Count(rows, Pointer)
      && failed == Count(rows, Failed) && review == Count(rows, Review)
      && downloaded == Bytes(rows)
      && seenSlugs == Names(log) && Allocated(log, StagedRows(rows))
    }

    method UniqueSlug(base: string, ext: string) returns (slug: string)
      modifies this`seenSlugs
      ensures IsFirstFree(old(seenSlugs), base, ext, slug)
      ensures seenSlugs == old(seenSlugs) + {slug}
    {
      hide NatToString;
      if base !in seenSlugs {
        seenSlugs := seenSlugs + {base};
        assert base == Candidate(base, ext, 0) && IsFree(old(seenSlugs), base, ext, 0);
        return base;
      }
      var cand := base + "-" + ext;
      var n := 2;
      ghost var tried := {base};
      assert Candidate(base, ext, 0) == base && Candidate(base, ext, 1) == cand;
      while cand in seenSlugs
        invariant seenSlugs == old(seenSlugs)
        invariant n >= 2 && cand == Candidate(base, ext, n - 1)
        invariant tried <= seenSlugs && forall j: nat :: j < n - 1 ==> Candidate(base, ext, j) in tried
        invariant forall s :: s in tried ==> exists j: nat :: j < n - 1 && s == Candidate(base, ext, j)
        decreases |seenSlugs - tried|
      {
        if cand in tried {
          var j: nat :| j < n - 1 && cand == Candidate(base, ext, j);
          CandidatesDiffer(base, ext, j, n - 1);
        }
        Smaller(seenSlugs - (tried + {cand}), seenSlugs - tried, cand);
        tried := tried + {cand};
        cand := base + "-" + ext + "-" + NatToString(n);
        n := n + 1;
      }
      assert IsFree(seenSlugs, base, ext, n - 1);
      seenSlugs := seenSlugs + {cand};
      return cand;
    }

    /** The loop body, for a row that fits under the download ceiling. */
    method StageRow(r: Row, ghost rows: seq<Row>)
      requires rows != [] && rows[|rows| - 1] == r && Accounts(rows[..|rows| - 1])
      modifies this
      ensures Accounts(rows)
    {
      hide NonSpace;
      hide LooksLikeMarkupDump;
      hide Allocated;
      ghost var before := rows[..|rows| - 1];
      assert StagedRows(before) + [] == StagedRows(before);
      if r.ext in UNREAD_EXTS {
        pointers := pointers + 1;
        return;
      }
      if r.extracted.None? {
        failed := failed + 1;
        return;
      }
      var text := r.extracted.value;
      downloaded := downloaded + r.bytes;
      if NonSpace(text) < MIN_CHARS {
        pointers := pointers + 1;
        return;
      }
      if LooksLikeMarkupDump(text) {
        if r.recovered != "" && !LooksLikeMarkupDump(r.recovered) && NonSpace(r.recovered) >= MIN_CHARS {
          text := r.recovered;
        } else {
          review := review + 1;
          return;
        }
      }
      if |text| > MAX_CHARS {
        review := review + 1;
        return;
      }
      assert Route(r) == Staged;
      var slug := UniqueSlug(r.slug, r.ext);
      AllocateNext(log, StagedRows(before), r, slug);
      log := log + [slug];
      staged := staged + 1;
    }

    /** The staging loop: up to `limit` rows, ended early by the ceiling. */
    method Stage(todo: seq<Row>, limit: int, cap: int) returns (processed: nat)
      requires Accounts([])
      modifies this
      ensures processed <= Limited(|todo|, limit) && Accounts(todo[..processed])
      ensures forall k :: 0 <= k < processed ==> Bytes(todo[..k]) + todo[k].bytes <= cap
      ensures processed < Limited(|todo|, limit) ==> Bytes(todo[..processed]) + todo[processed].bytes > cap
    {
      hide Bytes;
      hide Accounts;
      var end := Limited(|todo|, limit);
      processed := 0;
      assert todo[..0] == [];
      while processed < end
        invariant 0 <= processed <= end && Accounts(todo[..processed])
        invariant forall k :: 0 <= k < processed ==> Bytes(todo[..k]) + todo[k].bytes <= cap
      {
        var r := todo[processed];
        assert downloaded == Bytes(todo[..processed]) by { AccountsBytes(todo[..processed]); }
        if downloaded + r.bytes > cap { break; }
        assert todo[..processed + 1][..processed] == todo[..processed];
        StageRow(r, todo[..processed + 1]);
        processed := processed + 1;
      }
    }

    lemma AccountsBytes(rows: seq<Row>)
      requires Accounts(rows)
      ensures downloaded == Bytes(rows)
    {
    }
  }

  /** `LIMIT > 0 ? Math.min(LIMIT, todo.length) : todo.length` */
  function Limited(n: nat, limit: int): (r: nat)
    ensures r <= n
  {
    if limit > 0 && limit < n then limit else n
  }

  lemma AllocateNext(slugs: seq<string>, rows: seq<Row>, r: Row, slug: string)
    requires Allocated(slugs, rows) && IsFirstFree(Names(slugs), r.slug, r.ext, slug)
    ensures Allocated(slugs + [slug], rows + [r])
    ensures Names(slugs + [slug]) == Names(slugs) + {slug}
  {
    hide IsFirstFree;
    var more, all := slugs + [slug], rows + [r];
    assert forall j :: 0 <= j < |slugs| ==> more[..j] == slugs[..j] && more[j] == slugs[j] && all[j] == rows[j];
    assert more[..|slugs|] == slugs;
  }

  // ------------------------------------------------------------ the laws

  /** No slug is allocated twice over any sequence of calls. */
  lemma NeverRepeats(slugs: seq<string>, rows: seq<Row>, i: nat, j: nat)
    requires Allocated(slugs, rows) && i < j < |slugs|
    ensures slugs[i] != slugs[j]
  {
    assert slugs[..j][i] == slugs[i];
    assert slugs[i] in Names(slugs[..j]);
    FirstFreeUnique(Names(slugs[..j]), rows[j].slug, rows[j].ext, slugs[j], slugs[j]);
  }

  /** The slugs are a function of the rows staged. */
  lemma {:induction false} AllocationUnique(a: seq<string>, b: seq<string>, rows: seq<Row>)
    requires Allocated(a, rows) && Allocated(b, rows)
    ensures a == b
  {
    hide IsFirstFree;
    if rows != [] {
      var m := |rows| - 1;
      var ra, rb, rest := a[..m], b[..m], rows[..m];
      assert forall j :: 0 <= j < m ==> ra[..j] == a[..j] && rb[..j] == b[..j];
      AllocationUnique(ra, rb, rest);
      FirstFreeUnique(Names(a[..m]), rows[m].slug, rows[m].ext, a[m], b[m]);
      assert a == ra + [a[m]] && b == rb + [b[m]];
    }
  }

  /** Every row processed is counted once, in one of the four counters, and
      every staged one has a slug. */
  lemma {:induction false} CountsAddUp(rows: seq<Row>)
    ensures Count(rows, Staged) + Count(rows, Pointer) + Count(rows, Review) + Count(rows, Failed) == |rows|
    ensures |StagedRows(rows)| == Count(rows, Staged)
  {
    hide Route;
    if rows != [] {
      CountsAddUp(rows[..|rows| - 1]);
      var o := Route(rows[|rows| - 1]);
      assert o.Staged? || o.Pointer? || o.Review? || o.Failed?;
    }
  }

  /** The ceiling is kept: rows that each fit when they are reached never
      read more than it together. */
  lemma CeilingKept(rows: seq<Row>, cap: int)
    requires cap >= 0 && forall k :: 0 <= k < |rows| ==> Bytes(rows[..k]) + rows[k].bytes <= cap
    ensures Bytes(rows) <= cap
  {
    if rows != [] {
      var m := |rows| - 1;
      assert rows[..m] + [rows[m]] == rows;
    }
  }

  // --------------------------------------------- where a row goes, and why

  /** The characters that are not white space. */
  ghost function Inked(s: string): set<int> {
    set i | 0 <= i < |s| && !IsSpace(s[i])
  }

  lemma {:induction false} NonSpaceCounts(s: string)
    ensures NonSpace(s) == |Inked(s)|
  {
    if s == "" {
      assert Inked(s) == {};
    } else {
      var n := |s| - 1;
      NonSpaceCounts(s[..n]);
      assert Inked(s) == if IsSpace(s[n]) then Inked(s[..n]) else Inked(s[..n]) + {n};
    }
  }

  /** A control word starts at `i`: a backslash, lower-case letters up to `j`,
      and no letter, digit or underscore after them. */
  ghost predicate ControlWord(s: string, i: int, j: int) {
    && 0 <= i && i + 1 < j <= |s| && s[i] == '\\'
    && (forall k :: i < k < j ==> 'a' <= s[k] <= 'z') && (j < |s| ==> !IsWord(s[j]))
  }

  ghost predicate StartsControl(s: string, i: int) {
    exists j :: ControlWord(s, i, j)
  }

  ghost function ControlStarts(s: string, from: int): set<int> {
    set i | from <= i < |s| && StartsControl(s, i)
  }

  lemma {:induction false} RunEndStops(s: string, i: nat)
    requires i <= |s|
    ensures forall k :: i <= k < RunEnd(s, i) ==> IsLower(s[k])
    ensures RunEnd(s, i) < |s| ==> !IsLower(s[RunEnd(s, i)])
    decreases |s| - i
  {
    if i < |s| && IsLower(s[i]) {
      RunEndStops(s, i + 1);
    }
  }

  lemma ControlWordIff(s: string, i: nat, e: nat)
    requires i < |s| && e == RunEnd(s, i + 1)
    ensures StartsControl(s, i) <==> s[i] == '\\' && e > i + 1 && (e == |s| || !IsWord(s[e]))
  {
    RunEndStops(s, i + 1);
    if j :| ControlWord(s, i, j) {
      assert j == e;
    }
    if s[i] == '\\' && e > i + 1 && (e == |s| || !IsWord(s[e])) {
      assert ControlWord(s, i, e);
    }
  }

  lemma {:induction false} ControlTokensCount(s: string, i: nat)
    requires i <= |s|
    ensures ControlTokens(s, i) == |ControlStarts(s, i)|
    decreases |s| - i
  {
    hide StartsControl;
    if i == |s| {
      assert ControlStarts(s, i) == {};
    } else {
      var e := RunEnd(s, i + 1);
      ControlWordIff(s, i, e);
      if StartsControl(s, i) {
        ControlTokensCount(s, e);
        NoStartsInside(s, i, e);
        assert ControlStarts(s, i) == ControlStarts(s, e) + {i};
      } else {
        ControlTokensCount(s, i + 1);
        assert ControlStarts(s, i) == ControlStarts(s, i + 1);
      }
    }
  }

  lemma NoStartsInside(s: string, i: nat, e: nat)
    requires i < |s| && e == RunEnd(s, i + 1)
    ensures forall k :: i < k < e ==> !StartsControl(s, k)
  {
    RunEndStops(s, i + 1);
  }

  /** Rich text, or prose no one writes: `{\rtf` after white space at most, or
      more than 300 control words. */
  ghost predicate IsDump(s: string) {
    (exists n :: 0 <= n <= |s| && IsBlank(s[..n]) && "{\\rtf" <= s[n..]) || |ControlStarts(s, 0)| > 300
  }

  lemma {:induction false} TrimStartPosition(s: string) returns (n: nat)
    ensures n <= |s| && IsBlank(s[..n]) && TrimStart(s) == s[n..] && (n < |s| ==> !IsSpace(s[n]))
  {
    if s != "" && IsSpace(s[0]) {
      var m := TrimStartPosition(s[1..]);
      n := m + 1;
      assert s[..n] == [s[0]] + s[1..][..m];
    } else {
      n := 0;
    }
  }

  lemma DumpIff(s: string)
    ensures IsDump(s) <==> LooksLikeMarkupDump(s)
  {
    ControlTokensCount(s, 0);
    var n := TrimStartPosition(s);
    if k :| 0 <= k <= |s| && IsBlank(s[..k]) && "{\\rtf" <= s[k..] {
      assert s[k] == s[k..][0] == '{';
      assert forall m :: 0 <= m < n ==> s[..n][m] in s[..n];
      assert forall m :: 0 <= m < k ==> s[..k][m] in s[..k];
      assert k == n;
    }
  }

  /** Text worth having: at least 50 characters besides white space. */
  ghost predicate HasText(s: string) { |Inked(s)| >= 50 }

  ghost predicate IsUnread(row: Row) {
    row.ext == "key" || row.ext == "pages" || row.ext == "numbers"
  }

  /** The text to stage: what was extracted, or for a dump what re-reading recovers. */
  ghost predicate Yields(row: Row, text: string) {
    && !IsUnread(row) && row.extracted.Some? && HasText(row.extracted.value)
    && if IsDump(row.extracted.value)
       then text == row.recovered && text != "" && !IsDump(text) && HasText(text)
       else text == row.extracted.value
  }

  ghost predicate BecomesPointer(row: Row) {
    IsUnread(row) || (row.extracted.Some? && !HasText(row.extracted.value))
  }

  ghost predicate BecomesFailed(row: Row) {
    !IsUnread(row) && row.extracted.None?
  }

  ghost predicate BecomesStaged(row: Row) {
    exists text :: Yields(row, text) && |text| <= 800_000
  }

  ghost predicate BecomesReview(row: Row) {
    !IsUnread(row) && row.extracted.Some? && HasText(row.extracted.value) && !BecomesStaged(row)
  }

  ghost predicate Becomes(row: Row, o: Outcome) {
    match o
    case Staged => BecomesStaged(row)
    case Pointer => BecomesPointer(row)
    case Failed => BecomesFailed(row)
    case Review => BecomesReview(row)
  }

  lemma StagedIff(row: Row)
    requires !IsUnread(row) && row.extracted.Some? && HasText(row.extracted.value)
    ensures BecomesStaged(row) <==>
            if LooksLikeMarkupDump(row.extracted.value) then IsRecovered(row) && |row.recovered| <= 800_000
            else |row.extracted.value| <= 800_000
  {
    var text, recovered := row.extracted.value, row.recovered;
    DumpIff(text);
    DumpIff(recovered);
    NonSpaceCounts(recovered);
    hide LooksLikeMarkupDump;
    hide NonSpace;
    hide Inked;
    if !LooksLikeMarkupDump(text) {
      assert Yields(row, text);
    } else if IsRecovered(row) {
      assert Yields(row, recovered);
    }
  }

  /** Where a row goes, from its type, its text and what re-reading recovers. */
  lemma RouteIff(row: Row, o: Outcome)
    ensures Route(row) == o <==> Becomes(row, o)
  {
    hide LooksLikeMarkupDump;
    hide NonSpace;
    hide Inked;
    hide IsRecovered;
    if !IsUnread(row) && row.extracted.Some? {
      NonSpaceCounts(row.extracted.value);
      if HasText(row.extracted.value) {
        StagedIff(row);
        hide BecomesStaged;
      }
    }
  }

  ghost function RowsFor(rows: seq<Row>, o: Outcome): set<int> {
    set k | 0 <= k < |rows| && Becomes(rows[k], o)
  }

  lemma RowsForNext(rows: seq<Row>, n: nat, o: Outcome)
    requires |rows| == n + 1
    ensures |RowsFor(rows, o)| == |RowsFor(rows[..n], o)| + if Becomes(rows[n], o) then 1 else 0
  {
    hide Becomes;
    var before := RowsFor(rows[..n], o);
    assert RowsFor(rows, o) == if Becomes(rows[n], o) then before + {n} else before;
  }

  /** Each counter is the number of rows that belong in it. */
  lemma {:induction false} CountersMean(rows: seq<Row>, o: Outcome)
    ensures Count(rows, o) == |RowsFor(rows, o)|
  {
    hide Becomes;
    hide Route;
    if rows == [] {
      assert RowsFor(rows, o) == {};
    } else {
      var n := |rows| - 1;
      CountersMean(rows[..n], o);
      RouteIff(rows[n], o);
      hide RowsFor;
      RowsForNext(rows, n, o);
    }
  }

  /** The bytes read: those of every row that was opened and could be read. */
  lemma {:induction false} BytesMean(a: seq<Row>, b: seq<Row>)
    ensures Bytes(a + b) == Bytes(a) + Bytes(b)
    ensures |a| == 1 ==> Bytes(a) == if IsUnread(a[0]) || BecomesFailed(a[0]) then 0 else a[0].bytes
  {
    if |a| == 1 { assert a[..0] == []; }
    if b == [] {
      assert a + b == a;
    } else {
      var n := |b| - 1;
      BytesMean(a, b[..n]);
      assert (a + b)[..|a + b| - 1] == a + b[..n];
    }
  }
}
