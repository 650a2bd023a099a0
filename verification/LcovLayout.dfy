/** `scripts/merge-lcov.ts`: what the regenerated lines say — their order, and
    counters that count the lines printed beside them. */
module LcovLayout {
  import opened Sorting
  import opened Mapping
  import opened Text
  import opened Lcov
  import opened LcovMerge
  import opened LcovEmit
  import opened LcovVerdict

  // -------------------------------------------------------- counting lines

  /** A FNDA line whose function has been called. */
  ghost predicate Called(raw: string) {
    Is(raw, "FNDA") && exists hits :: ReadNumber(BeforeComma(RestOf(raw))) == Some(hits) && hits > 0
  }

  /** A DA line whose line has been run. */
  ghost predicate Ran(raw: string) {
    Is(raw, "DA") && exists ln, hits :: ReadsAs(RestOf(raw), ln, hits) && hits > 0
  }

  /** The positions from `lo` up to `hi` whose lines satisfy `p`. */
  ghost function Where(block: seq<string>, lo: nat, hi: nat, p: string -> bool): set<nat>
    requires hi <= |block|
  {
    set i: nat | lo <= i < hi && p(block[i])
  }

  ghost predicate Says(raw: string, kind: string, n: int) {
    Is(raw, kind) && ReadNumber(RestOf(raw)) == Some(n)
  }

  /** The block of one file: its name, `a` functions, `b` call counts, their
      two counters, `c` lines, their two counters, and the end marker. */
  ghost predicate LaidOut(block: seq<string>, a: nat, b: nat, c: nat) {
    && |block| == a + b + c + 7
    && Is(block[0], "TN") && Is(block[1], "SF")
    && (forall i :: 2 <= i < 2 + a ==> Is(block[i], "FN"))
    && (forall i :: 2 + a <= i < 2 + a + b ==> Is(block[i], "FNDA"))
    && Is(block[2 + a + b], "FNF") && Is(block[3 + a + b], "FNH")
    && (forall i :: 4 + a + b <= i < 4 + a + b + c ==> Is(block[i], "DA"))
    && Is(block[4 + a + b + c], "LF") && Is(block[5 + a + b + c], "LH")
    && Ends(block[6 + a + b + c])
  }

  /** The counters count the lines of the block. */
  ghost predicate Counted(block: seq<string>, a: nat, b: nat, c: nat)
    requires LaidOut(block, a, b, c)
  {
    && Says(block[2 + a + b], "FNF", a)
    && Says(block[3 + a + b], "FNH", |Where(block, 0, |block|, Called)|)
    && Says(block[4 + a + b + c], "LF", c)
    && Says(block[5 + a + b + c], "LH", |Where(block, 0, |block|, Ran)|)
  }

  /** Functions by line and then by name, calls by name, lines by number. */
  ghost predicate InOrder(block: seq<string>, a: nat, b: nat, c: nat)
    requires LaidOut(block, a, b, c)
  {
    && (forall i, j :: 2 <= i < j < 2 + a ==> FnBefore(block[i], block[j]))
    && (forall i, j :: 2 + a <= i < j < 2 + a + b ==> FndaBefore(block[i], block[j]))
    && (forall i, j :: 4 + a + b <= i < j < 4 + a + b + c ==> DaBefore(block[i], block[j]))
  }

  ghost predicate FnBefore(raw: string, next: string) {
    exists x, y :: raw == FnLine(x) && next == FnLine(y) && (x.1 < y.1 || (x.1 == y.1 && x.0 != y.0 && StringLe(x.0, y.0)))
  }

  ghost predicate FndaBefore(raw: string, next: string) {
    exists x, y :: raw == FndaLine(x) && next == FndaLine(y) && x.0 != y.0 && StringLe(x.0, y.0)
  }

  ghost predicate DaBefore(raw: string, next: string) {
    exists x, y :: raw == DaLine(x) && next == DaLine(y) && x.0 < y.0
  }

  // ------------------------------------------------- reading emitted lines

  lemma FieldIs(kind: string, rest: string)
    requires ':' !in kind
    ensures Is(Field(kind, rest), kind) && RestOf(Field(kind, rest)) == StripCr(rest)
  {
    hide StripCr;
    FieldStripped(kind, rest);
    IndexOfFirst(kind, ':', StripCr(rest));
    var line := Field(kind, StripCr(rest));
    assert line == kind + [':'] + StripCr(rest);
    assert line[|kind|] == ':';
    assert line[..|kind|] == kind && line[|kind| + 1..] == StripCr(rest);
  }

  lemma FnLineIs(e: (string, int))
    ensures Is(FnLine(e), "FN") && RestOf(FnLine(e)) == StripCr(IntToString(e.1) + "," + e.0)
    ensures Is(FndaLine(e), "FNDA") && RestOf(FndaLine(e)) == StripCr(IntToString(e.1) + "," + e.0)
  {
    hide StripCr;
    hide IntToString;
    hide Is;
    hide Field;
    FieldIs("FN", IntToString(e.1) + "," + e.0);
    FieldIs("FNDA", IntToString(e.1) + "," + e.0);
  }

  lemma ReadsFnda(e: (string, int))
    ensures Is(FndaLine(e), "FNDA") && ReadNumber(BeforeComma(RestOf(FndaLine(e)))) == Some(e.1)
    ensures AfterComma(RestOf(FndaLine(e))) == StripCr(e.0)
    ensures Called(FndaLine(e)) <==> e.1 > 0
  {
    FnLineIs(e);
    hide StripCr;
    hide IntToString;
    hide Is;
    hide RestOf;
    hide BeforeComma;
    hide AfterComma;
    hide ReadNumber;
    hide FndaLine;
    CommaFields(e.1, e.0);
    CommaFields(e.1, StripCr(e.0));
    IntRoundTrip(e.1);
  }

  lemma DaLineIs(e: (int, int))
    ensures Is(DaLine(e), "DA") && RestOf(DaLine(e)) == IntToString(e.0) + "," + IntToString(e.1)
  {
    hide StripCr;
    hide IntToString;
    hide Is;
    hide Field;
    FieldIs("DA", IntToString(e.0) + "," + IntToString(e.1));
    CommaFields(e.0, IntToString(e.1));
    IntHasNoCr(e.1);
  }

  lemma ReadsDaLine(e: (int, int))
    ensures Is(DaLine(e), "DA") && ReadsAs(RestOf(DaLine(e)), e.0, e.1)
    ensures Ran(DaLine(e)) <==> e.1 > 0
  {
    hide IntToString;
    hide Is;
    hide RestOf;
    hide BeforeComma;
    hide AfterComma;
    hide ReadNumber;
    hide DaLine;
    DaLineIs(e);
    CommaFields(e.0, IntToString(e.1));
    IntRoundTrip(e.0);
    IntRoundTrip(e.1);
    NoCommaIn(e.1);
  }

  lemma NoCommaIn(i: int)
    ensures BeforeComma(IntToString(i)) == IntToString(i)
  {
    IntChars(i);
  }

  lemma CounterSays(kind: string, n: int)
    requires ':' !in kind
    ensures Says(Field(kind, IntToString(n)), kind, n)
  {
    hide *;
    FieldIs(kind, IntToString(n));
    IntHasNoCr(n);
    IntRoundTrip(n);
    SaysOf(Field(kind, IntToString(n)), kind, n);
  }

  lemma SaysOf(raw: string, kind: string, n: int)
    requires Is(raw, kind) && ReadNumber(RestOf(raw)) == Some(n)
    ensures Says(raw, kind, n)
  {
  }

  // ------------------------------------------------------ the entry lists

  lemma WhereNext(block: seq<string>, lo: nat, i: nat, hi: nat, p: string -> bool)
    requires lo <= i && i + 1 == hi <= |block|
    ensures |Where(block, lo, hi, p)| == |Where(block, lo, i, p)| + if p(block[i]) then 1 else 0
  {
    var at, before := Where(block, lo, hi, p), Where(block, lo, i, p);
    assert at == if p(block[i]) then before + {i} else before;
  }

  lemma CoveredNext<K>(m: map<K, int>, key: K)
    requires key in m
    ensures Covered(m) == Covered(m - {key}) + if m[key] > 0 then 1 else 0
  {
    var left := set k | k in m - {key} && (m - {key})[k] > 0;
    assert (set k | k in m && m[k] > 0) == if m[key] > 0 then left + {key} else left;
  }

  /** `es` lists the entries of `m`. */
  ghost predicate Lists<K>(es: seq<(K, int)>, m: map<K, int>) {
    && (forall i, j :: 0 <= i < j < |es| ==> es[i].0 != es[j].0)
    && (forall i :: 0 <= i < |es| ==> es[i].0 in m && m[es[i].0] == es[i].1)
    && (forall k :: k in m ==> exists i :: 0 <= i < |es| && es[i].0 == k)
  }

  lemma ListsInit<K>(es: seq<(K, int)>, m: map<K, int>)
    requires Lists(es, m) && es != []
    ensures Lists(es[..|es| - 1], m - {es[|es| - 1].0})
  {
    var init, last := es[..|es| - 1], |es| - 1;
    forall k | k in m - {es[last].0} ensures exists i :: 0 <= i < |init| && init[i].0 == k {
      var i :| 0 <= i < |es| && es[i].0 == k;
      assert init[i].0 == k;
    }
  }

  /** The positive entries of a map, counted on the lines that print it. */
  lemma {:induction false} PositiveLines<K>(block: seq<string>, lo: nat, hi: nat, es: seq<(K, int)>, m: map<K, int>,
                                            p: string -> bool)
    requires Lists(es, m) && lo + |es| == hi <= |block|
    requires forall i :: 0 <= i < |es| ==> (p(block[lo + i]) <==> es[i].1 > 0)
    ensures |Where(block, lo, hi, p)| == Covered(m)
  {
    if es == [] {
      assert m.Keys == {} && Where(block, lo, hi, p) == {};
    } else {
      var last := |es| - 1;
      ListsInit(es, m);
      hide Lists;
      assert forall i :: 0 <= i < last ==> es[..last][i] == es[i];
      PositiveLines(block, lo, hi - 1, es[..last], m - {es[last].0}, p);
      WhereNext(block, lo, hi - 1, hi, p);
      ListedAt(es, m, last);
      CoveredNext(m, es[last].0);
      assert block[hi - 1] == block[lo + last];
    }
  }

  lemma ListedAt<K>(es: seq<(K, int)>, m: map<K, int>, i: nat)
    requires Lists(es, m) && i < |es|
    ensures es[i].0 in m && m[es[i].0] == es[i].1
  {
  }

  lemma FnEntriesListed(f: MergedFile)
    ensures |FnEntries(f)| == |f.fnLine|
    ensures forall i, j :: 0 <= i < j < |FnEntries(f)| ==> EntryBefore(FnEntries(f)[i], FnEntries(f)[j])
  {
    Orders();
    var es := Listing(f.fnLine.Items, FnLe);
    NoDuplicates(es, f.fnLine.Items);
    assert |f.fnLine.Items| == |f.fnLine|;
    forall i, j | 0 <= i < j < |es| ensures EntryBefore(es[i], es[j]) {
      assert FnLe(es[i], es[j]) && es[i] != es[j];
    }
  }

  ghost predicate EntryBefore(x: (string, int), y: (string, int)) {
    x.1 < y.1 || (x.1 == y.1 && x.0 != y.0 && StringLe(x.0, y.0))
  }

  lemma FndaEntriesListed(f: MergedFile)
    ensures |FndaEntries(f)| == |f.fnda| && Lists(FndaEntries(f), f.fnda)
    ensures forall i, j :: 0 <= i < j < |FndaEntries(f)| ==>
              FndaEntries(f)[i].0 != FndaEntries(f)[j].0 && StringLe(FndaEntries(f)[i].0, FndaEntries(f)[j].0)
  {
    hide StringLe;
    hide Listing;
    hide Map;
    hide Lists;
    Orders();
    var names := Listing(f.fnda.Keys, StringLe);
    NoDuplicates(names, f.fnda.Keys);
    KeyedEntries(names, FndaEntries(f), f.fnda);
    hide FndaEntries;
    NamesInOrder(names, FndaEntries(f));
  }

  lemma NamesInOrder(names: seq<string>, es: seq<(string, int)>)
    requires |names| == |es| && Sorted(names, StringLe)
    requires forall i, j :: 0 <= i < j < |names| ==> names[i] != names[j]
    requires forall i :: 0 <= i < |es| ==> es[i].0 == names[i]
    ensures forall i, j :: 0 <= i < j < |es| ==> es[i].0 != es[j].0 && StringLe(es[i].0, es[j].0)
  {
    hide StringLe;
  }

  lemma DaEntriesListed(f: MergedFile)
    ensures |DaEntries(f)| == |f.da| && Lists(DaEntries(f), f.da)
    ensures forall i, j :: 0 <= i < j < |DaEntries(f)| ==> DaEntries(f)[i].0 < DaEntries(f)[j].0
  {
    hide Listing;
    hide Map;
    hide Lists;
    Orders();
    var keys := Listing(f.da.Keys, IntLe);
    NoDuplicates(keys, f.da.Keys);
    KeyedEntries(keys, DaEntries(f), f.da);
    hide DaEntries;
    NumbersInOrder(keys, DaEntries(f));
  }

  lemma NumbersInOrder(keys: seq<int>, es: seq<(int, int)>)
    requires |keys| == |es| && Sorted(keys, IntLe)
    requires forall i, j :: 0 <= i < j < |keys| ==> keys[i] != keys[j]
    requires forall i :: 0 <= i < |es| ==> es[i].0 == keys[i]
    ensures forall i, j :: 0 <= i < j < |es| ==> es[i].0 < es[j].0
  {
    assert forall i, j :: 0 <= i < j < |keys| ==> IntLe(keys[i], keys[j]);
  }

  lemma KeyedEntries<K>(keys: seq<K>, es: seq<(K, int)>, m: map<K, int>)
    requires |keys| == |m.Keys| && forall k :: k in keys <==> k in m.Keys
    requires forall i, j :: 0 <= i < j < |keys| ==> keys[i] != keys[j]
    requires es == Map(Entry(m), keys)
    ensures |es| == |m| && Lists(es, m)
    ensures forall i :: 0 <= i < |es| ==> es[i].0 == keys[i]
  {
    forall i | 0 <= i < |es| ensures es[i].0 == keys[i] && es[i].0 in m && m[es[i].0] == es[i].1 {
      assert keys[i] in keys;
    }
    forall k | k in m ensures exists i :: 0 <= i < |es| && es[i].0 == k {
      var i :| 0 <= i < |keys| && keys[i] == k;
      assert es[i].0 == k;
    }
  }

  // -------------------------------------------------------------- the block

  /** Where every line of a block comes from. */
  lemma BlockAt(file: string, f: MergedFile, a: nat, b: nat, c: nat)
    requires a == |FnEntries(f)| && b == |FndaEntries(f)| && c == |DaEntries(f)|
    ensures var block := Block(file, f);
            && |block| == a + b + c + 7
            && block[0] == Field("TN", "") && block[1] == Field("SF", file)
            && (forall i :: 2 <= i < 2 + a ==> block[i] == FnLine(FnEntries(f)[i - 2]))
            && (forall i :: 2 + a <= i < 2 + a + b ==> block[i] == FndaLine(FndaEntries(f)[i - 2 - a]))
            && block[2 + a + b] == Field("FNF", IntToString(|f.fnLine|))
            && block[3 + a + b] == Field("FNH", IntToString(Covered(f.fnda)))
            && (forall i :: 4 + a + b <= i < 4 + a + b + c ==> block[i] == DaLine(DaEntries(f)[i - 4 - a - b]))
            && block[4 + a + b + c] == Field("LF", IntToString(|f.da|))
            && block[5 + a + b + c] == Field("LH", IntToString(Covered(f.da)))
            && block[6 + a + b + c] == END_OF_RECORD
  {
    hide FnEntries;
    hide FndaEntries;
    hide DaEntries;
    hide FnLine;
    hide FndaLine;
    hide DaLine;
    hide Field;
    hide Covered;
    hide IntToString;
  }

  lemma BlockLaidOut(file: string, f: MergedFile)
    ensures LaidOut(Block(file, f), |f.fnLine|, |f.fnda|, |f.da|)
  {
    hide *;
    FnEntriesListed(f);
    FndaEntriesListed(f);
    DaEntriesListed(f);
    BlockAt(file, f, |f.fnLine|, |f.fnda|, |f.da|);
    FieldIs("TN", "");
    FieldIs("SF", file);
    FieldIs("FNF", IntToString(|f.fnLine|));
    FieldIs("FNH", IntToString(Covered(f.fnda)));
    FieldIs("LF", IntToString(|f.da|));
    FieldIs("LH", IntToString(Covered(f.da)));
    forall e { FnLineIs(e); }
    forall e { DaLineIs(e); }
    MarkerEnds();
    LaidOutOf(Block(file, f), |f.fnLine|, |f.fnda|, |f.da|);
  }

  lemma MarkerEnds()
    ensures Ends(END_OF_RECORD)
  {
  }

  lemma LaidOutOf(block: seq<string>, a: nat, b: nat, c: nat)
    requires |block| == a + b + c + 7 && Is(block[0], "TN") && Is(block[1], "SF")
    requires forall i :: 2 <= i < 2 + a ==> Is(block[i], "FN")
    requires forall i :: 2 + a <= i < 2 + a + b ==> Is(block[i], "FNDA")
    requires Is(block[2 + a + b], "FNF") && Is(block[3 + a + b], "FNH")
    requires forall i :: 4 + a + b <= i < 4 + a + b + c ==> Is(block[i], "DA")
    requires Is(block[4 + a + b + c], "LF") && Is(block[5 + a + b + c], "LH") && Ends(block[6 + a + b + c])
    ensures LaidOut(block, a, b, c)
  {
    hide Is;
    hide Ends;
  }

  /** Only the lines of its own type count for a counter. */
  lemma CountsItsOwn(block: seq<string>, a: nat, b: nat, c: nat)
    requires LaidOut(block, a, b, c)
    ensures Where(block, 0, |block|, Called) == Where(block, 2 + a, 2 + a + b, Called)
    ensures Where(block, 0, |block|, Ran) == Where(block, 4 + a + b, 4 + a + b + c, Ran)
  {
    forall i: nat | i < |block| && Called(block[i]) ensures 2 + a <= i < 2 + a + b { OnlyFnda(block, a, b, c, i); }
    forall i: nat | i < |block| && Ran(block[i]) ensures 4 + a + b <= i < 4 + a + b + c { OnlyDa(block, a, b, c, i); }
    hide Called;
    hide Ran;
    hide LaidOut;
  }

  lemma OnlyFnda(block: seq<string>, a: nat, b: nat, c: nat, i: nat)
    requires LaidOut(block, a, b, c) && i < |block| && Is(block[i], "FNDA")
    ensures 2 + a <= i < 2 + a + b
  {
    hide KindOf;
    hide StripCr;
  }

  lemma OnlyDa(block: seq<string>, a: nat, b: nat, c: nat, i: nat)
    requires LaidOut(block, a, b, c) && i < |block| && Is(block[i], "DA")
    ensures 4 + a + b <= i < 4 + a + b + c
  {
    hide KindOf;
    hide StripCr;
  }

  lemma CalledLines(file: string, f: MergedFile, lo: nat, hi: nat)
    requires lo == 2 + |f.fnLine| && hi == lo + |f.fnda| <= |Block(file, f)|
    ensures |Where(Block(file, f), lo, hi, Called)| == Covered(f.fnda)
  {
    hide *;
    var block, es := Block(file, f), FndaEntries(f);
    FnEntriesListed(f);
    FndaEntriesListed(f);
    BlockAt(file, f, |f.fnLine|, |f.fnda|, |DaEntries(f)|);
    forall i | 0 <= i < |es| ensures Called(block[lo + i]) <==> es[i].1 > 0 {
      assert block[lo + i] == FndaLine(es[i]);
      ReadsFnda(es[i]);
    }
    PositiveLines(block, lo, hi, es, f.fnda, Called);
  }

  lemma RanLines(file: string, f: MergedFile, lo: nat, hi: nat)
    requires lo == 4 + |f.fnLine| + |f.fnda| && hi == lo + |f.da| <= |Block(file, f)|
    ensures |Where(Block(file, f), lo, hi, Ran)| == Covered(f.da)
  {
    hide *;
    var block, es := Block(file, f), DaEntries(f);
    FnEntriesListed(f);
    FndaEntriesListed(f);
    DaEntriesListed(f);
    BlockAt(file, f, |f.fnLine|, |f.fnda|, |f.da|);
    forall i | 0 <= i < |es| ensures Ran(block[lo + i]) <==> es[i].1 > 0 {
      assert block[lo + i] == DaLine(es[i]);
      ReadsDaLine(es[i]);
    }
    PositiveLines(block, lo, hi, es, f.da, Ran);
  }

  /** Every block printed counts itself: FNF and LF are the numbers of its FN
      and DA lines, FNH and LH the numbers of its FNDA and DA lines with hits. */
  lemma BlockCounts(file: string, f: MergedFile)
    ensures LaidOut(Block(file, f), |f.fnLine|, |f.fnda|, |f.da|)
    ensures Counted(Block(file, f), |f.fnLine|, |f.fnda|, |f.da|)
  {
    hide *;
    BlockLaidOut(file, f);
    var block, a, b, c := Block(file, f), |f.fnLine|, |f.fnda|, |f.da|;
    FnEntriesListed(f);
    FndaEntriesListed(f);
    DaEntriesListed(f);
    BlockAt(file, f, a, b, c);
    CountsItsOwn(block, a, b, c);
    CalledLines(file, f, 2 + a, 2 + a + b);
    RanLines(file, f, 4 + a + b, 4 + a + b + c);
    CounterSays("FNF", a);
    CounterSays("FNH", Covered(f.fnda));
    CounterSays("LF", c);
    CounterSays("LH", Covered(f.da));
    CountedOf(block, a, b, c);
  }

  lemma CountedOf(block: seq<string>, a: nat, b: nat, c: nat)
    requires LaidOut(block, a, b, c) && |block| == a + b + c + 7
    requires Says(block[2 + a + b], "FNF", a) && Says(block[3 + a + b], "FNH", |Where(block, 0, |block|, Called)|)
    requires Says(block[4 + a + b + c], "LF", c) && Says(block[5 + a + b + c], "LH", |Where(block, 0, |block|, Ran)|)
    ensures Counted(block, a, b, c)
  {
    hide Says;
    hide Where;
    hide LaidOut;
  }

  /** Functions come by line and then by name, calls by name, lines by number. */
  lemma BlockInOrder(file: string, f: MergedFile)
    ensures LaidOut(Block(file, f), |f.fnLine|, |f.fnda|, |f.da|)
    ensures InOrder(Block(file, f), |f.fnLine|, |f.fnda|, |f.da|)
  {
    hide *;
    BlockLaidOut(file, f);
    var block, a, b, c := Block(file, f), |f.fnLine|, |f.fnda|, |f.da|;
    FnEntriesListed(f);
    FndaEntriesListed(f);
    DaEntriesListed(f);
    BlockAt(file, f, a, b, c);
    var fns, fndas, das := FnEntries(f), FndaEntries(f), DaEntries(f);
    forall i, j | 2 <= i < j < 2 + a ensures FnBefore(block[i], block[j]) {
      FnOrder(fns[i - 2], fns[j - 2]);
    }
    forall i, j | 2 + a <= i < j < 2 + a + b ensures FndaBefore(block[i], block[j]) {
      FndaOrder(fndas[i - 2 - a], fndas[j - 2 - a]);
    }
    forall i, j | 4 + a + b <= i < j < 4 + a + b + c ensures DaBefore(block[i], block[j]) {
      DaOrder(das[i - 4 - a - b], das[j - 4 - a - b]);
    }
    InOrderOf(block, a, b, c);
  }

  lemma InOrderOf(block: seq<string>, a: nat, b: nat, c: nat)
    requires LaidOut(block, a, b, c) && |block| == a + b + c + 7
    requires forall i, j :: 2 <= i < j < 2 + a ==> FnBefore(block[i], block[j])
    requires forall i, j :: 2 + a <= i < j < 2 + a + b ==> FndaBefore(block[i], block[j])
    requires forall i, j :: 4 + a + b <= i < j < 4 + a + b + c ==> DaBefore(block[i], block[j])
    ensures InOrder(block, a, b, c)
  {
    hide FnBefore;
    hide FndaBefore;
    hide DaBefore;
    hide LaidOut;
  }

  lemma FnOrder(x: (string, int), y: (string, int))
    requires EntryBefore(x, y)
    ensures FnBefore(FnLine(x), FnLine(y))
  {
    hide FnLine;
    hide StringLe;
  }

  lemma FndaOrder(x: (string, int), y: (string, int))
    requires x.0 != y.0 && StringLe(x.0, y.0)
    ensures FndaBefore(FndaLine(x), FndaLine(y))
  {
    hide FndaLine;
    hide StringLe;
  }

  lemma DaOrder(x: (int, int), y: (int, int))
    requires x.0 < y.0
    ensures DaBefore(DaLine(x), DaLine(y))
  {
    hide DaLine;
  }

  // --------------------------------------------------------------- the text

  function Flat(blocks: seq<seq<string>>): seq<string> {
    if blocks == [] then [] else Flat(blocks[..|blocks| - 1]) + blocks[|blocks| - 1]
  }

  /** A block printed for `file`: laid out, counted and in order. */
  ghost predicate Prints(block: seq<string>, file: string) {
    exists a, b, c ::
      LaidOut(block, a, b, c) && block[1] == "SF:" + file && Counted(block, a, b, c) && InOrder(block, a, b, c)
  }

  ghost predicate PathsAscend(files: seq<string>) {
    forall i, j :: 0 <= i < j < |files| ==> files[i] != files[j] && StringLe(files[i], files[j])
  }

  /** The text is one block for every file, the files in path order. */
  ghost predicate PrintsFiles(text: string, m: Merged, files: seq<string>, blocks: seq<seq<string>>) {
    && text == Terminated(Flat(blocks)) && |blocks| == |files|
    && PathsAscend(files) && (forall f :: f in files <==> f in m)
    && forall k :: 0 <= k < |files| ==> Prints(blocks[k], files[k])
  }

  lemma BlockPrints(file: string, f: MergedFile)
    ensures Prints(Block(file, f), file)
  {
    BlockCounts(file, f);
    BlockInOrder(file, f);
    SecondLine(file, f);
    hide Block;
    hide LaidOut;
    hide Counted;
    hide InOrder;
    var a, b, c := |f.fnLine|, |f.fnda|, |f.da|;
    assert LaidOut(Block(file, f), a, b, c);
  }

  lemma SecondLine(file: string, f: MergedFile)
    ensures Block(file, f)[1] == "SF:" + file
  {
    hide Body;
    assert Field("SF", file) == "SF:" + file;
  }

  ghost function BlockList(m: Merged, files: seq<string>): seq<seq<string>>
    requires forall f :: f in files ==> f in m
  {
    seq(|files|, k requires 0 <= k < |files| => assert files[k] in files; Block(files[k], m[files[k]]))
  }

  lemma {:induction false} BlocksFlat(m: Merged, files: seq<string>)
    requires forall f :: f in files ==> f in m
    ensures LcovEmit.Blocks(m, files) == Flat(BlockList(m, files))
  {
    hide Block;
    if files != [] {
      var last := |files| - 1;
      BlocksFlat(m, files[..last]);
      var blocks := BlockList(m, files);
      assert blocks[..last] == BlockList(m, files[..last]);
    }
  }

  /** Whatever the map, the text printed is one block per file in path order,
      every block laid out, ordered and counting its own lines. */
  lemma EmitPrintsFiles(m: Merged)
    ensures exists files, blocks :: PrintsFiles(Emit(m), m, files, blocks)
  {
    hide Block;
    hide Prints;
    hide Terminated;
    hide StringLe;
    hide Listing;
    Orders();
    var files := Files(m);
    NoDuplicates(files, m.Keys);
    FilesAscend(m);
    BlocksFlat(m, files);
    var blocks := BlockList(m, files);
    forall k | 0 <= k < |files| ensures Prints(blocks[k], files[k]) {
      BlockPrints(files[k], m[files[k]]);
    }
    assert PrintsFiles(Emit(m), m, files, blocks);
  }

  lemma FilesAscend(m: Merged)
    ensures PathsAscend(Files(m))
  {
    hide StringLe;
    Orders();
    NoDuplicates(Files(m), m.Keys);
  }
}
