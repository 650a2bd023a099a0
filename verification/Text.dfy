/** The string operations the scripts lean on: splitting and joining on a
    separator, trimming, decimal integers, and the ordering of strings. */
module Text {
  import opened Sorting

  // ---------------------------------------------------------------- pieces

  predicate EndsWith(s: string, suffix: string) {
    |suffix| <= |s| && s[|s| - |suffix|..] == suffix
  }

  ghost predicate HasEnd(s: string, suffix: string) {
    exists front :: s == front + suffix
  }

  ghost predicate HasStart(s: string, prefix: string) {
    exists rest :: s == prefix + rest
  }

  lemma HasEndIff(s: string, suffix: string)
    ensures HasEnd(s, suffix) <==> EndsWith(s, suffix)
  {
    if EndsWith(s, suffix) { assert s == s[..|s| - |suffix|] + suffix; }
    if front :| s == front + suffix { assert s[|s| - |suffix|..] == suffix; }
  }

  lemma HasStartIff(s: string, prefix: string)
    ensures HasStart(s, prefix) <==> prefix <= s
  {
    if prefix <= s { assert s == prefix + s[|prefix|..]; }
  }

  /** `s.indexOf(c)`: the first position of `c`, or -1. */
  function IndexOf(s: string, c: char): (i: int)
    ensures -1 <= i < |s|
    ensures i >= 0 ==> s[i] == c && c !in s[..i]
    ensures i < 0 <==> c !in s
  {
    if s == "" then -1
    else if s[0] == c then 0
    else
      var i := IndexOf(s[1..], c);
      if i < 0 then -1 else
        assert s[..i + 1] == [s[0]] + s[1..][..i];
        i + 1
  }

  /** `a + c + b` is cut at `|a|` when `c` does not occur in `a`. */
  lemma IndexOfFirst(a: string, c: char, b: string)
    requires c !in a
    ensures IndexOf(a + [c] + b, c) == |a|
  {
    var s := a + [c] + b;
    var i := IndexOf(s, c);
    assert s[|a|] == c;
    assert forall j :: 0 <= j < |a| ==> s[j] == a[j] && a[j] in a;
    assert forall j :: 0 <= j < i ==> s[..i][j] == s[j];
  }

  /** `s.split(sep)`: always at least one piece. */
  function Split(s: string, sep: char): (r: seq<string>)
    ensures |r| >= 1
  {
    if s == "" then [""]
    else
      var rest := Split(s[1..], sep);
      if s[0] == sep then [""] + rest else [[s[0]] + rest[0]] + rest[1..]
  }

  lemma {:induction false} SplitPieces(s: string, sep: char)
    ensures forall p :: p in Split(s, sep) ==> sep !in p
  {
    if s != "" {
      SplitPieces(s[1..], sep);
    }
  }

  lemma {:induction false} SplitWhole(a: string, sep: char)
    requires sep !in a
    ensures Split(a, sep) == [a]
  {
    if a != "" {
      SplitWhole(a[1..], sep);
      assert [a[0]] + a[1..] == a;
    }
  }

  lemma {:induction false} SplitHead(a: string, sep: char, b: string)
    requires sep !in a
    ensures Split(a + [sep] + b, sep) == [a] + Split(b, sep)
  {
    var s := a + [sep] + b;
    if a == "" {
      assert s[1..] == b;
    } else {
      assert s[1..] == a[1..] + [sep] + b;
      SplitHead(a[1..], sep, b);
      assert [a[0]] + a[1..] == a;
    }
  }

  /** Every line followed by its newline. */
  function Terminated(lines: seq<string>): string {
    if lines == [] then "" else lines[0] + "\n" + Terminated(lines[1..])
  }

  /** `lines.join("\n")`. */
  function JoinLines(lines: seq<string>): string {
    if lines == [] then "" else
    if |lines| == 1 then lines[0] else lines[0] + "\n" + JoinLines(lines[1..])
  }

  lemma {:induction false} JoinIsTerminated(lines: seq<string>)
    requires lines != []
    ensures JoinLines(lines) + "\n" == Terminated(lines)
  {
    if |lines| == 1 {
      assert lines[1..] == [];
      assert lines[0] + "\n" + "" == lines[0] + "\n";
    } else {
      JoinIsTerminated(lines[1..]);
      assert JoinLines(lines) + "\n" == lines[0] + "\n" + (JoinLines(lines[1..]) + "\n");
    }
  }

  ghost predicate OneLiners(lines: seq<string>) {
    forall l :: l in lines ==> '\n' !in l
  }

  lemma OneLinersConcat(a: seq<string>, b: seq<string>)
    requires OneLiners(a) && OneLiners(b)
    ensures OneLiners(a + b)
  {
  }

  lemma {:induction false} TerminatedConcat(a: seq<string>, b: seq<string>)
    ensures Terminated(a + b) == Terminated(a) + Terminated(b)
  {
    if a == [] {
      assert a + b == b;
    } else {
      assert (a + b)[1..] == a[1..] + b;
      TerminatedConcat(a[1..], b);
    }
  }

  lemma {:induction false} SplitTerminated(lines: seq<string>, tail: string)
    requires OneLiners(lines)
    ensures Split(Terminated(lines) + tail, '\n') == lines + Split(tail, '\n')
  {
    hide Split;
    if lines == [] {
      assert "" + tail == tail;
    } else {
      var rest := Terminated(lines[1..]) + tail;
      assert Terminated(lines) + tail == lines[0] + ['\n'] + rest;
      assert lines == [lines[0]] + lines[1..];
      assert lines[0] in lines;
      assert forall l :: l in lines[1..] ==> l in lines;
      hide Terminated;
      SplitHead(lines[0], '\n', rest);
      SplitTerminated(lines[1..], tail);
    }
  }

  lemma {:induction false} SplitJoined(lines: seq<string>)
    requires lines != [] && OneLiners(lines)
    ensures Split(JoinLines(lines), '\n') == lines
  {
    assert lines[0] in lines;
    if |lines| == 1 {
      SplitWhole(lines[0], '\n');
    } else {
      assert forall l :: l in lines[1..] ==> l in lines;
      assert JoinLines(lines) == lines[0] + ['\n'] + JoinLines(lines[1..]);
      SplitHead(lines[0], '\n', JoinLines(lines[1..]));
      SplitJoined(lines[1..]);
    }
  }

  /** A prefix of a terminated text is some whole lines and a cut of the next one. */
  lemma {:induction false} CutTerminated(lines: seq<string>, k: nat) returns (i: nat, c: nat)
    requires k <= |Terminated(lines)|
    ensures i <= |lines|
    ensures i < |lines| ==> c <= |lines[i]|
    ensures i == |lines| ==> c == 0
    ensures Terminated(lines)[..k] ==
            Terminated(lines[..i]) + (if i < |lines| then lines[i][..c] else "")
  {
    if lines == [] {
      i, c := 0, 0;
    } else if k <= |lines[0]| {
      i, c := 0, k;
      assert Terminated(lines)[..k] == lines[0][..k];
    } else {
      var i', c' := CutTerminated(lines[1..], k - |lines[0]| - 1);
      i, c := i' + 1, c';
      assert lines[..i] == [lines[0]] + lines[1..][..i'];
      assert lines[..i][1..] == lines[1..][..i'];
      assert Terminated(lines)[..k] == lines[0] + "\n" + Terminated(lines[1..])[..k - |lines[0]| - 1];
    }
  }

  // -------------------------------------------------------------- trimming

  /** The characters `String.prototype.trim` removes. */
  predicate IsSpace(c: char) {
    c in {' ', '\t', '\n', '\r', '\U{000B}', '\U{000C}', '\U{00A0}', '\U{1680}',
          '\U{2028}', '\U{2029}', '\U{202F}', '\U{205F}', '\U{3000}', '\U{FEFF}'}
    || '\U{2000}' <= c <= '\U{200A}'
  }

  /** The characters the dot of a regular expression refuses. */
  predicate IsLineTerminator(c: char) {
    c in {'\n', '\r', '\U{2028}', '\U{2029}'}
  }

  predicate IsBlank(s: string) {
    forall c :: c in s ==> IsSpace(c)
  }

  function TrimStart(s: string): string {
    if s != "" && IsSpace(s[0]) then TrimStart(s[1..]) else s
  }

  function TrimEnd(s: string): string {
    if s != "" && IsSpace(s[|s| - 1]) then TrimEnd(s[..|s| - 1]) else s
  }

  /** `s.trim()` */
  function Trim(s: string): string {
    TrimEnd(TrimStart(s))
  }

  /** What `trim` leaves alone: nothing to remove at either end. */
  predicate IsTrimmed(s: string) {
    s == "" || (!IsSpace(s[0]) && !IsSpace(s[|s| - 1]))
  }

  lemma TrimmedIsKept(s: string)
    requires IsTrimmed(s)
    ensures Trim(s) == s
  {
  }

  lemma {:induction false} TrimEndShape(s: string)
    ensures TrimEnd(s) <= s
    ensures TrimEnd(s) == "" || !IsSpace(TrimEnd(s)[|TrimEnd(s)| - 1])
    ensures TrimEnd(s) == "" <==> IsBlank(s)
  {
    if s != "" && IsSpace(s[|s| - 1]) {
      TrimEndShape(s[..|s| - 1]);
      assert s == s[..|s| - 1] + [s[|s| - 1]];
    } else if s != "" {
      assert s[|s| - 1] in s;
    }
  }

  lemma {:induction false} TrimStartShape(s: string)
    ensures TrimStart(s) == "" || !IsSpace(TrimStart(s)[0])
    ensures TrimStart(s) == "" <==> IsBlank(s)
    ensures forall c :: c in TrimStart(s) ==> c in s
  {
    if s != "" && IsSpace(s[0]) {
      TrimStartShape(s[1..]);
      assert s == [s[0]] + s[1..];
    } else if s != "" {
      assert s[0] in s;
    }
  }

  /** `trim` yields a trimmed string made of the same characters, empty
      exactly on blank input. */
  lemma TrimShape(s: string)
    ensures IsTrimmed(Trim(s))
    ensures Trim(s) == "" <==> IsBlank(s)
    ensures forall c :: c in Trim(s) ==> c in s
  {
    TrimStartShape(s);
    var t := TrimStart(s);
    TrimEndShape(t);
    assert t != "" ==> t[0] in t;
  }

  lemma {:induction false} TrimEndPrefix(a: string, b: string)
    requires a != "" && !IsSpace(a[|a| - 1])
    ensures a <= TrimEnd(a + b)
  {
    if b != "" && IsSpace(b[|b| - 1]) {
      assert (a + b)[..|a + b| - 1] == a + b[..|b| - 1];
      TrimEndPrefix(a, b[..|b| - 1]);
    } else if b == "" {
      assert a + b == a;
    }
  }

  lemma {:induction false} TrimStartPadded(a: string, t: string)
    requires IsBlank(a) && t != "" && !IsSpace(t[0])
    ensures TrimStart(a + t) == t
  {
    if a == "" {
      assert a + t == t;
    } else {
      assert a[0] in a;
      assert (a + t)[1..] == a[1..] + t;
      assert forall c :: c in a[1..] ==> c in a;
      TrimStartPadded(a[1..], t);
    }
  }

  lemma {:induction false} TrimEndPadded(t: string, b: string)
    requires IsBlank(b) && t != "" && !IsSpace(t[|t| - 1])
    ensures TrimEnd(t + b) == t
  {
    if b == "" {
      assert t + b == t;
    } else {
      assert b[|b| - 1] in b;
      assert (t + b)[..|t + b| - 1] == t + b[..|b| - 1];
      TrimEndPadded(t, b[..|b| - 1]);
    }
  }

  lemma TrimPadded(a: string, t: string, b: string)
    requires IsBlank(a) && IsBlank(b) && t != "" && IsTrimmed(t)
    ensures Trim(a + t + b) == t
  {
    assert a + t + b == a + (t + b);
    TrimStartPadded(a, t + b);
    TrimEndPadded(t, b);
  }

  lemma {:induction false} TrimStartCut(s: string) returns (a: string)
    ensures s == a + TrimStart(s) && IsBlank(a)
  {
    if s != "" && IsSpace(s[0]) {
      var a' := TrimStartCut(s[1..]);
      a := [s[0]] + a';
      assert s == [s[0]] + s[1..];
    } else {
      a := "";
    }
  }

  lemma {:induction false} TrimEndCut(s: string) returns (b: string)
    ensures s == TrimEnd(s) + b && IsBlank(b)
  {
    if s != "" && IsSpace(s[|s| - 1]) {
      var b' := TrimEndCut(s[..|s| - 1]);
      b := b' + [s[|s| - 1]];
      assert s == s[..|s| - 1] + [s[|s| - 1]];
    } else {
      b := "";
    }
  }

  ghost predicate Padded(s: string, a: string, t: string, b: string) {
    IsBlank(a) && IsBlank(b) && s == a + t + b
  }

  /** Trimming takes the white space off both ends and nothing else. */
  lemma TrimIff(s: string, t: string)
    ensures Trim(s) == t <==>
            if t == "" then IsBlank(s) else IsTrimmed(t) && exists a, b :: Padded(s, a, t, b)
  {
    TrimShape(s);
    if t != "" {
      if Trim(s) == t {
        var a := TrimStartCut(s);
        var b := TrimEndCut(TrimStart(s));
        assert Padded(s, a, t, b);
      }
      if IsTrimmed(t) && exists a, b :: Padded(s, a, t, b) {
        var a, b :| Padded(s, a, t, b);
        TrimPadded(a, t, b);
      }
    }
  }

  // ------------------------------------------------------ decimal integers

  predicate IsDigit(c: char) {
    '0' <= c <= '9'
  }

  predicate AllDigits(s: string) {
    forall i :: 0 <= i < |s| ==> IsDigit(s[i])
  }

  function DigitChar(d: nat): (c: char)
    requires d < 10
    ensures IsDigit(c) && DigitValue(c) == d
  {
    "0123456789"[d]
  }

  function DigitValue(c: char): (d: nat)
    requires IsDigit(c)
    ensures d < 10
  {
    (c as int) - ('0' as int)
  }

  function NatToString(n: nat): (s: string)
    ensures s != "" && AllDigits(s)
  {
    if n < 10 then [DigitChar(n)] else NatToString(n / 10) + [DigitChar(n % 10)]
  }

  function NatValue(s: string): nat
    requires AllDigits(s)
  {
    if s == "" then 0 else NatValue(s[..|s| - 1]) * 10 + DigitValue(s[|s| - 1])
  }

  lemma {:induction false} NatRoundTrip(n: nat)
    ensures NatValue(NatToString(n)) == n
  {
    var s := NatToString(n);
    if n < 10 {
      assert s[..|s| - 1] == "";
    } else {
      assert s[..|s| - 1] == NatToString(n / 10);
      NatRoundTrip(n / 10);
    }
  }

  lemma NatToStringInjective(a: nat, b: nat)
    requires NatToString(a) == NatToString(b)
    ensures a == b
  {
    NatRoundTrip(a);
    NatRoundTrip(b);
  }

  function IntToString(i: int): (s: string)
    ensures s != ""
  {
    if i < 0 then "-" + NatToString(-i) else NatToString(i)
  }

  /** Decimal text holds digits and a minus sign only. */
  lemma IntChars(i: int)
    ensures forall c :: c in IntToString(i) ==> IsDigit(c) || c == '-'
  {
    var digits := NatToString(if i < 0 then -i else i);
    forall c | c in IntToString(i) ensures IsDigit(c) || c == '-' {
      if c != '-' {
        assert c in digits;
        var k :| 0 <= k < |digits| && digits[k] == c;
      }
    }
  }

  datatype Option<+T> = None | Some(value: T)

  /** `Number(s)` on decimal integers: surrounding white space is dropped and
      the empty string reads as 0. Any other spelling is not a number here. */
  function ReadNumber(s: string): Option<int> {
    var t := Trim(s);
    if t == "" then Some(0)
    else if AllDigits(t) then Some(NatValue(t))
    else if (t[0] == '-' || t[0] == '+') && |t| > 1 && AllDigits(t[1..]) then
      Some(if t[0] == '-' then -(NatValue(t[1..]) as int) else NatValue(t[1..]) as int)
    else None
  }

  lemma IntRoundTrip(i: int)
    ensures ReadNumber(IntToString(i)) == Some(i)
  {
    var s := IntToString(i);
    if i < 0 {
      var d := NatToString(-i);
      NatRoundTrip(-i);
      assert s[1..] == d && s[|s| - 1] == d[|d| - 1];
      TrimmedIsKept(s);
    } else {
      NatRoundTrip(i);
      TrimmedIsKept(s);
    }
  }

  // ----------------------------------------------------------- comparison

  /** `a <= b` on strings: by the first differing character, a prefix first. */
  predicate StringLe(a: string, b: string) {
    a == "" || (b != "" && (a[0] < b[0] || (a[0] == b[0] && StringLe(a[1..], b[1..]))))
  }

  lemma {:induction false} StringLeTotal(a: string, b: string)
    ensures StringLe(a, b) || StringLe(b, a)
  {
    if a != "" && b != "" && a[0] == b[0] {
      StringLeTotal(a[1..], b[1..]);
    }
  }

  lemma {:induction false} StringLeTransitive(a: string, b: string, c: string)
    requires StringLe(a, b) && StringLe(b, c)
    ensures StringLe(a, c)
  {
    if a != "" && a[0] == b[0] && b[0] == c[0] {
      StringLeTransitive(a[1..], b[1..], c[1..]);
    }
  }

  lemma {:induction false} StringLeAntiSymmetric(a: string, b: string)
    requires StringLe(a, b) && StringLe(b, a)
    ensures a == b
  {
    if a != "" {
      StringLeAntiSymmetric(a[1..], b[1..]);
      assert a == [a[0]] + a[1..] && b == [b[0]] + b[1..];
    }
  }

  /** The order of strings: a prefix comes first, else the first differing
      character decides. */
  lemma {:induction false} StringLeIff(a: string, b: string)
    ensures StringLe(a, b) <==> a <= b || exists i :: 0 <= i < |a| && i < |b| && a[..i] == b[..i] && a[i] < b[i]
  {
    if a != "" && b != "" && a[0] == b[0] {
      StringLeIff(a[1..], b[1..]);
      assert a == [a[0]] + a[1..] && b == [b[0]] + b[1..];
      if i :| 0 <= i < |a[1..]| && i < |b[1..]| && a[1..][..i] == b[1..][..i] && a[1..][i] < b[1..][i] {
        assert a[..i + 1] == [a[0]] + a[1..][..i] && b[..i + 1] == [b[0]] + b[1..][..i];
        assert a[i + 1] < b[i + 1];
      }
      if i :| 0 <= i < |a| && i < |b| && a[..i] == b[..i] && a[i] < b[i] {
        assert a[1..][..i - 1] == a[..i][1..] && b[1..][..i - 1] == b[..i][1..];
        assert a[1..][i - 1] < b[1..][i - 1];
      }
    } else if a != "" && b != "" {
      if a[0] < b[0] {
        assert a[..0] == b[..0];
      }
      if i :| 0 <= i < |a| && i < |b| && a[..i] == b[..i] && a[i] < b[i] {
        assert i == 0;
      }
    }
  }

  /** Strings are totally ordered. */
  lemma StringOrder()
    ensures TotalOrder(StringLe)
  {
    forall x, y ensures StringLe(x, y) || StringLe(y, x) { StringLeTotal(x, y); }
    forall x, y, z | StringLe(x, y) && StringLe(y, z) ensures StringLe(x, z) { StringLeTransitive(x, y, z); }
    forall x, y | StringLe(x, y) && StringLe(y, x) ensures x == y { StringLeAntiSymmetric(x, y); }
  }
}
