/** What the argument parser and its validator of `src/cli.ts` promise each
    other, and that printing parameters and parsing them is a round trip. */
module OpArgsLaws {
  import opened Text
  import opened OpArgs

  // ------------------------------------------------- reading in lockstep

  /** A token read as a flag or a positional, and whether the token after it
      is read as its value. */
  datatype Read = Read(at: nat, takesNext: bool)

  function ParserReads(op: Operation, args: seq<string>, c: Cursor): seq<Read>
    decreases |args| - c.i
  {
    if c.i >= |args| then [] else
      var c' := ParseStep(op, args, c);
      [Read(c.i, c'.i == c.i + 2)] + ParserReads(op, args, c')
  }

  function ValidatorReads(op: Operation, args: seq<string>, i: nat): seq<Read>
    decreases |args| - i
  {
    if i >= |args| then [] else
      match CheckStep(op, args, i)
      case Next(j) => [Read(i, j == i + 2 && i + 1 < |args|)] + ValidatorReads(op, args, j)
      case _ => [Read(i, false)]
  }

  /** What the two readers need of a declaration: no key holds a `=`, and
      `source` is not a switch. */
  predicate Declares(op: Operation) {
    && (forall key :: key in op.params ==> '=' !in key)
    && Lookup(op, "source") != Some(Boolean)
  }

  predicate IsIrregular(t: string) {
    "--" <= t && t != "--" && MatchFlag(t).None?
  }

  /** The tokens the two readers take differently when `next` follows. */
  predicate ReadDifferently(op: Operation, t: string, next: string) {
    var literal := IsBooleanLiteral(Some(next));
    || t == "--"
    || ((t == "--explain" || t == "--help") && (Lookup(op, t[2..]) == Some(Boolean) ==> literal))
    || (IsIrregular(t) && Inline(op, t).None? && Negated(op, t).None? && (IsSwitch(op, Underscored(t[2..])) ==> literal))
    || (MatchFlag(t).Some? && MatchFlag(t).value.1.Some? &&
        var name := MatchFlag(t).value.0;
        || (name == "source" && Lookup(op, name).None?)
        || ("no-" <= name && Lookup(op, Underscored(name[3..])) == Some(Boolean) && Lookup(op, Underscored(name)).None?))
  }

  predicate Diverges(op: Operation, args: seq<string>, i: nat) {
    i + 1 < |args| && ReadDifferently(op, args[i], args[i + 1])
  }

  /** Only `dry-run` is written `dry_run` once underscored, and only `json` is `json`. */
  lemma LocalNames(name: string)
    requires IsFlagName(name)
    ensures Underscored(name) == "json" <==> name == "json"
    ensures Underscored(name) == "dry_run" <==> name == "dry-run"
    ensures '=' !in Underscored(name)
  {
    hide Lookup;
    var u := Underscored(name);
    assert forall i :: 0 <= i < |name| ==> name[i] != '_' && name[i] != '=';
    if u == "json" {
      assert forall i :: 0 <= i < 4 ==> name[i] == u[i];
      assert name == "json";
    }
    if u == "dry_run" {
      assert name[0] == u[0] && name[1] == u[1] && name[2] == u[2] && name[4] == u[4] && name[5] == u[5] && name[6] == u[6];
      assert name[3] == '-';
      assert name == "dry-run";
    }
    if name == "json" {
      assert u == "json";
    }
    if name == "dry-run" {
      assert u == "dry_run";
    }
  }

  /** How a regular flag is laid out. */
  lemma FlagShape(t: string)
    requires MatchFlag(t).Some?
    ensures var (name, inline) := MatchFlag(t).value;
            && IsFlagName(name)
            && (inline.None? ==> t == "--" + name && IndexOf(t, '=') < 0)
            && (inline.Some? ==> IndexOf(t, '=') == |name| + 2 && t[2..|name| + 2] == name
                                 && t == "--" + name + "=" + inline.value)
  {
    hide IndexOf;
    hide IsFlagName;
    hide IsLineTerminator;
    var eq := IndexOf(t, '=');
    assert t[..2] == "--";
    if eq < 0 {
      assert t == "--" + t[2..];
    } else {
      assert t == "--" + t[2..eq] + "=" + t[eq + 1..];
    }
  }

  /** Whether the parser takes `next` as the value of the flag `t`. */
  predicate ParserTakes(op: Operation, t: string, next: Option<string>)
    requires "--" <= t
  {
    && Inline(op, t).None?
    && Negated(op, t).None?
    && if IsSwitch(op, Underscored(t[2..])) then IsBooleanLiteral(next) else next.Some?
  }

  lemma ParserAdvances(op: Operation, args: seq<string>, c: Cursor)
    requires c.i < |args|
    ensures var t := args[c.i];
            ParseStep(op, args, c).i ==
            if "--" <= t && ParserTakes(op, t, TokenAt(args, c.i + 1)) then c.i + 2 else c.i + 1
  {
    hide Inline;
    hide Negated;
    hide IsSwitch;
    hide Lookup;
  }

  /** No inherited name holds a `=`. */
  lemma InheritedPlain(key: string, i: nat)
    requires key in INHERITED && i < |key|
    ensures key[i] != '='
  {
  }

  /** A key holding `=` is not declared. */
  lemma UndeclaredEquals(op: Operation, s: string)
    requires Declares(op) && '=' in s
    ensures Lookup(op, Underscored(s)).None? && !IsLocal(Underscored(s))
  {
    hide Underscored;
    var i :| 0 <= i < |s| && s[i] == '=';
    assert Underscored(s)[i] == '=';
    assert '=' in Underscored(s);
    if Underscored(s) in INHERITED {
      InheritedPlain(Underscored(s), i);
    }
  }

  /** The parser on a regular flag without a value of its own. */
  lemma BareFlag(op: Operation, t: string, name: string)
    requires t == "--" + name && IsFlagName(name) && IndexOf(t, '=') < 0
    ensures Inline(op, t).None?
    ensures Negated(op, t).Some? <==> "no-" <= name && Lookup(op, Underscored(name[3..])) == Some(Boolean)
    ensures t[2..] == name
  {
    hide Underscored;
    hide Lookup;
    hide IndexOf;
    if "no-" <= name {
      assert name[..3] == "no-";
      assert t[..5] == "--no-";
      assert t[5..] == name[3..];
    }
    if "--no-" <= t {
      assert t[..5] == "--no-";
      assert name[..3] == t[2..5] == "no-";
      assert t[5..] == name[3..];
    }
  }

  /** The parser on a regular flag with an inline value. */
  lemma InlineFlag(op: Operation, t: string, name: string)
    requires Declares(op)
    requires "--" <= t && IndexOf(t, '=') == |name| + 2 && t[2..|name| + 2] == name && name != ""
    ensures Inline(op, t).Some? <==> IsLocal(Underscored(name)) || Lookup(op, Underscored(name)).Some?
    ensures Negated(op, t).None?
    ensures !IsSwitch(op, Underscored(t[2..]))
  {
    hide Underscored;
    hide Lookup;
    hide Declares;
    var eq := IndexOf(t, '=');
    assert t[2..][eq - 2] == '=';
    UndeclaredEquals(op, t[2..]);
    if "--no-" <= t {
      assert forall k :: 0 <= k < 5 ==> t[k] == "--no-"[k];
      assert eq >= 5;
      assert t[5..][eq - 5] == '=';
      UndeclaredEquals(op, t[5..]);
    }
  }

  /** Whether the validator skips the token after a regular flag. */
  predicate ValidatorTakes(op: Operation, name: string, inline: Option<string>, next: Option<string>) {
    var kind := Lookup(op, Underscored(name));
    && inline.None?
    && name != "explain" && name != "help"
    && !("no-" <= name && Lookup(op, Underscored(name[3..])) == Some(Boolean))
    && if name == "json" || name == "dry-run" || (name != "source" && kind == Some(Boolean)) then IsBooleanLiteral(next)
       else next.Some?
  }

  lemma ValidatorAdvances(op: Operation, args: seq<string>, i: nat, name: string, inline: Option<string>)
    requires i < |args|
    ensures match CheckFlag(op, args, i, name, inline)
            case Next(j) => (j == i + 2 && i + 1 < |args|) == ValidatorTakes(op, name, inline, TokenAt(args, i + 1))
            case _ => true
    ensures CheckFlag(op, args, i, name, inline).Next? ==>
              || Lookup(op, Underscored(name)).Some?
              || name == "json" || name == "source" || name == "dry-run"
              || ((name == "explain" || name == "help") && inline.None?)
              || ("no-" <= name && Lookup(op, Underscored(name[3..])) == Some(Boolean))
  {
    hide Underscored;
    hide Lookup;
    hide HasUpper;
    if "no-" <= name {
      assert name[0] == 'n' && name[1] == 'o' && name[2] == '-';
    }
  }

  /** On a regular flag the validator knows, the two agree on the next token
      unless the flag is one they read differently. */
  lemma RegularAgrees(op: Operation, t: string, next: Option<string>)
    requires Declares(op) && MatchFlag(t).Some?
    requires var (name, inline) := MatchFlag(t).value;
             || Lookup(op, Underscored(name)).Some?
             || name == "json" || name == "source" || name == "dry-run"
             || ((name == "explain" || name == "help") && inline.None?)
             || ("no-" <= name && Lookup(op, Underscored(name[3..])) == Some(Boolean))
    ensures "--" <= t
    ensures ParserTakes(op, t, next) ==
            ValidatorTakes(op, MatchFlag(t).value.0, MatchFlag(t).value.1, next)
            <==> !(next.Some? && ReadDifferently(op, t, next.value))
  {
    hide Underscored;
    hide Lookup;
    hide IndexOf;
    hide MatchFlag;
    hide IsFlagName;
    hide Inline;
    hide Negated;
    FlagShape(t);
    var (name, inline) := MatchFlag(t).value;
    LocalNames(name);
    NonEmptyName(name);
    assert Underscored("explain") == "explain" && Underscored("help") == "help" && Underscored("source") == "source" by {
      PlainUnderscored("explain");
      PlainUnderscored("help");
      PlainUnderscored("source");
    }
    if "no-" <= name {
      assert name[0] == 'n' && name[1] == 'o';
    }
    if inline.None? {
      BareFlag(op, t, name);
      assert t == "--explain" <==> name == "explain" by {
        assert "--explain"[2..] == "explain";
      }
      assert t == "--help" <==> name == "help" by {
        assert "--help"[2..] == "help";
      }
      assert t != "--";
    } else {
      InlineFlag(op, t, name);
      assert '=' in t;
      assert '=' !in "--explain" && '=' !in "--help";
      assert t != "--";
    }
  }

  lemma NonEmptyName(name: string)
    requires IsFlagName(name)
    ensures name != ""
  {
  }

  lemma PlainUnderscored(s: string)
    requires '-' !in s
    ensures Underscored(s) == s
  {
    hide Underscored;
  }

  lemma PlainFlag(name: string)
    requires IsFlagName(name)
    ensures MatchFlag("--" + name) == Some((name, None))
  {
    hide IsFlagName;
    hide IndexOf;
    var t := "--" + name;
    assert t[2..] == name;
    assert '=' !in t by {
      FlagNameChars(name);
    }
  }

  lemma Regular()
    ensures MatchFlag("--explain").Some? && MatchFlag("--help").Some?
  {
    hide MatchFlag;
    PlainFlag("explain");
    PlainFlag("help");
    assert "--" + "explain" == "--explain" && "--" + "help" == "--help";
  }

  lemma FlagNameChars(name: string)
    requires IsFlagName(name)
    ensures '=' !in name && '_' !in name
  {
  }

  lemma StepAgrees(op: Operation, args: seq<string>, c: Cursor)
    requires Declares(op) && c.i < |args| && CheckStep(op, args, c.i).Next?
    ensures var j := CheckStep(op, args, c.i).i;
            (ParseStep(op, args, c).i == c.i + 2) == (j == c.i + 2 && c.i + 1 < |args|)
            <==> !Diverges(op, args, c.i)
  {
    hide ParseStep;
    hide MatchFlag;
    hide CheckFlag;
    hide Declares;
    hide Lookup;
    hide ValidatorTakes;
    hide Inline;
    hide Negated;
    hide IsSwitch;
    hide Underscored;
    hide IsFlagName;
    hide IndexOf;
    var t, next := args[c.i], TokenAt(args, c.i + 1);
    ParserAdvances(op, args, c);
    if MatchFlag(t).Some? {
      hide ReadDifferently;
      hide ParserTakes;
      var (name, inline) := MatchFlag(t).value;
      ValidatorAdvances(op, args, c.i, name, inline);
      RegularAgrees(op, t, next);
    } else if "--" <= t {
      Regular();
      assert c.i + 1 < |args| ==> next == Some(args[c.i + 1]);
      assert IsIrregular(t);
    } else {
      assert t != "--explain" && t != "--help" && t != "--";
    }
  }

  /** Two readings that start at the same token differ exactly when some head
      the validator looks at is read differently. */
  lemma {:induction false} LockstepFrom(op: Operation, args: seq<string>, c: Cursor)
    requires Declares(op) && UnknownFrom(op, args, c.i) == None
    ensures ParserReads(op, args, c) == ValidatorReads(op, args, c.i)
            <==> forall r :: r in ValidatorReads(op, args, c.i) ==> !Diverges(op, args, r.at)
    decreases |args| - c.i
  {
    hide ParseStep;
    hide CheckStep;
    hide Diverges;
    hide Declares;
    if c.i < |args| {
      var c' := ParseStep(op, args, c);
      var mine, theirs := ParserReads(op, args, c), ValidatorReads(op, args, c.i);
      match CheckStep(op, args, c.i)
      case Reject(flag) =>
      case Stop =>
        StopDiverges(op, args, c.i);
        assert theirs[0] == Read(c.i, false);
        assert ParserReads(op, args, c') == [] <==> c'.i >= |args|;
        assert mine[0].takesNext || |mine| > 1 <==> c.i + 1 < |args|;
      case Next(j) =>
        StepAgrees(op, args, c);
        assert mine[0] == Read(c.i, c'.i == c.i + 2);
        assert theirs[0] == Read(c.i, j == c.i + 2 && c.i + 1 < |args|);
        if mine[0] == theirs[0] {
          assert mine[1..] == ParserReads(op, args, c') && theirs[1..] == ValidatorReads(op, args, j);
          if j < |args| {
            LockstepFrom(op, args, c');
          }
          assert forall r :: r in theirs <==> r == theirs[0] || r in theirs[1..];
        } else {
          assert theirs[0] in theirs;
        }
    }
  }

  lemma StopDiverges(op: Operation, args: seq<string>, i: nat)
    requires i < |args| && CheckStep(op, args, i).Stop?
    ensures Diverges(op, args, i) <==> i + 1 < |args|
  {
    hide CheckFlag;
    hide MatchFlag;
    hide Lookup;
  }

  /** When the validator accepts an argument list, it and the parser look at
      the same tokens, and treat the same tokens as values, exactly when none
      of the heads is one of the spellings the two read differently. */
  lemma Lockstep(op: Operation, args: seq<string>)
    requires Declares(op) && UnknownFrom(op, args, 0) == None
    ensures ParserReads(op, args, Cursor(0, 0, map[])) == ValidatorReads(op, args, 0)
            <==> forall r :: r in ValidatorReads(op, args, 0) ==> !Diverges(op, args, r.at)
  {
    LockstepFrom(op, args, Cursor(0, 0, map[]));
  }

  // --------------------------------------------- what the parser writes

  /** A key the operation declares or takes positionally, or a local one. */
  predicate Proper(op: Operation, key: string) {
    || key in op.params || key in op.positional
    || key == "json" || key == "dry_run" || key == "source"
  }

  predicate Expected(op: Operation, key: string) {
    Proper(op, key) || key in INHERITED
  }

  /** The key a step of the parser writes. */
  function WrittenKey(op: Operation, args: seq<string>, c: Cursor): Option<string>
    requires c.i < |args|
  {
    var t, next := args[c.i], TokenAt(args, c.i + 1);
    if !("--" <= t) then if c.posIdx < |op.positional| then Some(op.positional[c.posIdx]) else None
    else if Inline(op, t).Some? then Some(Inline(op, t).value.0)
    else if Negated(op, t).Some? then Negated(op, t)
    else if IsSwitch(op, Underscored(t[2..])) || next.Some? then Some(Underscored(t[2..]))
    else None
  }

  lemma WritesOneKey(op: Operation, args: seq<string>, c: Cursor)
    requires c.i < |args|
    ensures ParseStep(op, args, c).params.Keys ==
            c.params.Keys + match WrittenKey(op, args, c) case Some(key) => {key} case None => {}
  {
    hide Inline;
    hide Negated;
    hide IsSwitch;
    hide Lookup;
    hide Underscored;
    hide IsBooleanLiteral;
  }

  /** The key taking the next token as its value is one the operation declares, or `source`. */
  lemma ValueKeyExpected(op: Operation, t: string, next: string, args: seq<string>, i: nat)
    requires Declares(op) && i + 1 < |args| && t == args[i] && next == args[i + 1]
    requires "--" <= t && ParserTakes(op, t, Some(next)) && !IsSwitch(op, Underscored(t[2..]))
    requires !CheckStep(op, args, i).Reject? && !Diverges(op, args, i)
    ensures Expected(op, Underscored(t[2..]))
  {
    hide MatchFlag;
    hide CheckFlag;
    hide IsFlagName;
    hide IndexOf;
    hide Underscored;
    hide Inline;
    hide Negated;
    hide Declares;
    assert MatchFlag(t).Some?;
    var (name, inline) := MatchFlag(t).value;
    ValidatorAdvances(op, args, i, name, inline);
    RegularAgrees(op, t, Some(next));
    FlagShape(t);
    LocalNames(name);
    assert t[2..] == name;
    assert Underscored("source") == "source" by {
      PlainUnderscored("source");
    }
  }

  lemma StepWrites(op: Operation, args: seq<string>, c: Cursor)
    requires Declares(op) && c.i < |args| && !CheckStep(op, args, c.i).Reject? && !Diverges(op, args, c.i)
    ensures WrittenKey(op, args, c).Some? ==> Expected(op, WrittenKey(op, args, c).value)
  {
    hide CheckStep;
    hide Diverges;
    hide Declares;
    hide Underscored;
    hide IndexOf;
    var t := args[c.i];
    if "--" <= t && Inline(op, t).None? && Negated(op, t).None? && !IsSwitch(op, Underscored(t[2..])) && c.i + 1 < |args| {
      ValueKeyExpected(op, t, args[c.i + 1], args, c.i);
    }
  }

  lemma {:induction false} WritesExpectedFrom(op: Operation, args: seq<string>, c: Cursor)
    requires Declares(op) && UnknownFrom(op, args, c.i) == None
    requires forall r :: r in ValidatorReads(op, args, c.i) ==> !Diverges(op, args, r.at)
    requires forall key :: key in c.params ==> Expected(op, key)
    ensures forall key :: key in ParseFrom(op, args, c) ==> Expected(op, key)
    decreases |args| - c.i
  {
    hide ParseStep;
    hide CheckStep;
    hide Diverges;
    hide Declares;
    hide Expected;
    hide WrittenKey;
    if c.i < |args| {
      var theirs := ValidatorReads(op, args, c.i);
      assert theirs[0].at == c.i && theirs[0] in theirs;
      StepWrites(op, args, c);
      WritesOneKey(op, args, c);
      var c' := ParseStep(op, args, c);
      match CheckStep(op, args, c.i)
      case Reject(flag) =>
      case Stop =>
        StopDiverges(op, args, c.i);
      case Next(j) =>
        assert theirs[1..] == ValidatorReads(op, args, j);
        StepAgrees(op, args, c);
        if c'.i < |args| {
          assert forall r :: r in theirs[1..] ==> r in theirs;
          WritesExpectedFrom(op, args, c');
        }
    }
  }

  // --------------------------------------- when the exception is met

  /** The key a flag spells, up to its `=`. */
  function FlagKey(t: string): string
    requires "--" <= t
  {
    Underscored(if IndexOf(t, '=') > 2 then t[2..IndexOf(t, '=')] else t[2..])
  }

  /** A flag that spells an undeclared name every object inherits, with a value
      of its own or another token to take for one. */
  predicate SpellsInherited(op: Operation, t: string, next: Option<string>) {
    && "--" <= t
    && FlagKey(t) in INHERITED && !Proper(op, FlagKey(t))
    && (IndexOf(t, '=') > 2 || next.Some?)
  }

  /** No inherited name starts with `no_`. */
  lemma InheritedNotNegated(key: string)
    requires key in INHERITED
    ensures !("no_" <= key)
  {
    assert key[0] != 'n';
  }

  lemma EqualsNotInherited(op: Operation, s: string)
    requires Declares(op) && '=' in s
    ensures Underscored(s) !in INHERITED
  {
    hide Underscored;
    UndeclaredEquals(op, s);
  }

  lemma NegatedNotInherited(op: Operation, t: string)
    requires Negated(op, t).Some?
    ensures Underscored(t[2..]) !in INHERITED
    ensures Negated(op, t).value in op.params
  {
    hide Underscored;
    var u := Underscored(t[2..]);
    assert t[2] == 'n' && t[3] == 'o' && t[4] == '-' by { assert t[..5] == "--no-"; }
    assert u[0] == 'n' && u[1] == 'o' && u[2] == '_';
    assert "no_" <= u;
    if u in INHERITED {
      InheritedNotNegated(u);
    }
  }

  lemma FlagWritesInheritedIff(op: Operation, args: seq<string>, c: Cursor)
    requires Declares(op) && c.i < |args| && "--" <= args[c.i]
    ensures (WrittenKey(op, args, c).Some? && !Proper(op, WrittenKey(op, args, c).value)
             && WrittenKey(op, args, c).value in INHERITED)
            <==> SpellsInherited(op, args[c.i], TokenAt(args, c.i + 1))
  {
    hide Underscored;
    hide Declares;
    hide IndexOf;
    hide Negated;
    var t := args[c.i];
    var eq := IndexOf(t, '=');
    if eq >= 2 {
      assert t[2..][eq - 2] == '=';
      EqualsNotInherited(op, t[2..]);
    }
    if Negated(op, t).Some? {
      NegatedNotInherited(op, t);
    }
  }

  lemma WritesInheritedIff(op: Operation, args: seq<string>, c: Cursor)
    requires Declares(op) && c.i < |args| && !CheckStep(op, args, c.i).Reject? && !Diverges(op, args, c.i)
    ensures (WrittenKey(op, args, c).Some? ==> Proper(op, WrittenKey(op, args, c).value))
            <==> !SpellsInherited(op, args[c.i], TokenAt(args, c.i + 1))
  {
    hide CheckStep;
    hide Diverges;
    hide Declares;
    hide SpellsInherited;
    StepWrites(op, args, c);
    if "--" <= args[c.i] {
      hide WrittenKey;
      FlagWritesInheritedIff(op, args, c);
    } else {
      PositionalProper(op, args, c);
    }
  }

  lemma PositionalProper(op: Operation, args: seq<string>, c: Cursor)
    requires c.i < |args| && !("--" <= args[c.i])
    ensures WrittenKey(op, args, c).Some? ==> Proper(op, WrittenKey(op, args, c).value)
    ensures !SpellsInherited(op, args[c.i], TokenAt(args, c.i + 1))
  {
  }

  /** What the parser has written it keeps. */
  lemma {:induction false} KeysKept(op: Operation, args: seq<string>, c: Cursor)
    ensures c.params.Keys <= ParseFrom(op, args, c).Keys
    decreases |args| - c.i
  {
    hide ParseStep;
    hide WrittenKey;
    if c.i < |args| {
      WritesOneKey(op, args, c);
      KeysKept(op, args, ParseStep(op, args, c));
    }
  }

  predicate AllProper(op: Operation, params: Params) {
    forall key :: key in params ==> Proper(op, key)
  }

  predicate NoneInherited(op: Operation, args: seq<string>, heads: seq<Read>) {
    forall r :: r in heads && r.at < |args| ==> !SpellsInherited(op, args[r.at], TokenAt(args, r.at + 1))
  }

  lemma ProperStep(op: Operation, args: seq<string>, c: Cursor)
    requires c.i < |args| && AllProper(op, c.params)
    ensures AllProper(op, ParseStep(op, args, c).params)
            <==> (WrittenKey(op, args, c).Some? ==> Proper(op, WrittenKey(op, args, c).value))
  {
    hide ParseStep;
    hide WrittenKey;
    hide Proper;
    WritesOneKey(op, args, c);
    var after := ParseStep(op, args, c).params;
    assert forall key :: key in after <==> key in after.Keys;
  }

  lemma ImproperStays(op: Operation, args: seq<string>, c: Cursor)
    requires !AllProper(op, c.params)
    ensures !AllProper(op, ParseFrom(op, args, c))
  {
    hide ParseFrom;
    hide Proper;
    KeysKept(op, args, c);
    var key :| key in c.params && !Proper(op, key);
    assert key in ParseFrom(op, args, c).Keys;
  }

  lemma NoneInheritedFirst(op: Operation, args: seq<string>, heads: seq<Read>)
    requires heads != [] && heads[0].at < |args|
    ensures NoneInherited(op, args, heads) <==>
            !SpellsInherited(op, args[heads[0].at], TokenAt(args, heads[0].at + 1)) && NoneInherited(op, args, heads[1..])
  {
    hide SpellsInherited;
    assert forall r :: r in heads <==> r == heads[0] || r in heads[1..];
  }

  lemma {:induction false} WritesProperFrom(op: Operation, args: seq<string>, c: Cursor)
    requires Declares(op) && UnknownFrom(op, args, c.i) == None
    requires forall r :: r in ValidatorReads(op, args, c.i) ==> !Diverges(op, args, r.at)
    requires AllProper(op, c.params)
    ensures AllProper(op, ParseFrom(op, args, c)) <==> NoneInherited(op, args, ParserReads(op, args, c))
    decreases |args| - c.i
  {
    hide ParseStep;
    hide CheckStep;
    hide Diverges;
    hide Declares;
    hide WrittenKey;
    hide AllProper;
    hide SpellsInherited;
    hide NoneInherited;
    if c.i >= |args| {
      NoReads(op, args);
    } else {
      var theirs := ValidatorReads(op, args, c.i);
      assert theirs[0].at == c.i && theirs[0] in theirs;
      var c' := ParseStep(op, args, c);
      var mine := ParserReads(op, args, c);
      assert mine[0].at == c.i && mine[1..] == ParserReads(op, args, c');
      NoneInheritedFirst(op, args, mine);
      ProperStep(op, args, c);
      WritesInheritedIff(op, args, c);
      if !AllProper(op, c'.params) {
        ImproperStays(op, args, c');
      } else {
        match CheckStep(op, args, c.i)
        case Reject(flag) =>
        case Stop =>
          StopDiverges(op, args, c.i);
          NoReads(op, args);
        case Next(j) =>
          assert theirs[1..] == ValidatorReads(op, args, j);
          assert forall r :: r in theirs[1..] ==> r in theirs;
          StepAgrees(op, args, c);
          if c'.i < |args| {
            WritesProperFrom(op, args, c');
          } else {
            NoReads(op, args);
          }
      }
    }
  }

  lemma NoReads(op: Operation, args: seq<string>)
    ensures NoneInherited(op, args, [])
  {
  }

  /** On an accepted list read in lockstep, the parser writes only keys the
      operation declares or takes positionally, `json`, `dry_run` and `source`
      exactly when no flag it reads spells an undeclared inherited name; and
      beyond those keys it never writes any but such names. */
  lemma WritesExpected(op: Operation, args: seq<string>)
    requires Declares(op) && UnknownFrom(op, args, 0) == None
    requires ParserReads(op, args, Cursor(0, 0, map[])) == ValidatorReads(op, args, 0)
    ensures AllProper(op, Parse(op, args)) <==> NoneInherited(op, args, ValidatorReads(op, args, 0))
    ensures forall key :: key in Parse(op, args) ==> Expected(op, key)
  {
    hide Expected;
    Lockstep(op, args);
    WritesProperFrom(op, args, Cursor(0, 0, map[]));
    WritesExpectedFrom(op, args, Cursor(0, 0, map[]));
  }

  /** A line the two read differently: after a bare `--` the validator looks at
      nothing, and the parser goes on. */
  lemma DoubleDashDiverges(op: Operation, x: string)
    requires Declares(op)
    ensures var args := ["--", x];
            UnknownFrom(op, args, 0) == None
            && ParserReads(op, args, Cursor(0, 0, map[])) != ValidatorReads(op, args, 0)
  {
    hide ParserReads;
    var args := ["--", x];
    assert CheckStep(op, args, 0) == Stop;
    StopDiverges(op, args, 0);
    var r := ValidatorReads(op, args, 0);
    assert r == [Read(0, false)] && r[0] in r;
    Lockstep(op, args);
  }

  /** The exception is real: whatever the operation declares, the validator
      accepts `--constructor v`, and the parser writes it. */
  lemma InheritedKeyAccepted(op: Operation, v: string)
    requires "constructor" !in op.params
    ensures var args := ["--constructor", v];
            UnknownFrom(op, args, 0) == None && Parse(op, args) == map["constructor" := Str(v)]
  {
    hide MatchFlag;
    hide IsFlagName;
    hide IndexOf;
    hide Underscored;
    hide Inline;
    hide Negated;
    var args, name := ["--constructor", v], "constructor";
    ConstructorIsRegular();
    FlagShape("--constructor");
    BareFlag(op, "--constructor", name);
    PlainUnderscored(name);
    assert CheckStep(op, args, 0) == Next(2) by {
      ConstructorKnown(op, args);
    }
    assert ParseStep(op, args, Cursor(0, 0, map[])) == Cursor(2, 0, map[name := Str(v)]);
    assert ParseFrom(op, args, Cursor(2, 0, map[name := Str(v)])) == map[name := Str(v)];
    assert UnknownFrom(op, args, 2) == None;
  }

  lemma ConstructorIsRegular()
    ensures MatchFlag("--constructor") == Some(("constructor", None)) && !HasUpper("constructor")
  {
    hide MatchFlag;
    PlainFlag("constructor");
    assert "--" + "constructor" == "--constructor";
  }

  /** A name the validator has no special case for. */
  predicate IsOrdinary(name: string) {
    && name != "json" && name != "explain" && name != "help" && name != "source" && name != "dry-run"
    && !("no-" <= name) && !HasUpper(name)
  }

  lemma OrdinaryTakesNext(op: Operation, args: seq<string>, i: nat, name: string)
    requires IsOrdinary(name) && Lookup(op, Underscored(name)) == Some(Other)
    ensures CheckFlag(op, args, i, name, None) == Next(i + 2)
  {
    hide Lookup;
    hide HasUpper;
    hide Underscored;
  }

  lemma ConstructorKnown(op: Operation, args: seq<string>)
    requires "constructor" !in op.params
    ensures CheckFlag(op, args, 0, "constructor", None) == Next(2)
  {
    hide CheckFlag;
    hide HasUpper;
    hide Underscored;
    hide MatchFlag;
    var name := "constructor";
    ConstructorIsRegular();
    PlainUnderscored(name);
    assert IsOrdinary(name) by {
      assert |name| == 11;
      assert name[0] == 'c';
    }
    OrdinaryTakesNext(op, args, 0, name);
  }
}
