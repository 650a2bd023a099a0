/** `src/cli.ts`: which flags the validator refuses, on any argument list. */
module OpArgsVerdict {
  import opened Text
  import opened OpArgs
  import opened OpArgsLaws

  /** `--name` or `--name=value`, the name of letters, digits and inner
      hyphens, the value on one line. */
  ghost predicate SpellsFlag(t: string, name: string, inline: Option<string>) {
    && IsFlagName(name)
    && match inline
       case None => t == "--" + name
       case Some(v) => t == "--" + name + ("=" + v) && forall c :: c in v ==> !IsLineTerminator(c)
  }

  /** The pattern matches exactly these spellings. */
  lemma MatchFlagIff(t: string, name: string, inline: Option<string>)
    ensures MatchFlag(t) == Some((name, inline)) <==> SpellsFlag(t, name, inline)
  {
    hide IsFlagName;
    hide IsLineTerminator;
    if MatchFlag(t) == Some((name, inline)) {
      MatchSpelled(t, name, inline);
    }
    if SpellsFlag(t, name, inline) {
      SpelledMatch(t, name, inline);
    }
  }

  lemma MatchSpelled(t: string, name: string, inline: Option<string>)
    requires MatchFlag(t) == Some((name, inline))
    ensures SpellsFlag(t, name, inline)
  {
    hide IsFlagName;
    hide IsLineTerminator;
    var eq := IndexOf(t, '=');
    if eq < 0 {
      assert t == "--" + t[2..];
    } else {
      NotEmpty(name);
      assert eq > 2;
      assert t[2..eq] == name;
      assert t == t[..2] + t[2..eq] + ([t[eq]] + t[eq + 1..]);
    }
  }

  lemma NotEmpty(name: string)
    requires IsFlagName(name)
    ensures name != "" && '=' !in name
  {
  }

  lemma SpelledMatch(t: string, name: string, inline: Option<string>)
    requires SpellsFlag(t, name, inline)
    ensures MatchFlag(t) == Some((name, inline))
  {
    hide IsFlagName;
    hide IsLineTerminator;
    match inline
    case None => PlainFlag(name);
    case Some(v) => SpelledInline(t, name, v);
  }

  lemma SpelledInline(t: string, name: string, v: string)
    requires IsFlagName(name) && t == "--" + name + ("=" + v) && forall c :: c in v ==> !IsLineTerminator(c)
    ensures MatchFlag(t) == Some((name, Some(v)))
  {
    NotEmpty(name);
    hide IsFlagName;
    hide IsLineTerminator;
    hide IndexOf;
    var head := "--" + name;
    assert '=' !in head;
    IndexOfFirst(head, '=', v);
    assert t == head + ['='] + v;
    var eq := |head|;
    assert t[2..eq] == name && t[eq + 1..] == v && t[..2] == "--";
    assert forall i :: eq < i < |t| ==> t[i] == v[i - eq - 1];
  }

  /** A flag the validator lets through, whatever comes after it. */
  ghost predicate Accepts(op: Operation, name: string, inline: Option<string>) {
    && (forall c :: c in name ==> !('A' <= c <= 'Z'))
    && (|| name == "json" || name == "source" || name == "dry-run"
        || ((name == "explain" || name == "help") && inline.None?)
        || ("no-" <= name && Lookup(op, Underscored(name[3..])) == Some(Boolean))
        || Lookup(op, Underscored(name)).Some?)
  }

  ghost predicate Refuses(op: Operation, t: string, flag: string) {
    exists name, inline :: SpellsFlag(t, name, inline) && !Accepts(op, name, inline) && flag == "--" + name
  }

  lemma UpperIff(name: string)
    ensures HasUpper(name) <==> !forall c :: c in name ==> !('A' <= c <= 'Z')
  {
    if HasUpper(name) {
      var i :| 0 <= i < |name| && IsUpper(name[i]);
      assert name[i] in name;
    }
  }

  lemma CheckFlagIff(op: Operation, args: seq<string>, i: nat, name: string, inline: Option<string>)
    ensures var v := CheckFlag(op, args, i, name, inline);
            if Accepts(op, name, inline) then v.Next? else v == Reject("--" + name)
  {
    hide Underscored;
    hide Lookup;
    hide HasUpper;
    UpperIff(name);
  }

  lemma StepRefuses(op: Operation, args: seq<string>, i: nat)
    requires i < |args|
    ensures forall flag :: CheckStep(op, args, i) == Reject(flag) <==> Refuses(op, args[i], flag)
    ensures CheckStep(op, args, i).Stop? <==> args[i] == "--"
  {
    var t := args[i];
    hide CheckFlag;
    hide MatchFlag;
    forall name, inline ensures MatchFlag(t) == Some((name, inline)) <==> SpellsFlag(t, name, inline) {
      MatchFlagIff(t, name, inline);
    }
    if MatchFlag(t).Some? {
      var (name, inline) := MatchFlag(t).value;
      CheckFlagIff(op, args, i, name, inline);
      assert SpellsFlag(t, name, inline);
    }
    if t == "--" { BareDashes(); }
    hide Accepts;
    hide SpellsFlag;
  }

  lemma BareDashes()
    ensures MatchFlag("--").None?
  {
  }

  lemma {:induction false} UnknownFromIff(op: Operation, args: seq<string>, i: nat)
    ensures UnknownFrom(op, args, i) == None <==>
            forall h, flag :: h in CheckHeads(op, args, i) && h < |args| ==> !Refuses(op, args[h], flag)
    ensures forall flag :: UnknownFrom(op, args, i) == Some(flag) ==>
              exists h :: h in CheckHeads(op, args, i) && h < |args| && Refuses(op, args[h], flag)
    decreases |args| - i
  {
    hide Refuses;
    hide CheckStep;
    if i < |args| {
      StepRefuses(op, args, i);
      assert i in CheckHeads(op, args, i) by { FirstHead(op, args, i); }
      match CheckStep(op, args, i)
      case Next(j) =>
        UnknownFromIff(op, args, j);
        assert forall h :: h in CheckHeads(op, args, i) <==> h == i || h in CheckHeads(op, args, j);
      case Reject(flag) =>
        assert Refuses(op, args[i], flag);
      case Stop =>
    }
  }

  lemma FirstHead(op: Operation, args: seq<string>, i: nat)
    requires i < |args|
    ensures CheckHeads(op, args, i) != [] && CheckHeads(op, args, i)[0] == i
  {
    hide CheckStep;
  }

  /** A list is refused exactly when one of the tokens the validator looks at
      spells a flag it does not know, and it is such a flag that is named. */
  lemma RefusedIff(op: Operation, args: seq<string>)
    ensures UnknownFrom(op, args, 0) == None <==>
            forall h, flag :: h in CheckHeads(op, args, 0) && h < |args| ==> !Refuses(op, args[h], flag)
    ensures forall flag :: UnknownFrom(op, args, 0) == Some(flag) ==>
              exists h :: h in CheckHeads(op, args, 0) && h < |args| && Refuses(op, args[h], flag)
  {
    UnknownFromIff(op, args, 0);
  }
}
