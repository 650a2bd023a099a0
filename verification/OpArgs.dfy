/** `src/cli.ts`: the operation argument parser and the flag validator that
    shadows it. */
module OpArgs {
  import opened Text

  datatype ParamType = Boolean | Number | Other

  datatype Operation = Operation(params: map<string, ParamType>, positional: seq<string>)

  /** Parsed values; `Num(raw)` is the number spelled `raw`. */
  datatype Value = Flag(on: bool) | Str(text: string) | Num(raw: string)

  type Params = map<string, Value>

  /** Names every object answers to: looking one up in a parameter table
      finds something without a type. */
  const INHERITED := {
    "constructor", "toString", "valueOf", "toLocaleString", "hasOwnProperty", "isPrototypeOf",
    "propertyIsEnumerable", "__proto__", "__defineGetter__", "__defineSetter__", "__lookupGetter__",
    "__lookupSetter__"}

  /** `op.params[key]` */
  function Lookup(op: Operation, key: string): Option<ParamType> {
    if key in op.params then Some(op.params[key])
    else if key in INHERITED then Some(Other)
    else None
  }

  /** `s.replace(/-/g, "_")` */
  function Underscored(s: string): (r: string)
    ensures |r| == |s| && '-' !in r
    ensures forall i :: 0 <= i < |s| ==> r[i] == if s[i] == '-' then '_' else s[i]
  {
    if s == "" then "" else [if s[0] == '-' then '_' else s[0]] + Underscored(s[1..])
  }

  predicate IsBooleanLiteral(tok: Option<string>) {
    tok == Some("true") || tok == Some("false")
  }

  function TokenAt(args: seq<string>, i: nat): Option<string> {
    if i < |args| then Some(args[i]) else None
  }

  // -------------------------------------------------------- the parser

  function Convert(kind: ParamType, raw: string): Value {
    match kind
    case Boolean => Flag(raw != "false")
    case Number => Num(raw)
    case Other => Str(raw)
  }

  /** Where the parser stands: the next token, the next positional, what it has. */
  datatype Cursor = Cursor(i: nat, posIdx: nat, params: Params)

  predicate IsLocal(key: string) {
    key == "json" || key == "dry_run"
  }

  /** `--key=value` with a key the parser knows. */
  function Inline(op: Operation, arg: string): Option<(string, Value)> {
    var eq := IndexOf(arg, '=');
    if eq <= 2 then None else
      var key := Underscored(arg[2..eq]);
      if IsLocal(key) then Some((key, Flag(arg[eq + 1..] != "false")))
      else if Lookup(op, key).Some? then Some((key, Convert(Lookup(op, key).value, arg[eq + 1..])))
      else None
  }

  /** `--no-key` for a boolean key. */
  function Negated(op: Operation, arg: string): Option<string> {
    if "--no-" <= arg && Lookup(op, Underscored(arg[5..])) == Some(Boolean) then Some(Underscored(arg[5..])) else None
  }

  /** Flags that take nothing but a literal true or false. */
  predicate IsSwitch(op: Operation, key: string) {
    Lookup(op, key) == Some(Boolean) || IsLocal(key)
  }

  function FlagStep(op: Operation, args: seq<string>, c: Cursor): (c': Cursor)
    requires c.i < |args| && "--" <= args[c.i]
    ensures c'.i <= |args|
  {
    var arg, next := args[c.i], TokenAt(args, c.i + 1);
    var key := Underscored(arg[2..]);
    if Inline(op, arg).Some? then
      var (k, v) := Inline(op, arg).value;
      c.(i := c.i + 1, params := c.params[k := v])
    else if Negated(op, arg).Some? then
      c.(i := c.i + 1, params := c.params[Negated(op, arg).value := Flag(false)])
    else if IsSwitch(op, key) then
      if IsBooleanLiteral(next) then c.(i := c.i + 2, params := c.params[key := Flag(next == Some("true"))])
      else c.(i := c.i + 1, params := c.params[key := Flag(true)])
    else if next.Some? then
      c.(i := c.i + 2,
         params := c.params[key := if Lookup(op, key) == Some(Number) then Num(next.value) else Str(next.value)])
    else c.(i := c.i + 1)
  }

  function ParseStep(op: Operation, args: seq<string>, c: Cursor): (c': Cursor)
    requires c.i < |args|
    ensures c.i < c'.i <= c.i + 2 && c'.i <= |args|
  {
    var arg := args[c.i];
    if "--" <= arg then FlagStep(op, args, c)
    else if c.posIdx < |op.positional| then
      var key := op.positional[c.posIdx];
      Cursor(c.i + 1, c.posIdx + 1, c.params[key := if Lookup(op, key) == Some(Number) then Num(arg) else Str(arg)])
    else c.(i := c.i + 1)
  }

  function ParseFrom(op: Operation, args: seq<string>, c: Cursor): Params
    decreases |args| - c.i
  {
    if c.i >= |args| then c.params else ParseFrom(op, args, ParseStep(op, args, c))
  }

  function Parse(op: Operation, args: seq<string>): Params {
    ParseFrom(op, args, Cursor(0, 0, map[]))
  }

  /** The positions the parser reads as flags or positionals; every other
      token has been taken as some flag's value. */
  function ParseHeads(op: Operation, args: seq<string>, c: Cursor): seq<nat>
    decreases |args| - c.i
  {
    if c.i >= |args| then [] else [c.i] + ParseHeads(op, args, ParseStep(op, args, c))
  }

  lemma Advance(op: Operation, args: seq<string>, c: Cursor)
    ensures c.i < |args| ==> ParseFrom(op, args, c) == ParseFrom(op, args, ParseStep(op, args, c))
    ensures c.i >= |args| ==> ParseFrom(op, args, c) == c.params
  {
    hide ParseStep;
  }

  method ParseOpArgs(op: Operation, args: seq<string>) returns (params: Params)
    ensures params == Parse(op, args)
  {
    hide Underscored;
    hide Lookup;
    hide IndexOf;
    hide ParseFrom;
    params := map[];
    var positional := op.positional;
    var posIdx: nat := 0;
    var i: nat := 0;
    while i < |args|
      invariant Parse(op, args) == ParseFrom(op, args, Cursor(i, posIdx, params))
      decreases |args| - i
    {
      Advance(op, args, Cursor(i, posIdx, params));
      var arg := args[i];
      if "--" <= arg {
        var eq := IndexOf(arg, '=');
        if eq > 2 {
          var key := Underscored(arg[2..eq]);
          if key == "json" || key == "dry_run" {
            params := params[key := Flag(arg[eq + 1..] != "false")];
            i := i + 1;
            continue;
          }
          var def := Lookup(op, key);
          if def.Some? {
            params := params[key := Convert(def.value, arg[eq + 1..])];
            i := i + 1;
            continue;
          }
        }
        if "--no-" <= arg {
          var positiveKey := Underscored(arg[5..]);
          if Lookup(op, positiveKey) == Some(Boolean) {
            params := params[positiveKey := Flag(false)];
            i := i + 1;
            continue;
          }
        }
        var key := Underscored(arg[2..]);
        var paramDef := Lookup(op, key);
        if paramDef == Some(Boolean) || key == "json" || key == "dry_run" {
          if IsBooleanLiteral(TokenAt(args, i + 1)) {
            i := i + 1;
            params := params[key := Flag(args[i] == "true")];
          } else {
            params := params[key := Flag(true)];
          }
        } else if i + 1 < |args| {
          i := i + 1;
          params := params[key := if paramDef == Some(Number) then Num(args[i]) else Str(args[i])];
        }
      } else if posIdx < |positional| {
        var key := positional[posIdx];
        posIdx := posIdx + 1;
        params := params[key := if Lookup(op, key) == Some(Number) then Num(arg) else Str(arg)];
      }
      i := i + 1;
    }
    Advance(op, args, Cursor(i, posIdx, params));
  }

  // ----------------------------------------------------- the validator

  predicate IsUpper(c: char) { 'A' <= c <= 'Z' }

  predicate IsAlnum(c: char) { 'a' <= c <= 'z' || IsUpper(c) || IsDigit(c) }

  predicate IsFlagName(name: string) {
    name != "" && IsAlnum(name[0]) && forall i :: 0 <= i < |name| ==> IsAlnum(name[i]) || name[i] == '-'
  }

  /** `/^--([a-z0-9][a-z0-9-]*)(?:=(.*))?$/i`: the name and the inline value. */
  function MatchFlag(a: string): Option<(string, Option<string>)> {
    if !("--" <= a) then None else
      var eq := IndexOf(a, '=');
      var name := if eq < 0 then a[2..] else if eq < 2 then "" else a[2..eq];
      if !IsFlagName(name) then None
      else if eq < 0 then Some((name, None))
      else if forall i :: eq < i < |a| ==> !IsLineTerminator(a[i]) then Some((name, Some(a[eq + 1..])))
      else None
  }

  predicate HasUpper(s: string) {
    exists i :: 0 <= i < |s| && IsUpper(s[i])
  }

  datatype Verdict = Reject(flag: string) | Stop | Next(i: nat)

  function After(i: nat, takesValue: bool): (v: Verdict)
    ensures v == Next(i + 1) || v == Next(i + 2)
  {
    Next(if takesValue then i + 2 else i + 1)
  }

  /** How the validator reads the flag `name` at position `i`. */
  function CheckFlag(op: Operation, args: seq<string>, i: nat, name: string, inline: Option<string>): (v: Verdict)
    ensures v.Next? ==> i < v.i <= i + 2
    ensures !v.Stop?
  {
    var literal := inline.None? && IsBooleanLiteral(TokenAt(args, i + 1));
    var key := Underscored(name);
    if HasUpper(name) then Reject("--" + name)
    else if name == "json" then After(i, literal)
    else if (name == "explain" || name == "help") && inline.None? then After(i, false)
    else if name == "source" then After(i, inline.None?)
    else if name == "dry-run" then After(i, literal)
    else if "no-" <= name && Lookup(op, Underscored(name[3..])) == Some(Boolean) then After(i, false)
    else
      match Lookup(op, key)
      case Some(Boolean) => After(i, literal)
      case Some(_) => After(i, inline.None?)
      case None => Reject("--" + name)
  }

  function CheckStep(op: Operation, args: seq<string>, i: nat): (v: Verdict)
    requires i < |args|
    ensures v.Next? ==> i < v.i <= i + 2
  {
    if args[i] == "--" then Stop else
      match MatchFlag(args[i])
      case None => Next(i + 1)
      case Some((name, inline)) => CheckFlag(op, args, i, name, inline)
  }

  /** The first unknown flag from position `i` on. */
  function UnknownFrom(op: Operation, args: seq<string>, i: nat): Option<string>
    decreases |args| - i
  {
    if i >= |args| then None else
      match CheckStep(op, args, i)
      case Reject(flag) => Some(flag)
      case Stop => None
      case Next(j) => UnknownFrom(op, args, j)
  }

  /** The positions the validator looks at. */
  function CheckHeads(op: Operation, args: seq<string>, i: nat): seq<nat>
    decreases |args| - i
  {
    if i >= |args| then [] else
      match CheckStep(op, args, i)
      case Next(j) => [i] + CheckHeads(op, args, j)
      case _ => [i]
  }

  method FindUnknownOpFlag(op: Operation, args: seq<string>) returns (flag: Option<string>)
    ensures flag == UnknownFrom(op, args, 0)
  {
    hide Underscored;
    hide Lookup;
    hide MatchFlag;
    hide HasUpper;
    var i: nat := 0;
    while i < |args|
      invariant UnknownFrom(op, args, 0) == UnknownFrom(op, args, i)
      decreases |args| - i
    {
      var a := args[i];
      if a == "--" {
        break;
      }
      var m := MatchFlag(a);
      if m.None? {
        i := i + 1;
        continue;
      }
      var (rawKey, inline) := m.value;
      if HasUpper(rawKey) {
        return Some("--" + rawKey);
      }
      var literal := inline.None? && IsBooleanLiteral(TokenAt(args, i + 1));
      if rawKey == "json" {
        if literal { i := i + 1; }
        i := i + 1;
        continue;
      }
      if (rawKey == "explain" || rawKey == "help") && inline.None? {
        i := i + 1;
        continue;
      }
      if rawKey == "source" || rawKey == "dry-run" {
        if rawKey == "source" && inline.None? { i := i + 1; }
        else if rawKey == "dry-run" && literal { i := i + 1; }
        i := i + 1;
        continue;
      }
      if "no-" <= rawKey {
        var positive := Underscored(rawKey[3..]);
        if Lookup(op, positive) == Some(Boolean) {
          i := i + 1;
          continue;
        }
      }
      var paramDef := Lookup(op, Underscored(rawKey));
      if paramDef.Some? {
        if paramDef != Some(Boolean) && inline.None? { i := i + 1; }
        else if paramDef == Some(Boolean) && literal { i := i + 1; }
        i := i + 1;
        continue;
      }
      return Some("--" + rawKey);
    }
    return None;
  }
}
