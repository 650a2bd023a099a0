/** Writing parameters as command-line arguments, and reading them back with
    the parser and the validator of `src/cli.ts`. */
module OpArgsRender {
  import opened Text
  import opened OpArgs
  import opened OpArgsLaws

  /** One parameter as the user may write it: a positional, `--key=value`,
      `--key value`, a switch `--key`, or `--no-key`. */
  datatype Item =
    | Bare(key: string, value: Value)
    | Joined(key: string, value: Value)
    | Spaced(key: string, value: Value)
    | Switch(key: string)
    | Negative(key: string)

  /** The value the item is meant to give its key. */
  function Meant(item: Item): Value {
    match item
    case Bare(_, v) => v
    case Joined(_, v) => v
    case Spaced(_, v) => v
    case Switch(_) => Flag(true)
    case Negative(_) => Flag(false)
  }

  function Spelled(v: Value): string {
    match v
    case Flag(on) => if on then "true" else "false"
    case Str(text) => text
    case Num(raw) => raw
  }

  /** `key.replace(/_/g, "-")` */
  function Hyphenated(key: string): (s: string)
    ensures |s| == |key|
    ensures forall i :: 0 <= i < |key| ==> s[i] == if key[i] == '_' then '-' else key[i]
  {
    if key == "" then "" else [if key[0] == '_' then '-' else key[0]] + Hyphenated(key[1..])
  }

  function Tokens(item: Item): seq<string> {
    match item
    case Bare(_, v) => [Spelled(v)]
    case Joined(key, v) => ["--" + Hyphenated(key) + "=" + Spelled(v)]
    case Spaced(key, v) => ["--" + Hyphenated(key), Spelled(v)]
    case Switch(key) => ["--" + Hyphenated(key)]
    case Negative(key) => ["--no-" + Hyphenated(key)]
  }

  function Render(items: seq<Item>): seq<string> {
    if items == [] then [] else
      Render(items[..|items| - 1]) + Tokens(items[|items| - 1])
  }

  /** The flags the command line keeps to itself. */
  predicate IsOwn(key: string) { key == "json" || key == "dry_run" }

  /** What a key holds: a flag for `json` and `dry_run`, text unless declared. */
  function KindOf(op: Operation, key: string): ParamType {
    if IsOwn(key) then Boolean else match Lookup(op, key) case Some(kind) => kind case None => Other
  }

  predicate Fits(kind: ParamType, v: Value) {
    match kind
    case Boolean => v.Flag?
    case Number => v.Num?
    case Other => v.Str?
  }

  /** A key that can be spelled as a flag and read back. */
  predicate FlagSafe(key: string) {
    key != "" && '-' !in key && '=' !in key
  }

  /** `--key` would be read as the negation of a boolean key. */
  predicate LooksNegated(op: Operation, key: string) {
    "no_" <= key && Lookup(op, key[3..]) == Some(Boolean)
  }

  /** The item writes a value of its key's kind in a spelling that says so;
      the `b`-th positional names its own key. */
  predicate Writable(op: Operation, item: Item, b: nat) {
    && Fits(KindOf(op, item.key), Meant(item))
    && match item
       case Bare(key, v) => b < |op.positional| && op.positional[b] == key && !v.Flag? && !("--" <= Spelled(v))
       case Joined(key, _) => FlagSafe(key) && (IsOwn(key) || Lookup(op, key).Some?)
       case Spaced(key, _) => FlagSafe(key) && !LooksNegated(op, key)
       case Switch(key) => FlagSafe(key) && !LooksNegated(op, key)
       case Negative(key) => FlagSafe(key) && Lookup(op, key) == Some(Boolean)
  }

  /** How many of the items are positionals. */
  function Bares(items: seq<Item>): nat {
    if items == [] then 0 else
      Bares(items[..|items| - 1]) + if items[|items| - 1].Bare? then 1 else 0
  }

  predicate IsLiteral(token: string) { token == "true" || token == "false" }

  /** Every item can be written, and no switch stands before a token that
      reads as its value. */
  predicate Layout(op: Operation, items: seq<Item>) {
    && (forall j :: 0 <= j < |items| ==> Writable(op, items[j], Bares(items[..j])))
    && (forall k :: 0 < k < |items| && items[k].Bare? && items[k - 1].Switch? ==> !IsLiteral(Spelled(items[k].value)))
  }

  lemma UnderscoredBack(key: string)
    requires '-' !in key
    ensures Underscored(Hyphenated(key)) == key
  {
    hide Underscored;
    hide Hyphenated;
  }

  /** What the parser has after the tokens of `item`. */
  function Took(c: Cursor, item: Item): Cursor {
    Cursor(c.i + |Tokens(item)|, if item.Bare? then c.posIdx + 1 else c.posIdx, c.params[item.key := Meant(item)])
  }

  /** A key as a flag spells it. */
  lemma SpelledKey(key: string)
    requires FlagSafe(key)
    ensures var h := Hyphenated(key);
            h != "" && '=' !in h && '=' !in "--" + h && Underscored(h) == key
  {
    hide Hyphenated;
    hide Underscored;
    UnderscoredBack(key);
  }

  lemma SpelledBoolean(v: Value)
    requires v.Flag?
    ensures Flag(Spelled(v) != "false") == v && IsBooleanLiteral(Some(Spelled(v))) && Flag(Spelled(v) == "true") == v
  {
  }

  lemma ConvertsBack(kind: ParamType, v: Value)
    requires Fits(kind, v)
    ensures Convert(kind, Spelled(v)) == v
  {
  }

  lemma TakesBare(op: Operation, args: seq<string>, c: Cursor, item: Item)
    requires item.Bare? && Writable(op, item, c.posIdx)
    requires c.i < |args| && args[c.i] == Spelled(item.value)
    ensures ParseStep(op, args, c) == Took(c, item)
  {
    hide Spelled;
    SpelledPlain(item.value);
  }

  lemma SpelledPlain(v: Value)
    ensures v.Str? ==> Str(Spelled(v)) == v
    ensures v.Num? ==> Num(Spelled(v)) == v
  {
  }

  lemma JoinedInline(op: Operation, key: string, v: Value)
    requires Writable(op, Joined(key, v), 0)
    ensures Inline(op, "--" + Hyphenated(key) + "=" + Spelled(v)) == Some((key, v))
  {
    hide Underscored;
    hide Hyphenated;
    hide IndexOf;
    hide Lookup;
    hide Fits;
    hide Spelled;
    hide Convert;
    var h := Hyphenated(key);
    var t := "--" + h + "=" + Spelled(v);
    SpelledKey(key);
    IndexOfFirst("--" + h, '=', Spelled(v));
    assert t == "--" + h + ['='] + Spelled(v);
    var eq := IndexOf(t, '=');
    assert eq == |key| + 2;
    assert t[2..eq] == h;
    assert t[eq + 1..] == Spelled(v);
    ConvertsBack(KindOf(op, key), v);
    if IsOwn(key) {
      FlagFits(KindOf(op, key), v);
      SpelledBoolean(v);
    }
  }

  lemma FlagFits(kind: ParamType, v: Value)
    requires Fits(kind, v)
    ensures kind == Boolean <==> v.Flag?
    ensures kind == Number <==> v.Num?
  {
  }

  lemma TakesJoined(op: Operation, args: seq<string>, c: Cursor, key: string, v: Value)
    requires Writable(op, Joined(key, v), 0)
    requires c.i < |args| && args[c.i] == "--" + Hyphenated(key) + "=" + Spelled(v)
    ensures ParseStep(op, args, c) == Took(c, Joined(key, v))
  {
    hide Inline;
    hide Writable;
    hide Hyphenated;
    hide Spelled;
    JoinedInline(op, key, v);
    assert args[c.i][..2] == "--";
  }

  lemma UnderscoredTail(s: string, i: nat)
    requires i <= |s|
    ensures Underscored(s[i..]) == Underscored(s)[i..]
  {
    hide Underscored;
    assert Underscored(s[i..]) == Underscored(s)[i..];
  }

  /** A flag that is read under its own name. */
  lemma PlainFlagRead(op: Operation, key: string)
    requires FlagSafe(key) && !LooksNegated(op, key)
    ensures var t := "--" + Hyphenated(key);
            Negated(op, t).None? && Inline(op, t).None? && Underscored(t[2..]) == key && "--" <= t
  {
    hide Hyphenated;
    hide Underscored;
    hide Lookup;
    hide IndexOf;
    var h := Hyphenated(key);
    var t := "--" + h;
    SpelledKey(key);
    assert t[..2] == "--" && t[2..] == h;
    if "--no-" <= t {
      assert forall k :: 0 <= k < 5 ==> t[k] == "--no-"[k];
      assert h[0] == t[2] && h[1] == t[3] && h[2] == t[4];
      assert h[0] == 'n' && h[1] == 'o' && h[2] == '-';
      assert Underscored(h)[2] == '_';
      assert "no_" <= key;
      assert Underscored(t[5..]) == key[3..] by {
        assert t[5..] == h[3..];
        UnderscoredTail(h, 3);
      }
    }
  }

  lemma TakesSpaced(op: Operation, args: seq<string>, c: Cursor, key: string, v: Value)
    requires Writable(op, Spaced(key, v), 0)
    requires c.i + 1 < |args| && args[c.i] == "--" + Hyphenated(key) && args[c.i + 1] == Spelled(v)
    ensures ParseStep(op, args, c) == Took(c, Spaced(key, v))
  {
    hide Underscored;
    hide Hyphenated;
    hide Inline;
    hide Negated;
    hide Lookup;
    hide FlagSafe;
    hide LooksNegated;
    hide Spelled;
    PlainFlagRead(op, key);
    FlagFits(KindOf(op, key), v);
    SpelledPlain(v);
    if v.Flag? {
      SpelledBoolean(v);
    }
  }

  lemma TakesSwitch(op: Operation, args: seq<string>, c: Cursor, key: string)
    requires Writable(op, Switch(key), 0)
    requires c.i < |args| && args[c.i] == "--" + Hyphenated(key) && !IsBooleanLiteral(TokenAt(args, c.i + 1))
    ensures ParseStep(op, args, c) == Took(c, Switch(key))
  {
    hide Underscored;
    hide Hyphenated;
    hide Inline;
    hide Negated;
    hide Lookup;
    hide FlagSafe;
    hide LooksNegated;
    PlainFlagRead(op, key);
    FlagFits(KindOf(op, key), Flag(true));
  }

  lemma NegativeRead(op: Operation, key: string)
    requires FlagSafe(key) && Lookup(op, key) == Some(Boolean)
    ensures var t := "--no-" + Hyphenated(key);
            Inline(op, t).None? && Negated(op, t) == Some(key) && "--" <= t
  {
    hide Underscored;
    hide Hyphenated;
    hide Lookup;
    hide IndexOf;
    SpelledKey(key);
    var h := Hyphenated(key);
    var t := "--no-" + h;
    assert t[5..] == h && t[..5] == "--no-" && t[..2] == "--";
    assert '=' !in "--no-";
  }

  lemma TakesNegative(op: Operation, args: seq<string>, c: Cursor, key: string)
    requires Writable(op, Negative(key), 0)
    requires c.i < |args| && args[c.i] == "--no-" + Hyphenated(key)
    ensures ParseStep(op, args, c) == Took(c, Negative(key))
  {
    hide Underscored;
    hide Hyphenated;
    hide Inline;
    hide Negated;
    hide Lookup;
    hide FlagSafe;
    NegativeRead(op, key);
  }

  // ------------------------------------------------------ the whole line

  /** What the items leave behind, each writing over what its key had. */
  function Written(items: seq<Item>): Params {
    if items == [] then map[] else
      var last := items[|items| - 1];
      Written(items[..|items| - 1])[last.key := Meant(last)]
  }

  /** `params` holds exactly the keys of the items, each with the value its
      last item means. */
  ghost predicate HoldsLast(params: Params, items: seq<Item>) {
    && (forall key :: key in params <==> exists j :: 0 <= j < |items| && items[j].key == key)
    && (forall j :: 0 <= j < |items| && (forall k :: j < k < |items| ==> items[k].key != items[j].key) ==>
          items[j].key in params && params[items[j].key] == Meant(items[j]))
  }

  lemma {:induction false} WrittenLast(items: seq<Item>)
    ensures HoldsLast(Written(items), items)
  {
    hide Meant;
    if items != [] {
      var last := |items| - 1;
      WrittenLast(items[..last]);
      assert items == items[..last] + [items[last]];
      HoldsOneMore(Written(items[..last]), items[..last], items[last]);
    }
  }

  lemma HoldsOneMore(before: Params, init: seq<Item>, item: Item)
    requires HoldsLast(before, init)
    ensures HoldsLast(before[item.key := Meant(item)], init + [item])
  {
    hide Meant;
    var after, items := before[item.key := Meant(item)], init + [item];
    assert items[|init|] == item && forall j :: 0 <= j < |init| ==> items[j] == init[j];
    forall j | 0 <= j < |items| && (forall k :: j < k < |items| ==> items[k].key != items[j].key)
      ensures items[j].key in after && after[items[j].key] == Meant(items[j])
    {
      if j < |init| {
        assert items[|init|].key != items[j].key;
        assert forall k :: j < k < |init| ==> init[k].key != init[j].key;
      }
    }
  }

  /** Where the parser stands after the first `k` items. */
  function At(items: seq<Item>, k: nat): Cursor
    requires k <= |items|
  {
    Cursor(|Render(items[..k])|, Bares(items[..k]), Written(items[..k]))
  }

  lemma RenderLast(items: seq<Item>, k: nat)
    requires k < |items|
    ensures Render(items[..k + 1]) == Render(items[..k]) + Tokens(items[k])
    ensures At(items, k + 1) == Took(At(items, k), items[k])
  {
    hide Tokens;
    hide Meant;
    assert items[..k + 1][..k] == items[..k];
  }

  lemma {:induction false} RenderPrefix(items: seq<Item>, k: nat)
    requires k <= |items|
    ensures Render(items[..k]) <= Render(items)
    decreases |items| - k
  {
    if k == |items| {
      assert items[..k] == items;
    } else {
      RenderLast(items, k);
      RenderPrefix(items, k + 1);
    }
  }

  /** `args` starts with the rendered items, and nothing after them reads as
      the value of a switch that ends them. */
  predicate Starts(args: seq<string>, items: seq<Item>) {
    && Render(items) <= args
    && (items != [] && items[|items| - 1].Switch? ==> !IsBooleanLiteral(TokenAt(args, |Render(items)|)))
  }

  lemma SliceOf(args: seq<string>, before: seq<string>, tokens: seq<string>)
    requires before + tokens <= args
    ensures args[|before|..|before| + |tokens|] == tokens
  {
    assert args[..|before| + |tokens|] == before + tokens;
  }

  lemma PrefixOf(a: seq<string>, b: seq<string>, c: seq<string>)
    requires a <= b <= c
    ensures a <= c
  {
  }

  lemma SomeTokens(item: Item)
    ensures |Tokens(item)| > 0
  {
  }

  /** The tokens of one item, where the line has them. */
  lemma TokensAt(args: seq<string>, items: seq<Item>, k: nat)
    requires Render(items) <= args && k < |items|
    ensures var i, tokens := At(items, k).i, Tokens(items[k]);
            i + |tokens| == At(items, k + 1).i <= |args| && |tokens| > 0 && args[i..i + |tokens|] == tokens
  {
    hide Written;
    hide Tokens;
    hide Render;
    hide Bares;
    RenderLast(items, k);
    RenderPrefix(items, k + 1);
    PrefixOf(Render(items[..k + 1]), Render(items), args);
    SliceOf(args, Render(items[..k]), Tokens(items[k]));
    SomeTokens(items[k]);
  }

  lemma FirstToken(item: Item)
    ensures IsLiteral(Tokens(item)[0]) ==> item.Bare?
  {
    hide Spelled;
    hide Hyphenated;
    if !item.Bare? {
      assert Tokens(item)[0][0] == '-';
    }
  }

  /** No switch is followed by a token that reads as its value. */
  lemma SwitchAlone(op: Operation, args: seq<string>, items: seq<Item>, k: nat)
    requires Layout(op, items) && Starts(args, items) && k < |items| && items[k].Switch?
    ensures !IsBooleanLiteral(TokenAt(args, At(items, k + 1).i))
  {
    hide Writable;
    hide Tokens;
    hide Render;
    if k + 1 < |items| {
      TokensAt(args, items, k + 1);
      FirstToken(items[k + 1]);
      var i, tokens := At(items, k + 1).i, Tokens(items[k + 1]);
      assert args[i] == args[i..i + |tokens|][0];
      BareToken(items[k + 1]);
    } else {
      assert items[..k + 1] == items;
    }
  }

  lemma BareToken(item: Item)
    ensures item.Bare? ==> Tokens(item)[0] == Spelled(item.value)
  {
  }

  lemma TakesItem(op: Operation, args: seq<string>, items: seq<Item>, k: nat)
    requires Layout(op, items) && Starts(args, items) && k < |items|
    ensures At(items, k).i < |args|
    ensures ParseStep(op, args, At(items, k)) == At(items, k + 1)
  {
    hide Render;
    hide Written;
    hide ParseStep;
    hide Hyphenated;
    hide Spelled;
    hide Fits;
    hide FlagSafe;
    hide LooksNegated;
    hide KindOf;
    hide Bares;
    RenderLast(items, k);
    TokensAt(args, items, k);
    var c, item := At(items, k), items[k];
    assert Writable(op, item, c.posIdx);
    var tokens := Tokens(item);
    assert args[c.i] == args[c.i..c.i + |tokens|][0];
    match item
    case Bare(_, v) => TakesBare(op, args, c, item);
    case Joined(key, v) => TakesJoined(op, args, c, key, v);
    case Spaced(key, v) =>
      assert args[c.i + 1] == args[c.i..c.i + |tokens|][1];
      TakesSpaced(op, args, c, key, v);
    case Switch(key) =>
      SwitchAlone(op, args, items, k);
      TakesSwitch(op, args, c, key);
    case Negative(key) => TakesNegative(op, args, c, key);
  }

  lemma {:induction false} ParsesFrom(op: Operation, args: seq<string>, items: seq<Item>, k: nat)
    requires Layout(op, items) && Starts(args, items) && k <= |items|
    ensures ParseFrom(op, args, At(items, k)) == ParseFrom(op, args, At(items, |items|))
    decreases |items| - k
  {
    hide Layout;
    hide Starts;
    hide ParseStep;
    hide At;
    if k < |items| {
      TakesItem(op, args, items, k);
      ParsesFrom(op, args, items, k + 1);
    }
  }

  lemma AtEnds(items: seq<Item>)
    ensures At(items, |items|) == Cursor(|Render(items)|, Bares(items), Written(items))
    ensures At(items, 0) == Cursor(0, 0, map[])
  {
    assert items[..|items|] == items;
  }

  /** Whatever follows, the rendered items are read as they are meant. */
  lemma ReadsItems(op: Operation, args: seq<string>, items: seq<Item>)
    requires Layout(op, items) && Starts(args, items)
    ensures Parse(op, args) == ParseFrom(op, args, Cursor(|Render(items)|, Bares(items), Written(items)))
  {
    hide *;
    ParsesFrom(op, args, items, 0);
    AtEnds(items);
    ParseStarts(op, args);
  }

  lemma ParseStarts(op: Operation, args: seq<string>)
    ensures Parse(op, args) == ParseFrom(op, args, Cursor(0, 0, map[]))
  {
  }

  /** A line of parameters parses to exactly those parameters, the last one
      written winning. */
  lemma RoundTrip(op: Operation, items: seq<Item>)
    requires Layout(op, items)
    ensures HoldsLast(Parse(op, Render(items)), items)
  {
    hide Layout;
    hide Written;
    hide HoldsLast;
    hide ParseStep;
    AllOfIt(items);
    ReadsItems(op, Render(items), items);
    WrittenLast(items);
  }

  lemma AllOfIt(items: seq<Item>)
    ensures Starts(Render(items), items)
  {
    hide Render;
  }

  /** Writing an assignment out, every parameter at least once and in any
      spelling, and parsing the line gives the assignment back. */
  lemma AssignmentRoundTrip(op: Operation, a: Params, items: seq<Item>)
    requires Layout(op, items)
    requires forall j :: 0 <= j < |items| ==> items[j].key in a && Meant(items[j]) == a[items[j].key]
    requires forall key :: key in a ==> exists j :: 0 <= j < |items| && items[j].key == key
    ensures Parse(op, Render(items)) == a
  {
    hide Layout;
    hide Parse;
    hide Render;
    RoundTrip(op, items);
    var p := Parse(op, Render(items));
    forall key | key in p ensures p[key] == a[key] {
      var j := LastOf(items, key);
    }
  }

  lemma {:induction false} LastOf(items: seq<Item>, key: string) returns (j: nat)
    requires exists j :: 0 <= j < |items| && items[j].key == key
    ensures j < |items| && items[j].key == key && forall k :: j < k < |items| ==> items[k].key != key
  {
    var last := |items| - 1;
    if items[last].key == key {
      j := last;
    } else {
      var i :| 0 <= i < |items| && items[i].key == key;
      assert items[..last][i].key == key;
      j := LastOf(items[..last], key);
      assert forall k :: 0 <= k < last ==> items[..last][k] == items[k];
    }
  }

  /** A flag that wants a value and has none left is dropped. */
  lemma DanglingDropped(op: Operation, items: seq<Item>, key: string)
    requires Layout(op, items) && FlagSafe(key) && !LooksNegated(op, key) && !IsSwitch(op, key)
    ensures Parse(op, Render(items) + ["--" + Hyphenated(key)]) == Parse(op, Render(items))
  {
    hide Layout;
    hide Written;
    hide Hyphenated;
    hide LooksNegated;
    hide FlagSafe;
    hide Inline;
    hide Negated;
    hide IsSwitch;
    hide Underscored;
    var args := Render(items) + ["--" + Hyphenated(key)];
    PlainFlagRead(op, key);
    assert ["--" + Hyphenated(key)][0][0] == '-';
    StartsWith(items, ["--" + Hyphenated(key)]);
    ReadsItems(op, args, items);
    AllOfIt(items);
    ReadsItems(op, Render(items), items);
  }

  lemma StartsWith(items: seq<Item>, tail: seq<string>)
    requires tail != [] ==> !IsLiteral(tail[0])
    ensures Starts(Render(items) + tail, items)
  {
    hide Render;
  }

  lemma {:induction false} SurplusFrom(op: Operation, args: seq<string>, c: Cursor)
    requires c.posIdx >= |op.positional|
    requires forall i :: c.i <= i < |args| ==> !("--" <= args[i])
    ensures ParseFrom(op, args, c) == c.params
    decreases |args| - c.i
  {
    if c.i < |args| {
      assert !("--" <= args[c.i]);
      SurplusFrom(op, args, c.(i := c.i + 1));
    }
  }

  /** Positionals beyond the declared ones are ignored. */
  lemma SurplusIgnored(op: Operation, items: seq<Item>, tail: seq<string>)
    requires Layout(op, items) && Bares(items) >= |op.positional|
    requires (forall t :: t in tail ==> !("--" <= t)) && (tail != [] ==> !IsLiteral(tail[0]))
    ensures Parse(op, Render(items) + tail) == Parse(op, Render(items))
  {
    hide Layout;
    hide Written;
    hide ParseStep;
    hide Render;
    var args := Render(items) + tail;
    StartsWith(items, tail);
    ReadsItems(op, args, items);
    AllOfIt(items);
    ReadsItems(op, Render(items), items);
    forall i | |Render(items)| <= i < |args| ensures !("--" <= args[i]) {
      assert args[i] in tail;
    }
    SurplusFrom(op, args, Cursor(|Render(items)|, Bares(items), Written(items)));
  }

  // ------------------------------------------- the validator's agreement

  /** A key the validator knows: declared, inherited, or one of the command
      line's own. */
  predicate Known(op: Operation, key: string) {
    IsOwn(key) || key == "source" || Lookup(op, key).Some?
  }

  /** Flags the validator's pattern can spell and it knows; `explain` and
      `help`, which it takes for switches, not with a value after a space, and
      `source`, which it takes to have a value, not as a switch. */
  predicate Spellable(op: Operation, item: Item) {
    item.Bare? || (
      && IsSnakeCase(item.key) && Known(op, item.key)
      && (item.Spaced? ==> item.key != "explain" && item.key != "help")
      && (item.Switch? ==> item.key != "source"))
  }

  predicate AllSpellable(op: Operation, items: seq<Item>) {
    forall j :: 0 <= j < |items| ==> Spellable(op, items[j])
  }

  predicate IsSnakeCase(key: string) {
    key != "" && key[0] != '_' && forall i :: 0 <= i < |key| ==> 'a' <= key[i] <= 'z' || IsDigit(key[i]) || key[i] == '_'
  }

  lemma SnakeCaseFlag(key: string)
    requires IsSnakeCase(key)
    ensures IsFlagName(Hyphenated(key)) && !HasUpper(Hyphenated(key))
    ensures '-' !in key
  {
    hide Hyphenated;
  }

  /** What the validator makes of a key's name, special names aside. */
  lemma NameRead(op: Operation, key: string)
    requires IsSnakeCase(key) && FlagSafe(key)
    ensures var h := Hyphenated(key);
            && !HasUpper(h) && Underscored(h) == key
            && (h == "json" <==> key == "json") && (h == "dry-run" <==> key == "dry_run")
            && (h == "source" <==> key == "source") && (h == "explain" <==> key == "explain") && (h == "help" <==> key == "help")
    ensures var h := Hyphenated(key);
            "no-" <= h && Lookup(op, Underscored(h[3..])) == Some(Boolean) ==> LooksNegated(op, key)
  {
    hide Underscored;
    hide Hyphenated;
    hide Lookup;
    hide HasUpper;
    hide IsSnakeCase;
    var h := Hyphenated(key);
    SpelledKey(key);
    SnakeCaseFlag(key);
    LocalNames(h);
    PlainUnderscored("explain");
    PlainUnderscored("help");
    PlainUnderscored("source");
    SamePlain(key, "explain");
    SamePlain(key, "help");
    SamePlain(key, "source");
    if "no-" <= h {
      assert h[0] == 'n' && h[1] == 'o' && h[2] == '-';
      assert Underscored(h)[0] == 'n' && Underscored(h)[1] == 'o' && Underscored(h)[2] == '_';
      assert "no_" <= key;
      UnderscoredTail(h, 3);
    }
  }

  lemma SamePlain(key: string, name: string)
    requires '-' !in name && '_' !in name && '-' !in key
    ensures Hyphenated(key) == name <==> key == name
  {
    UnderscoredBack(key);
    PlainUnderscored(name);
    hide Underscored;
    hide Hyphenated;
  }

  lemma ChecksJoined(op: Operation, args: seq<string>, i: nat, key: string, v: string)
    requires IsSnakeCase(key) && FlagSafe(key) && Known(op, key)
    ensures CheckFlag(op, args, i, Hyphenated(key), Some(v)) == Next(i + 1)
  {
    hide Underscored;
    hide Hyphenated;
    hide Lookup;
    hide HasUpper;
    hide IsSnakeCase;
    hide LooksNegated;
    NameRead(op, key);
  }

  lemma ChecksSpaced(op: Operation, args: seq<string>, i: nat, key: string, v: Value)
    requires IsSnakeCase(key) && Writable(op, Spaced(key, v), 0) && Known(op, key) && key != "explain" && key != "help"
    requires i + 1 < |args| && args[i + 1] == Spelled(v)
    ensures CheckFlag(op, args, i, Hyphenated(key), None) == Next(i + 2)
  {
    hide Underscored;
    hide Hyphenated;
    hide Lookup;
    hide HasUpper;
    hide IsSnakeCase;
    hide LooksNegated;
    hide Spelled;
    NameRead(op, key);
    FlagFits(KindOf(op, key), v);
    if v.Flag? {
      SpelledBoolean(v);
    }
  }

  lemma ChecksSwitch(op: Operation, args: seq<string>, i: nat, key: string)
    requires IsSnakeCase(key) && Writable(op, Switch(key), 0) && key != "source"
    requires !IsBooleanLiteral(TokenAt(args, i + 1))
    ensures CheckFlag(op, args, i, Hyphenated(key), None) == Next(i + 1)
  {
    hide Underscored;
    hide Hyphenated;
    hide Lookup;
    hide HasUpper;
    hide IsSnakeCase;
    hide LooksNegated;
    NameRead(op, key);
    FlagFits(KindOf(op, key), Flag(true));
  }

  lemma NegativeName(key: string)
    requires IsSnakeCase(key)
    ensures var name := "no-" + Hyphenated(key); IsFlagName(name) && !HasUpper(name)
  {
    hide Hyphenated;
    SnakeCaseFlag(key);
    var h := Hyphenated(key);
    var name := "no-" + h;
    forall i | 0 <= i < |name| ensures (IsAlnum(name[i]) || name[i] == '-') && !IsUpper(name[i]) {
      if i >= 3 { assert name[i] == h[i - 3]; }
    }
  }

  lemma ChecksNegative(op: Operation, args: seq<string>, i: nat, key: string)
    requires IsSnakeCase(key) && FlagSafe(key) && Lookup(op, key) == Some(Boolean)
    ensures CheckFlag(op, args, i, "no-" + Hyphenated(key), None) == Next(i + 1)
  {
    hide Underscored;
    hide Hyphenated;
    hide Lookup;
    hide HasUpper;
    hide IsSnakeCase;
    SpelledKey(key);
    NegativeName(key);
    var name := "no-" + Hyphenated(key);
    assert name[3..] == Hyphenated(key) && name[..3] == "no-" && name[0] == 'n' && name[1] == 'o';
    assert "json"[0] != 'n' && "explain"[0] != 'n' && "help"[0] != 'n' && "source"[0] != 'n' && "dry-run"[0] != 'n';
  }

  lemma JoinedMatch(t: string, name: string, v: string)
    requires IsFlagName(name) && t == "--" + name + "=" + v
    ensures MatchFlag(t) == None || MatchFlag(t) == Some((name, Some(v)))
  {
    hide IsFlagName;
    hide IndexOf;
    hide IsLineTerminator;
    FlagNameChars(name);
    IndexOfFirst("--" + name, '=', v);
    assert t == "--" + name + ['='] + v;
    assert t[2..|name| + 2] == name && t[|name| + 3..] == v;
  }

  lemma AcceptsJoined(op: Operation, args: seq<string>, i: nat, key: string, v: string)
    requires IsSnakeCase(key) && FlagSafe(key) && Known(op, key)
    requires i < |args| && args[i] == "--" + Hyphenated(key) + "=" + v
    ensures CheckStep(op, args, i) == Next(i + 1)
  {
    hide MatchFlag;
    hide CheckFlag;
    hide Hyphenated;
    hide IsSnakeCase;
    hide HasUpper;
    hide IsFlagName;
    hide Known;
    SnakeCaseFlag(key);
    JoinedMatch(args[i], Hyphenated(key), v);
    ChecksJoined(op, args, i, key, v);
    assert |args[i]| > 2;
  }

  /** A flag without an inline value is checked under its name. */
  lemma StepsPlain(op: Operation, args: seq<string>, i: nat, name: string)
    requires i < |args| && IsFlagName(name) && args[i] == "--" + name
    ensures CheckStep(op, args, i) == CheckFlag(op, args, i, name, None)
  {
    hide MatchFlag;
    hide CheckFlag;
    NonEmptyName(name);
    hide IsFlagName;
    PlainFlag(name);
    assert |args[i]| > 2;
  }

  /** The validator takes the same tokens for an item as the parser. */
  lemma AcceptsItem(op: Operation, args: seq<string>, items: seq<Item>, k: nat)
    requires Layout(op, items) && AllSpellable(op, items) && Starts(args, items) && k < |items|
    ensures At(items, k).i < |args|
    ensures CheckStep(op, args, At(items, k).i) == Next(At(items, k + 1).i)
    ensures At(items, k + 1).i <= |args|
  {
    hide Render;
    hide Written;
    hide CheckStep;
    hide CheckFlag;
    hide Hyphenated;
    hide IsSnakeCase;
    hide Spelled;
    hide Fits;
    hide FlagSafe;
    hide LooksNegated;
    hide KindOf;
    hide Bares;
    hide IsFlagName;
    RenderLast(items, k);
    TokensAt(args, items, k);
    var i, item := At(items, k).i, items[k];
    assert Writable(op, item, At(items, k).posIdx) && Spellable(op, item);
    var tokens := Tokens(item);
    assert args[i] == args[i..i + |tokens|][0];
    match item
    case Bare(_, v) => PositionalSkipped(op, args, i);
    case Joined(key, v) => AcceptsJoined(op, args, i, key, Spelled(v));
    case Spaced(key, v) =>
      assert args[i + 1] == args[i..i + |tokens|][1];
      SnakeCaseFlag(key);
      StepsPlain(op, args, i, Hyphenated(key));
      ChecksSpaced(op, args, i, key, v);
    case Switch(key) =>
      SwitchAlone(op, args, items, k);
      SnakeCaseFlag(key);
      StepsPlain(op, args, i, Hyphenated(key));
      ChecksSwitch(op, args, i, key);
    case Negative(key) =>
      NegativeName(key);
      assert args[i] == "--" + ("no-" + Hyphenated(key));
      StepsPlain(op, args, i, "no-" + Hyphenated(key));
      ChecksNegative(op, args, i, key);
  }

  lemma PositionalSkipped(op: Operation, args: seq<string>, i: nat)
    requires i < |args| && !("--" <= args[i])
    ensures CheckStep(op, args, i) == Next(i + 1)
  {
    hide CheckFlag;
  }

  lemma {:induction false} AcceptedFrom(op: Operation, items: seq<Item>, k: nat)
    requires Layout(op, items) && AllSpellable(op, items) && k <= |items|
    ensures UnknownFrom(op, Render(items), At(items, k).i) == None
    ensures ParserReads(op, Render(items), At(items, k)) == ValidatorReads(op, Render(items), At(items, k).i)
    decreases |items| - k
  {
    hide Layout;
    hide Starts;
    hide Render;
    hide AllSpellable;
    hide ParseStep;
    hide CheckStep;
    hide At;
    AllOfIt(items);
    if k < |items| {
      AcceptsItem(op, Render(items), items, k);
      TakesItem(op, Render(items), items, k);
      AcceptedFrom(op, items, k + 1);
    } else {
      AtEnds(items);
    }
  }

  /** The validator accepts every line so written, reading it in lockstep with the parser. */
  lemma RenderedAccepted(op: Operation, items: seq<Item>)
    requires Layout(op, items) && AllSpellable(op, items)
    ensures UnknownFrom(op, Render(items), 0) == None
    ensures ParserReads(op, Render(items), Cursor(0, 0, map[])) == ValidatorReads(op, Render(items), 0)
  {
    hide *;
    AcceptedFrom(op, items, 0);
    AtEnds(items);
  }
}
