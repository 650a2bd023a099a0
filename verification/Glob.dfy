/** `scripts/select-e2e.ts`, lines 97-125: compiling a glob to a regular
    expression, and why the expression means what the glob means. */
module Glob {
  import opened Text

  // --------------------------------------------- the regular expressions

  /** What one position of an expression accepts. */
  datatype Atom = Dot | NotSlash | Lit(c: char)

  /** An atom, or any number of characters it accepts. */
  datatype Piece = Piece(atom: Atom, star: bool)

  predicate Accepts(atom: Atom, c: char) {
    match atom
    case Dot => !IsLineTerminator(c)
    case NotSlash => c != '/'
    case Lit(l) => c == l
  }

  /** Characters with a meaning of their own in an expression. */
  predicate IsMeta(c: char) {
    c in {'.', '+', '^', '$', '{', '}', '(', ')', '|', '\\'}
  }

  /** The first atom of an expression, and what follows it. */
  function ReadAtom(s: string): Option<(Atom, string)>
    requires s != ""
  {
    if s[0] == '.' then Some((Dot, s[1..]))
    else if "[^/]" <= s then Some((NotSlash, s[4..]))
    else if s[0] == '\\' then if |s| >= 2 then Some((Lit(s[1]), s[2..])) else None
    else if IsMeta(s[0]) || s[0] in {'*', '?', '['} then None
    else Some((Lit(s[0]), s[1..]))
  }

  /** An expression as its pieces; None outside atoms and `*`. */
  function ReadRegex(s: string): Option<seq<Piece>>
    decreases |s|
  {
    if s == "" then Some([]) else
      match ReadAtom(s)
      case None => None
      case Some((atom, rest)) =>
        var star := rest != "" && rest[0] == '*';
        match ReadRegex(if star then rest[1..] else rest)
        case None => None
        case Some(pieces) => Some([Piece(atom, star)] + pieces)
  }

  predicate Matches(pieces: seq<Piece>, s: string)
    decreases |pieces|
  {
    if pieces == [] then s == ""
    else if pieces[0].star then exists k: nat :: k <= |s| && StarTakes(pieces[0].atom, s, k) && Matches(pieces[1..], s[k..])
    else s != "" && Accepts(pieces[0].atom, s[0]) && Matches(pieces[1..], s[1..])
  }

  predicate StarTakes(atom: Atom, s: string, k: nat) {
    k <= |s| && forall j :: 0 <= j < k ==> Accepts(atom, s[j])
  }

  /** `new RegExp("^" + body + "$").test(s)` */
  predicate Tests(body: string, s: string) {
    ReadRegex(body).Some? && Matches(ReadRegex(body).value, s)
  }

  // ---------------------------------------------------------- the globs

  predicate IsSupported(glob: string) {
    '?' !in glob && '[' !in glob && '{' !in glob
  }

  /** What a glob means: `**` is any characters but line ends, `*` any
      characters but slashes, anything else itself. */
  predicate GlobMatches(g: string, p: string)
    decreases |g|, |p|
  {
    if g == "" then p == ""
    else if "**" <= g then GlobMatches(g[2..], p) || (p != "" && !IsLineTerminator(p[0]) && GlobMatches(g, p[1..]))
    else if g[0] == '*' then GlobMatches(g[1..], p) || (p != "" && p[0] != '/' && GlobMatches(g, p[1..]))
    else p != "" && p[0] == g[0] && GlobMatches(g[1..], p[1..])
  }

  function Compile(g: string): string {
    if g == "" then ""
    else if "**" <= g then ".*" + Compile(g[2..])
    else if g[0] == '*' then "[^/]*" + Compile(g[1..])
    else (if IsMeta(g[0]) then ['\\', g[0]] else [g[0]]) + Compile(g[1..])
  }

  function Pieces(g: string): seq<Piece> {
    if g == "" then []
    else if "**" <= g then [Piece(Dot, true)] + Pieces(g[2..])
    else if g[0] == '*' then [Piece(NotSlash, true)] + Pieces(g[1..])
    else [Piece(Lit(g[0]), false)] + Pieces(g[1..])
  }

  /** The compiled expression never starts with a stray `*`. */
  lemma CompiledStart(g: string)
    ensures Compile(g) != "" ==> Compile(g)[0] != '*'
  {
  }

  /** The engine reads the compiled expression as one piece per glob token. */
  lemma {:induction false} CompiledPieces(g: string)
    requires IsSupported(g)
    ensures ReadRegex(Compile(g)) == Some(Pieces(g))
  {
    hide Matches;
    if g != "" {
      var r := Compile(g);
      if "**" <= g {
        CompiledPieces(g[2..]);
        assert r[0] == '.' && r[1] == '*' && r[1..][1..] == Compile(g[2..]);
      } else if g[0] == '*' {
        CompiledPieces(g[1..]);
        assert r[..4] == "[^/]" && r[4..][0] == '*' && r[4..][1..] == Compile(g[1..]);
      } else {
        CompiledPieces(g[1..]);
        CompiledStart(g[1..]);
        assert g[0] != '[';
        if IsMeta(g[0]) {
          assert r[2..] == Compile(g[1..]);
        } else {
          assert r[1..] == Compile(g[1..]);
        }
      }
    }
  }

  /** A star takes one character and stays, or takes none. */
  lemma StarUnfolds(atom: Atom, rest: seq<Piece>, p: string)
    ensures Matches([Piece(atom, true)] + rest, p) <==>
            Matches(rest, p) || (p != "" && Accepts(atom, p[0]) && Matches([Piece(atom, true)] + rest, p[1..]))
  {
    var pieces := [Piece(atom, true)] + rest;
    assert pieces[1..] == rest;
    if Matches(pieces, p) {
      var k: nat :| k <= |p| && StarTakes(atom, p, k) && Matches(rest, p[k..]);
      if k == 0 {
        assert p[0..] == p;
      } else {
        assert StarTakes(atom, p[1..], k - 1) && p[1..][k - 1..] == p[k..];
      }
    }
    if Matches(rest, p) {
      assert p[0..] == p && StarTakes(atom, p, 0);
    }
    if p != "" && Accepts(atom, p[0]) && Matches(pieces, p[1..]) {
      var k: nat :| k <= |p[1..]| && StarTakes(atom, p[1..], k) && Matches(rest, p[1..][k..]);
      assert forall j :: 1 <= j < k + 1 ==> p[j] == p[1..][j - 1];
      assert StarTakes(atom, p, k + 1);
      assert p[1..][k..] == p[k + 1..];
    }
  }

  lemma {:induction false} PiecesMean(g: string, p: string)
    ensures Matches(Pieces(g), p) <==> GlobMatches(g, p)
    decreases |g|, |p|
  {
    hide IsLineTerminator;
    if g == "" {
    } else if g[0] == '*' {
      var tail := if "**" <= g then g[2..] else g[1..];
      PiecesMean(tail, p);
      StarUnfolds(if "**" <= g then Dot else NotSlash, Pieces(tail), p);
      if p != "" {
        PiecesMean(g, p[1..]);
      }
    } else if p != "" {
      PiecesMean(g[1..], p[1..]);
    }
  }

  /** Compiling keeps the meaning, for every supported glob and every path. */
  lemma CompileKeepsMeaning(g: string, p: string)
    requires IsSupported(g)
    ensures Tests(Compile(g), p) <==> GlobMatches(g, p)
  {
    hide Matches;
    hide GlobMatches;
    hide ReadRegex;
    hide Compile;
    hide Pieces;
    CompiledPieces(g);
    PiecesMean(g, p);
  }

  /** The loop of `matchGlob`: the expression it builds. */
  method BuildRegex(glob: string) returns (regex: string)
    ensures regex == Compile(glob)
  {
    hide Compile;
    hide IsMeta;
    regex := "";
    var i := 0;
    assert glob[0..] == glob;
    while i < |glob|
      invariant 0 <= i <= |glob|
      invariant regex + Compile(glob[i..]) == Compile(glob)
    {
      CompileAt(glob, i);
      var c := glob[i];
      if c == '*' && i + 1 < |glob| && glob[i + 1] == '*' {
        regex := regex + ".*";
        i := i + 2;
      } else if c == '*' {
        regex := regex + "[^/]*";
        i := i + 1;
      } else if IsMeta(c) {
        regex := regex + ['\\', c];
        i := i + 1;
      } else {
        regex := regex + [c];
        i := i + 1;
      }
    }
    CompileEnd(glob);
  }

  lemma CompileEnd(glob: string)
    ensures Compile(glob[|glob|..]) == ""
  {
  }

  lemma CompileAt(glob: string, i: nat)
    requires i < |glob|
    ensures var c, deep := glob[i], i + 1 < |glob| && glob[i] == '*' && glob[i + 1] == '*';
            Compile(glob[i..]) ==
            if deep then ".*" + Compile(glob[i + 2..])
            else (if c == '*' then "[^/]*" else if IsMeta(c) then ['\\', c] else [c]) + Compile(glob[i + 1..])
  {
    hide IsMeta;
    var rest := glob[i..];
    assert rest[1..] == glob[i + 1..];
    if |rest| >= 2 {
      assert rest[2..] == glob[i + 2..];
    }
  }

  // ------------------------------------------------- what the map can say

  predicate IsLiteral(g: string) {
    '*' !in g
  }

  /** A glob without stars matches itself only. */
  lemma {:induction false} LiteralMatches(g: string, p: string)
    requires IsLiteral(g)
    ensures GlobMatches(g, p) <==> p == g
  {
    if g != "" {
      if p != "" {
        LiteralMatches(g[1..], p[1..]);
        assert p == [p[0]] + p[1..] && g == [g[0]] + g[1..];
      }
    }
  }

  /** A literal head has to be there. */
  lemma {:induction false} LiteralHead(pre: string, g: string, p: string)
    requires IsLiteral(pre)
    ensures GlobMatches(pre + g, p) <==> pre <= p && GlobMatches(g, p[|pre|..])
  {
    if pre == "" {
      assert pre + g == g && p[0..] == p;
    } else {
      var whole := pre + g;
      assert whole[0] == pre[0] && whole[1..] == pre[1..] + g;
      assert !("**" <= whole);
      if p != "" && p[0] == pre[0] {
        LiteralHead(pre[1..], g, p[1..]);
        assert pre[1..] <= p[1..] <==> pre <= p;
        assert |pre| <= |p| ==> p[1..][|pre[1..]|..] == p[|pre|..];
      }
    }
  }

  /** What stands for a star. */
  predicate Stands(deep: bool, s: string) {
    forall c :: c in s ==> if deep then !IsLineTerminator(c) else c != '/'
  }

  lemma StandsTail(deep: bool, s: string)
    requires s != ""
    ensures Stands(deep, s) <==> (if deep then !IsLineTerminator(s[0]) else s[0] != '/') && Stands(deep, s[1..])
  {
    hide IsLineTerminator;
    assert s[0] in s;
    assert forall c :: c in s[1..] ==> c in s;
    assert forall c :: c in s ==> c == s[0] || c in s[1..];
  }

  /** One star in front of a literal tail. */
  lemma {:induction false} StarTail(deep: bool, post: string, p: string)
    requires IsLiteral(post)
    ensures GlobMatches((if deep then "**" else "*") + post, p) <==>
            EndsWith(p, post) && Stands(deep, p[..|p| - |post|])
  {
    hide IsLineTerminator;
    var g := (if deep then "**" else "*") + post;
    assert if deep then g[2..] == post else g[1..] == post;
    assert post != "" ==> post[0] in post;
    assert deep <==> "**" <= g;
    LiteralMatches(post, p);
    if p == post {
      assert p[..|p| - |post|] == "";
    } else if p != "" {
      StarTail(deep, post, p[1..]);
      if |post| < |p| {
        var m := p[..|p| - |post|];
        assert m[1..] == p[1..][..|p| - 1 - |post|];
        assert p[1..][|p| - 1 - |post|..] == p[|p| - |post|..];
        StandsTail(deep, m);
      }
    }
  }

  /** What a map entry with one star selects: everything between its two
      literal ends, `*` within one directory and `**` across them. */
  lemma OneStar(deep: bool, pre: string, post: string, p: string)
    requires IsLiteral(pre) && IsLiteral(post)
    ensures GlobMatches(pre + ((if deep then "**" else "*") + post), p) <==>
            && |pre| + |post| <= |p| && pre <= p && EndsWith(p, post)
            && Stands(deep, p[|pre|..|p| - |post|])
  {
    hide GlobMatches;
    hide Stands;
    LiteralHead(pre, (if deep then "**" else "*") + post, p);
    if pre <= p {
      var tail := p[|pre|..];
      StarTail(deep, post, tail);
      if |pre| + |post| <= |p| {
        assert tail[|tail| - |post|..] == p[|p| - |post|..];
        assert tail[..|tail| - |post|] == p[|pre|..|p| - |post|];
      }
    }
  }

  /** `a/` + `**` + `/b` never matches `a/b`: `**` does not stand for no
      segments, because both slashes around it have to be there. */
  lemma NoSegmentsNotMatched(a: string, b: string)
    requires IsLiteral(a) && IsLiteral(b)
    ensures !GlobMatches((a + "/") + ("**" + ("/" + b)), a + "/" + b)
  {
    hide GlobMatches;
    OneStar(true, a + "/", "/" + b, a + "/" + b);
  }
}
