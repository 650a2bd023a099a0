/** `scripts/dent/collapse-duplicate-mentioned.ts`, with the section
    replacement of `src/dent/db-writer/append.ts` it writes through. */
module Mentioned {
  import opened Text

  const SENTINEL := "<!-- granola-sync:enriched -->"
  const INTRO := INTRO_WHO + INTRO_WHERE + INTRO_HOW
  const INTRO_WHO := "People, companies, and projects "
  const INTRO_WHERE := "mentioned in this meeting "
  const INTRO_HOW := "(auto-detected from notes + transcript):"
  const PLACEHOLDER := "_No entities auto-detected._"
  const HEADING := "## Mentioned"

  // ------------------------------------------------------------ the lines

  function Lower(c: char): char {
    if 'A' <= c <= 'Z' then (c as int + 32) as char else c
  }

  function Folded(s: string): (r: string)
    ensures |r| == |s|
  {
    seq(|s|, i requires 0 <= i < |s| => Lower(s[i]))
  }

  /** `##`, white space, then `title` up to white space at the end. */
  predicate IsTitled(line: string, title: string, fold: bool) {
    && |line| > 2 && line[..2] == "##" && IsSpace(line[2])
    && (if fold then Folded(Trim(line[2..])) else Trim(line[2..])) == title
  }

  /** The script's pattern: `/^##\s+Mentioned\s*$/`. */
  predicate IsHeading(line: string) {
    IsTitled(line, "Mentioned", false)
  }

  /** The server's pattern, which ignores case. */
  predicate IsServerHeading(line: string) {
    IsTitled(line, "mentioned", true)
  }

  /** `/^#{1,2}\s/` */
  predicate IsBoundary(line: string) {
    && line != "" && line[0] == '#'
    && ((|line| > 1 && IsSpace(line[1])) || (|line| > 2 && line[1] == '#' && IsSpace(line[2])))
  }

  /** `/^\s*-\s+\[\[/` */
  predicate IsBullet(line: string) {
    var t := TrimStart(line);
    |t| > 1 && t[0] == '-' && IsSpace(t[1]) && "[[" <= TrimStart(t[1..])
  }

  predicate Includes(line: string, part: string) {
    part <= line || (line != "" && Includes(line[1..], part))
  }

  lemma SectionsAreBoundaries(line: string)
    ensures IsHeading(line) ==> IsServerHeading(line)
    ensures IsServerHeading(line) ==> IsBoundary(line)
  {
    if IsHeading(line) {
      assert Folded("Mentioned") == "mentioned";
    }
  }

  // ----------------------------------------------------------- the blocks

  /** A section's lines without its heading, and whether one holds the sentinel. */
  datatype Block = Block(lines: seq<string>, hasSentinel: bool)

  function UntilBoundary(lines: seq<string>): (r: seq<string>)
    ensures r <= lines
    ensures forall l :: l in r ==> !IsBoundary(l)
  {
    if lines == [] || IsBoundary(lines[0]) then [] else [lines[0]] + UntilBoundary(lines[1..])
  }

  predicate HasSentinel(lines: seq<string>) {
    exists i :: 0 <= i < |lines| && Includes(lines[i], SENTINEL)
  }

  function Blocks(lines: seq<string>): seq<Block>
    decreases |lines|
  {
    if lines == [] then []
    else if IsHeading(lines[0]) then
      var own := UntilBoundary(lines[1..]);
      [Block(own, HasSentinel(own))] + Blocks(lines[1 + |own|..])
    else Blocks(lines[1..])
  }

  /** What the server keeps: every line outside its sections. */
  function Kept(lines: seq<string>): seq<string>
    decreases |lines|
  {
    if lines == [] then []
    else if IsServerHeading(lines[0]) then Kept(lines[1 + |UntilBoundary(lines[1..])|..])
    else [lines[0]] + Kept(lines[1..])
  }

  function Bullets(lines: seq<string>): seq<string> {
    if lines == [] then [] else
      var last := lines[|lines| - 1];
      Bullets(lines[..|lines| - 1]) + if IsBullet(last) then [last] else []
  }

  predicate IsProse(line: string) {
    Trim(line) != "" && !Includes(line, SENTINEL)
  }

  function Prose(lines: seq<string>): seq<string> {
    if lines == [] then [] else
      var last := lines[|lines| - 1];
      Prose(lines[..|lines| - 1]) + if IsProse(last) then [last] else []
  }

  /** The reducer: more bullets wins, the sentinel breaks a tie. */
  function Richer(a: Block, b: Block): Block {
    if |Bullets(b.lines)| != |Bullets(a.lines)| then if |Bullets(b.lines)| > |Bullets(a.lines)| then b else a
    else if b.hasSentinel && !a.hasSentinel then b else a
  }

  function Best(blocks: seq<Block>): Block
    requires blocks != []
  {
    if |blocks| == 1 then blocks[0] else Richer(Best(blocks[..|blocks| - 1]), blocks[|blocks| - 1])
  }

  function ContentLines(blocks: seq<Block>): (r: seq<string>)
    ensures r != []
  {
    if blocks == [] then [PLACEHOLDER] else
      var lines := Best(blocks).lines;
      if Bullets(lines) != [] then [INTRO, ""] + Bullets(lines)
      else if Prose(lines) != [] then Prose(lines)
      else [PLACEHOLDER]
  }

  function WinningContent(blocks: seq<Block>): string {
    JoinLines(ContentLines(blocks))
  }

  predicate IsAffected(blocks: seq<Block>) {
    |blocks| > 1 || (|blocks| == 1 && !blocks[0].hasSentinel)
  }

  // ----------------------------------------------------------- the splice

  /** `.replace(/\n+$/, "")` */
  function TrimNewlines(s: string): string {
    if s != "" && s[|s| - 1] == '\n' then TrimNewlines(s[..|s| - 1]) else s
  }

  /** `spliceFragment(body, fragment, "## Mentioned", true)` */
  function Replaced(body: string, fragment: string): string {
    var cleaned := TrimNewlines(JoinLines(Kept(Split(body, '\n'))));
    cleaned + (if cleaned == "" then "" else "\n\n") + HEADING + "\n\n" +
    (if EndsWith(fragment, "\n") then fragment else fragment + "\n")
  }

  /** What the script writes over a page. */
  function Collapsed(body: string): string {
    Replaced(body, WinningContent(Blocks(Split(body, '\n'))) + "\n\n" + SENTINEL)
  }

  // ------------------------------------------------------------ the loops

  lemma UntilAt(lines: seq<string>, i: nat)
    requires i <= |lines|
    ensures UntilBoundary(lines[i..]) ==
            if i == |lines| || IsBoundary(lines[i]) then [] else [lines[i]] + UntilBoundary(lines[i + 1..])
  {
    hide IsBoundary;
    if i < |lines| {
      assert lines[i..][1..] == lines[i + 1..];
    }
  }

  /** The inner loop of both scans: from `i` to the next boundary. */
  method TakeUntilBoundary(lines: seq<string>, i: nat) returns (own: seq<string>, j: nat)
    requires i <= |lines|
    ensures own == UntilBoundary(lines[i..]) && j == i + |own| <= |lines|
  {
    hide IsBoundary;
    hide UntilBoundary;
    own, j := [], i;
    UntilAt(lines, j);
    while j < |lines| && !IsBoundary(lines[j])
      invariant i <= j <= |lines| && j == i + |own|
      invariant own + UntilBoundary(lines[j..]) == UntilBoundary(lines[i..])
    {
      UntilAt(lines, j);
      ghost var rest := UntilBoundary(lines[j + 1..]);
      assert own + ([lines[j]] + rest) == own + [lines[j]] + rest;
      own := own + [lines[j]];
      j := j + 1;
    }
    UntilAt(lines, j);
  }

  lemma BlocksAt(lines: seq<string>, i: nat)
    requires i < |lines|
    ensures var own := UntilBoundary(lines[i + 1..]);
            i + 1 + |own| <= |lines| &&
            Blocks(lines[i..]) ==
            if IsHeading(lines[i]) then [Block(own, HasSentinel(own))] + Blocks(lines[i + 1 + |own|..])
            else Blocks(lines[i + 1..])
  {
    hide UntilBoundary;
    hide IsHeading;
    hide HasSentinel;
    var own := UntilBoundary(lines[i + 1..]);
    assert lines[i..][1..] == lines[i + 1..];
    assert lines[i..][1 + |own|..] == lines[i + 1 + |own|..];
  }

  lemma KeptAt(lines: seq<string>, i: nat)
    requires i < |lines|
    ensures var own := UntilBoundary(lines[i + 1..]);
            i + 1 + |own| <= |lines| &&
            Kept(lines[i..]) ==
            if IsServerHeading(lines[i]) then Kept(lines[i + 1 + |own|..]) else [lines[i]] + Kept(lines[i + 1..])
  {
    hide UntilBoundary;
    hide IsServerHeading;
    var own := UntilBoundary(lines[i + 1..]);
    assert lines[i..][1..] == lines[i + 1..];
    assert lines[i..][1 + |own|..] == lines[i + 1 + |own|..];
  }

  method ExtractMentionedBlocks(body: string) returns (blocks: seq<Block>)
    ensures blocks == Blocks(Split(body, '\n'))
  {
    hide IsHeading;
    hide UntilBoundary;
    hide HasSentinel;
    hide Split;
    var lines := Split(body, '\n');
    blocks := [];
    var i := 0;
    assert lines[0..] == lines;
    while i < |lines|
      invariant 0 <= i <= |lines|
      invariant blocks + Blocks(lines[i..]) == Blocks(lines)
    {
      BlocksAt(lines, i);
      if IsHeading(lines[i]) {
        var bodyLines, j := TakeUntilBoundary(lines, i + 1);
        blocks := blocks + [Block(bodyLines, HasSentinel(bodyLines))];
        i := j;
      } else {
        i := i + 1;
      }
    }
  }

  method SpliceReplace(body: string, fragment: string) returns (r: string)
    ensures r == Replaced(body, fragment)
  {
    hide IsServerHeading;
    hide UntilBoundary;
    hide Split;
    hide JoinLines;
    hide TrimNewlines;
    hide EndsWith;
    var lines := Split(body, '\n');
    var kept := [];
    var i := 0;
    assert lines[0..] == lines;
    while i < |lines|
      invariant 0 <= i <= |lines|
      invariant kept + Kept(lines[i..]) == Kept(lines)
    {
      KeptAt(lines, i);
      if IsServerHeading(lines[i]) {
        var _, j := TakeUntilBoundary(lines, i + 1);
        i := j;
      } else {
        kept := kept + [lines[i]];
        i := i + 1;
      }
    }
    assert lines[i..] == [];
    assert kept == Kept(lines);
    var cleaned := TrimNewlines(JoinLines(kept));
    var sep := if |cleaned| == 0 then "" else "\n\n";
    r := cleaned + sep + HEADING + "\n\n" + if EndsWith(fragment, "\n") then fragment else fragment + "\n";
  }
}
