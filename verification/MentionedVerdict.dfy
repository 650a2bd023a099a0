/** What the page scripts' patterns match, which lines their scans take, and
    the page that is written, each told without the scan. */
module MentionedVerdict {
  import opened Text
  import opened Mentioned
  import opened MentionedLaws

  // --------------------------------------------------------- the patterns

  /** `a`, white space of at least one character, `b`, white space. */
  ghost predicate Titles(line: string, gap: string, title: string, end: string) {
    line == "##" + (gap + title + end) && gap != "" && IsBlank(gap) && IsBlank(end)
  }

  ghost predicate IsMentioned(title: string) {
    |title| == 9 && forall i :: 0 <= i < 9 ==> title[i] == "mentioned"[i] || title[i] == "MENTIONED"[i]
  }

  lemma TitledIff(line: string, fold: bool, name: string)
    requires name != ""
    ensures IsTitled(line, name, fold) <==>
            exists gap, title, end :: Titles(line, gap, title, end) && IsTrimmed(title) && (if fold then Folded(title) else title) == name
  {
    if IsTitled(line, name, fold) {
      var t := Trim(line[2..]);
      TrimIff(line[2..], t);
      var a, b :| Padded(line[2..], a, t, b);
      assert line == "##" + (a + t + b);
      assert a != "" by { assert line[2..][0] == line[2]; }
      assert Titles(line, a, t, b);
    }
    if gap, title, end :| Titles(line, gap, title, end) && IsTrimmed(title) && (if fold then Folded(title) else title) == name {
      assert line[2..] == gap + title + end && line[..2] == "##";
      assert line[2] == gap[0] && gap[0] in gap;
      assert Padded(line[2..], gap, title, end);
      TrimIff(line[2..], title);
    }
  }

  /** The script takes for a heading `##`, a gap, `Mentioned` and nothing more. */
  lemma HeadingIff(line: string)
    ensures IsHeading(line) <==> exists gap, end :: Titles(line, gap, "Mentioned", end)
  {
    TitledIff(line, false, "Mentioned");
    assert IsTrimmed("Mentioned");
  }

  lemma FoldedIff(title: string)
    ensures Folded(title) == "mentioned" <==> IsMentioned(title)
    ensures IsMentioned(title) ==> IsTrimmed(title)
  {
    if Folded(title) == "mentioned" {
      forall i | 0 <= i < 9 ensures title[i] == "mentioned"[i] || title[i] == "MENTIONED"[i] {
        assert Folded(title)[i] == Lower(title[i]);
      }
    }
    if IsMentioned(title) {
      assert title[0] == 'm' || title[0] == 'M';
      assert title[8] == 'd' || title[8] == 'D';
      forall i | 0 <= i < 9 ensures Folded(title)[i] == "mentioned"[i] {}
    }
  }

  /** The server takes the same, in any mix of capitals. */
  lemma ServerHeadingIff(line: string)
    ensures IsServerHeading(line) <==> exists gap, title, end :: Titles(line, gap, title, end) && IsMentioned(title)
  {
    TitledIff(line, true, "mentioned");
    forall title: string ensures Folded(title) == "mentioned" <==> IsMentioned(title) { FoldedIff(title); }
    forall title: string | IsMentioned(title) ensures IsTrimmed(title) { FoldedIff(title); }
    hide Folded;
  }

  /** A section ends at a heading of the first or second level. */
  lemma BoundaryIff(line: string)
    ensures IsBoundary(line) <==> exists c, rest :: IsSpace(c) && (line == "#" + [c] + rest || line == "##" + [c] + rest)
  {
    if IsBoundary(line) {
      if |line| > 1 && IsSpace(line[1]) {
        assert line == "#" + [line[1]] + line[2..];
      } else {
        assert line == "##" + [line[2]] + line[3..];
      }
    }
  }

  /** Blanks, a dash, at least one blank, `[[`. */
  ghost predicate SpellsBullet(line: string, indent: string, gap: string, rest: string) {
    line == indent + ("-" + (gap + ("[[" + rest))) && IsBlank(indent) && IsBlank(gap) && gap != ""
  }

  lemma BulletIff(line: string)
    ensures IsBullet(line) <==> exists indent, gap, rest :: SpellsBullet(line, indent, gap, rest)
  {
    if IsBullet(line) {
      var t := TrimStart(line);
      var indent := TrimStartCut(line);
      var gap := TrimStartCut(t[1..]);
      var tail := TrimStart(t[1..]);
      assert t == "-" + t[1..] && tail == "[[" + tail[2..];
      assert gap != "" by { assert t[1..] == gap + tail && tail[0] == '['; }
      assert SpellsBullet(line, indent, gap, tail[2..]);
    }
    if indent, gap, rest :| SpellsBullet(line, indent, gap, rest) {
      var tail := "[[" + rest;
      var t := "-" + (gap + tail);
      TrimStartPadded(indent, t);
      assert t[1..] == gap + tail;
      TrimStartPadded(gap, tail);
      assert t[1] == gap[0] && gap[0] in gap;
      assert tail[..2] == "[[";
    }
  }

  /** `part` stands somewhere in the line. */
  ghost predicate StandsIn(line: string, part: string, before: string, after: string) {
    line == before + part + after
  }

  lemma {:induction false} IncludesIff(line: string, part: string)
    ensures Includes(line, part) <==> exists before, after :: StandsIn(line, part, before, after)
  {
    if part <= line {
      assert StandsIn(line, part, "", line[|part|..]);
    } else {
      if line != "" {
        IncludesIff(line[1..], part);
        if Includes(line[1..], part) {
          var before, after :| StandsIn(line[1..], part, before, after);
          assert line == [line[0]] + line[1..];
          assert StandsIn(line, part, [line[0]] + before, after);
        }
      }
      if before, after :| StandsIn(line, part, before, after) {
        assert part <= part + after && before + part + after == before + (part + after);
        assert before != "";
        assert StandsIn(line[1..], part, before[1..], after);
      }
    }
  }

  /** Prose is any line with something on it that does not hold the mark. */
  lemma ProseIff(line: string)
    ensures IsProse(line) <==>
            !IsBlank(line) && !exists before, after :: StandsIn(line, "<!-- granola-sync:enriched -->", before, after)
  {
    hide Trim;
    hide Includes;
    hide StandsIn;
    TrimShape(line);
    IncludesIff(line, SENTINEL);
  }

  // ---------------------------------------------------------- the sections

  /** Line `i` is in the section that the server's heading `j` opens. */
  ghost predicate InSectionOf(lines: seq<string>, j: int, i: int) {
    && 0 <= j <= i < |lines| && IsServerHeading(lines[j])
    && forall k :: j < k <= i ==> !IsBoundary(lines[k])
  }

  ghost predicate InSection(lines: seq<string>, i: int) {
    exists j :: InSectionOf(lines, j, i)
  }

  /** The lines up to `n` that no section holds. */
  ghost function Outside(lines: seq<string>, n: nat): seq<string>
    requires n <= |lines|
  {
    if n == 0 then [] else Outside(lines, n - 1) + if InSection(lines, n - 1) then [] else [lines[n - 1]]
  }

  lemma {:induction false} OutsideSkips(lines: seq<string>, i: nat, j: nat)
    requires i <= j <= |lines| && forall k :: i <= k < j ==> InSection(lines, k)
    ensures Outside(lines, j) == Outside(lines, i)
  {
    hide InSection;
    if i < j {
      OutsideSkips(lines, i, j - 1);
    }
  }

  lemma {:induction false} UntilStops(lines: seq<string>)
    ensures var own := UntilBoundary(lines); |own| < |lines| ==> IsBoundary(lines[|own|])
  {
    hide IsBoundary;
    if lines != [] && !IsBoundary(lines[0]) {
      UntilStops(lines[1..]);
    }
  }

  /** No section from before position `i` reaches past it. */
  ghost predicate Fresh(lines: seq<string>, i: nat) {
    forall j, k :: 0 <= j < i <= k ==> !InSectionOf(lines, j, k)
  }

  lemma FreshAtBoundary(lines: seq<string>, i: nat)
    requires i < |lines| ==> IsBoundary(lines[i])
    ensures Fresh(lines, i)
  {
    hide IsBoundary;
    hide IsServerHeading;
  }

  lemma FreshNext(lines: seq<string>, i: nat, n: nat)
    requires i + 1 == n <= |lines| && Fresh(lines, i) && !IsServerHeading(lines[i])
    ensures Fresh(lines, n) && !InSection(lines, i)
  {
    hide IsBoundary;
    hide IsServerHeading;
    forall j, k | 0 <= j < n <= k ensures !InSectionOf(lines, j, k) {
      assert InSectionOf(lines, j, k) && j <= i ==> InSectionOf(lines, j, i);
    }
  }

  lemma SectionLines(lines: seq<string>, i: nat, e: nat)
    requires i < |lines| && IsServerHeading(lines[i]) && e == i + 1 + |UntilBoundary(lines[i + 1..])|
    ensures e <= |lines| && (forall k :: i <= k < e ==> InSection(lines, k)) && (e < |lines| ==> IsBoundary(lines[e]))
  {
    hide IsBoundary;
    hide IsServerHeading;
    var own := UntilBoundary(lines[i + 1..]);
    UntilStops(lines[i + 1..]);
    forall k | i <= k < e ensures InSection(lines, k) {
      forall m | i < m <= k ensures !IsBoundary(lines[m]) {
        assert own[m - i - 1] == lines[i + 1..][m - i - 1] && own[m - i - 1] in own;
      }
      assert InSectionOf(lines, i, k);
    }
  }

  lemma {:induction false} KeptFrom(lines: seq<string>, i: nat)
    requires i <= |lines| && Fresh(lines, i)
    ensures Outside(lines, i) + Kept(lines[i..]) == Outside(lines, |lines|)
    decreases |lines| - i
  {
    hide IsBoundary;
    hide IsServerHeading;
    hide InSection;
    hide InSectionOf;
    hide UntilBoundary;
    if i < |lines| {
      KeptAt(lines, i);
      if IsServerHeading(lines[i]) {
        var e := i + 1 + |UntilBoundary(lines[i + 1..])|;
        SectionLines(lines, i, e);
        FreshAtBoundary(lines, e);
        OutsideSkips(lines, i, e);
        KeptFrom(lines, e);
      } else {
        FreshNext(lines, i, i + 1);
        KeptFrom(lines, i + 1);
        assert Outside(lines, i + 1) == Outside(lines, i) + [lines[i]];
        assert Outside(lines, i) + ([lines[i]] + Kept(lines[i + 1..])) == Outside(lines, i + 1) + Kept(lines[i + 1..]);
      }
    } else {
      assert lines[i..] == [];
    }
  }

  /** The server keeps exactly the lines outside its sections, in order. */
  lemma KeptIff(lines: seq<string>)
    ensures Kept(lines) == Outside(lines, |lines|)
  {
    hide Kept;
    hide InSectionOf;
    assert lines[0..] == lines;
    StartIsFresh(lines);
    KeptFrom(lines, 0);
  }

  lemma StartIsFresh(lines: seq<string>)
    ensures Fresh(lines, 0)
  {
  }

  /** `b` holds the lines between the script's heading `i` and the next
      heading of the first or second level, or the end. */
  ghost predicate BlockAt(lines: seq<string>, i: int, b: Block) {
    && 0 <= i < |lines| && IsHeading(lines[i]) && i + 1 + |b.lines| <= |lines|
    && b.lines == lines[i + 1..i + 1 + |b.lines|]
    && (forall k :: 0 <= k < |b.lines| ==> !IsBoundary(b.lines[k]))
    && (i + 1 + |b.lines| < |lines| ==> IsBoundary(lines[i + 1 + |b.lines|]))
    && (b.hasSentinel <==> exists k, before, after :: 0 <= k < |b.lines|
                             && StandsIn(b.lines[k], "<!-- granola-sync:enriched -->", before, after))
  }

  /** The blocks are those of the headings from line `i` on, one each, in order. */
  ghost predicate BlocksOf(lines: seq<string>, from: nat, at: seq<int>, blocks: seq<Block>) {
    && |at| == |blocks|
    && (forall k :: 0 <= k < |at| ==> from <= at[k] && BlockAt(lines, at[k], blocks[k]))
    && (forall j, k :: 0 <= j < k < |at| ==> at[j] < at[k])
    && (forall i :: from <= i < |lines| && IsHeading(lines[i]) ==> i in at)
  }

  lemma SentinelIff(own: seq<string>)
    ensures HasSentinel(own) <==>
            exists k, before, after :: 0 <= k < |own| && StandsIn(own[k], "<!-- granola-sync:enriched -->", before, after)
  {
    forall k | 0 <= k < |own|
      ensures Includes(own[k], SENTINEL) <==> exists before, after :: StandsIn(own[k], SENTINEL, before, after)
    {
      IncludesIff(own[k], SENTINEL);
    }
    hide Includes;
  }

  lemma HeadingBlock(lines: seq<string>, i: nat)
    requires i < |lines| && IsHeading(lines[i])
    ensures var own := UntilBoundary(lines[i + 1..]); BlockAt(lines, i, Block(own, HasSentinel(own)))
  {
    hide IsHeading;
    hide IsBoundary;
    var own := UntilBoundary(lines[i + 1..]);
    UntilStops(lines[i + 1..]);
    SentinelIff(own);
    assert own == lines[i + 1..][..|own|] == lines[i + 1..i + 1 + |own|];
    forall k | 0 <= k < |own| ensures !IsBoundary(own[k]) { assert own[k] in own; }
    hide HasSentinel;
    hide StandsIn;
  }

  lemma NoHeadingInside(lines: seq<string>, i: nat, b: Block)
    requires BlockAt(lines, i, b)
    ensures forall m :: i < m < i + 1 + |b.lines| ==> !IsHeading(lines[m])
  {
    hide IsHeading;
    hide IsBoundary;
    hide StandsIn;
    forall m | i < m < i + 1 + |b.lines| ensures !IsHeading(lines[m]) {
      assert b.lines[m - i - 1] == lines[m];
      SectionsAreBoundaries(lines[m]);
    }
  }

  lemma ConsAscends(i: int, at: seq<int>)
    requires (forall j, k :: 0 <= j < k < |at| ==> at[j] < at[k]) && forall k :: 0 <= k < |at| ==> i < at[k]
    ensures var more := [i] + at; forall j, k :: 0 <= j < k < |more| ==> more[j] < more[k]
  {
    var more := [i] + at;
    forall j, k | 0 <= j < k < |more| ensures more[j] < more[k] {
      assert more[k] == at[k - 1] && (j > 0 ==> more[j] == at[j - 1]);
    }
  }

  lemma ConsBlocks(lines: seq<string>, i: nat, b: Block, at: seq<int>, blocks: seq<Block>)
    requires BlockAt(lines, i, b) && |at| == |blocks|
    requires forall k :: 0 <= k < |at| ==> i < at[k] && BlockAt(lines, at[k], blocks[k])
    ensures var more, all := [i as int] + at, [b] + blocks;
            forall k :: 0 <= k < |more| ==> i <= more[k] && BlockAt(lines, more[k], all[k])
  {
    hide BlockAt;
    var more, all := [i as int] + at, [b] + blocks;
    forall k | 0 <= k < |more| ensures i <= more[k] && BlockAt(lines, more[k], all[k]) {
      assert k > 0 ==> more[k] == at[k - 1] && all[k] == blocks[k - 1];
    }
  }

  lemma OneBlockMore(lines: seq<string>, i: nat, e: nat, b: Block, at: seq<int>, blocks: seq<Block>)
    requires BlockAt(lines, i, b) && e == i + 1 + |b.lines| && BlocksOf(lines, e, at, blocks)
    ensures BlocksOf(lines, i, [i as int] + at, [b] + blocks)
  {
    hide IsHeading;
    hide BlockAt;
    NoHeadingInside(lines, i, b);
    ConsAscends(i, at);
    ConsBlocks(lines, i, b, at, blocks);
    var more := [i as int] + at;
    forall m | i <= m < |lines| && IsHeading(lines[m]) ensures m in more {
      assert m == i || m in at;
    }
  }

  lemma NoBlockMore(lines: seq<string>, i: nat, n: nat, at: seq<int>, blocks: seq<Block>)
    requires i + 1 == n <= |lines| && !IsHeading(lines[i]) && BlocksOf(lines, n, at, blocks)
    ensures BlocksOf(lines, i, at, blocks)
  {
    hide IsHeading;
    hide BlockAt;
  }

  lemma {:induction false} BlocksFrom(lines: seq<string>, i: nat) returns (at: seq<int>)
    requires i <= |lines|
    ensures BlocksOf(lines, i, at, Blocks(lines[i..]))
    decreases |lines| - i
  {
    hide IsHeading;
    hide BlockAt;
    hide BlocksOf;
    hide UntilBoundary;
    hide HasSentinel;
    if i == |lines| {
      at := [];
      assert lines[i..] == [];
      assert BlocksOf(lines, i, [], []) by { NoBlocksOf(lines, i); }
    } else {
      BlocksAt(lines, i);
      if IsHeading(lines[i]) {
        var own := UntilBoundary(lines[i + 1..]);
        HeadingBlock(lines, i);
        var rest := BlocksFrom(lines, i + 1 + |own|);
        OneBlockMore(lines, i, i + 1 + |own|, Block(own, HasSentinel(own)), rest, Blocks(lines[i + 1 + |own|..]));
        at := [i as int] + rest;
      } else {
        at := BlocksFrom(lines, i + 1);
        NoBlockMore(lines, i, i + 1, at, Blocks(lines[i + 1..]));
      }
    }
  }

  lemma NoBlocksOf(lines: seq<string>, i: nat)
    requires i == |lines|
    ensures BlocksOf(lines, i, [], [])
  {
  }

  ghost predicate AreTheBlocks(lines: seq<string>, blocks: seq<Block>) {
    exists at :: BlocksOf(lines, 0, at, blocks)
  }

  /** The script sees one block for every heading, in order. */
  lemma BlocksIff(lines: seq<string>)
    ensures AreTheBlocks(lines, Blocks(lines))
  {
    hide BlocksOf;
    hide Blocks;
    assert lines[0..] == lines;
    var at := BlocksFrom(lines, 0);
  }

  // ---------------------------------------------------- the page written

  /** The first of the blocks that no other beats: more bullets beat fewer,
      and with as many the sentinel beats none. */
  ghost predicate IsChosen(blocks: seq<Block>, k: int) {
    && 0 <= k < |blocks|
    && (forall j :: 0 <= j < |blocks| ==> !Beats(blocks[j], blocks[k]))
    && (forall j :: 0 <= j < k ==> Beats(blocks[k], blocks[j]))
  }

  ghost predicate Beats(a: Block, b: Block) {
    var m, n := |Bullets(a.lines)|, |Bullets(b.lines)|;
    m > n || (m == n && a.hasSentinel && !b.hasSentinel)
  }

  lemma {:induction false} ChosenIsFirst(blocks: seq<Block>) returns (k: nat)
    requires blocks != []
    ensures IsChosen(blocks, k) && Best(blocks) == blocks[k]
  {
    hide Bullets;
    if |blocks| == 1 {
      k := 0;
    } else {
      var last := |blocks| - 1;
      k := ChosenIsFirst(blocks[..last]);
      var best := blocks[k];
      assert forall j :: 0 <= j < last ==> blocks[..last][j] == blocks[j];
      if Beats(blocks[last], best) {
        k := last;
        forall j | 0 <= j < last ensures Beats(blocks[last], blocks[j]) {
          assert !Beats(blocks[j], best);
        }
      }
    }
  }

  ghost predicate Retells(content: seq<string>, lines: seq<string>) {
    if Bullets(lines) != [] then content == [INTRO, ""] + Bullets(lines)
    else if Prose(lines) != [] then content == Prose(lines)
    else content == ["_No entities auto-detected._"]
  }

  /** What the new section says: the chosen block's bullets under the
      introduction; without bullets its prose; without prose the placeholder. */
  ghost predicate Says(content: seq<string>, blocks: seq<Block>) {
    if blocks == [] then content == ["_No entities auto-detected._"]
    else exists k :: IsChosen(blocks, k) && Retells(content, blocks[k].lines)
  }

  lemma ContentSays(blocks: seq<Block>)
    ensures Says(ContentLines(blocks), blocks)
  {
    hide Bullets;
    hide Prose;
    hide Best;
    if blocks != [] {
      var k := ChosenIsFirst(blocks);
      assert Retells(ContentLines(blocks), blocks[k].lines);
    }
  }

  /** The lines kept, their blank end replaced by one blank line; nothing where
      nothing else is kept. */
  ghost predicate Fronts(front: seq<string>, kept: seq<string>) {
    exists n :: 0 <= n <= |kept| && (forall i :: n <= i < |kept| ==> kept[i] == "")
      && (if n == 0 then front == [] else kept[n - 1] != "" && front == kept[..n] + [""])
  }

  lemma {:induction false} FrontFronts(kept: seq<string>)
    ensures Fronts(Front(kept), kept)
  {
    if kept == [] || kept[|kept| - 1] != "" {
      assert kept[..|kept|] == kept;
    } else {
      var last := |kept| - 1;
      FrontFronts(kept[..last]);
      var n :| 0 <= n <= last && (forall i :: n <= i < last ==> kept[..last][i] == "")
        && (if n == 0 then Front(kept[..last]) == []
            else kept[..last][n - 1] != "" && Front(kept[..last]) == kept[..last][..n] + [""]);
      assert kept[..last][..n] == kept[..n];
      assert forall i :: n <= i < last ==> kept[i] == kept[..last][i];
    }
  }

  /** The whole page after the write, line by line: the lines outside the
      server's sections, and one section with the chosen content and the mark. */
  lemma PageWritten(body: string)
    ensures var lines := Split(body, '\n');
            exists front, content :: Fronts(front, Outside(lines, |lines|)) && Says(content, Blocks(lines)) &&
              Split(Collapsed(body), '\n') ==
              front + (["## Mentioned"] + ([""] + content + ["", "<!-- granola-sync:enriched -->", ""]))
  {
    hide *;
    var lines := Split(body, '\n');
    CollapsedText(body);
    KeptIff(lines);
    FrontFronts(Kept(lines));
    ContentSays(Blocks(lines));
    SectionSpelled(lines);
  }

  lemma SectionSpelled(lines: seq<string>)
    ensures CollapsedLines(lines) ==
            Front(Kept(lines)) +
            (["## Mentioned"] + ([""] + ContentLines(Blocks(lines)) + ["", "<!-- granola-sync:enriched -->", ""]))
  {
    hide Kept;
    hide Blocks;
    hide Front;
    hide ContentLines;
  }
}
