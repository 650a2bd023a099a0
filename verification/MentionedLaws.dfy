/** What collapsing the `## Mentioned` sections of a page keeps. */
module MentionedLaws {
  import opened Text
  import opened Mentioned

  // ---------------------------------------------------- the chosen block

  /** The chosen block is one of the page's, none has more bullets, and among
      the richest one with the sentinel is preferred. */
  lemma {:induction false} RichestChosen(blocks: seq<Block>)
    requires blocks != []
    ensures Best(blocks) in blocks
    ensures forall b :: b in blocks ==> |Bullets(b.lines)| <= |Bullets(Best(blocks).lines)|
    ensures forall b :: b in blocks && |Bullets(b.lines)| == |Bullets(Best(blocks).lines)| && b.hasSentinel ==>
                        Best(blocks).hasSentinel
  {
    hide Bullets;
    if |blocks| > 1 {
      var init, last := blocks[..|blocks| - 1], blocks[|blocks| - 1];
      RichestChosen(init);
      assert forall b :: b in blocks <==> b in init || b == last;
    }
  }

  // ---------------------------------------------------------- the filters

  lemma {:induction false} BulletsConcat(a: seq<string>, b: seq<string>)
    ensures Bullets(a + b) == Bullets(a) + Bullets(b)
  {
    hide IsBullet;
    if b == [] {
      assert a + b == a;
    } else {
      assert (a + b)[..|a + b| - 1] == a + b[..|b| - 1];
      BulletsConcat(a, b[..|b| - 1]);
    }
  }

  lemma {:induction false} ProseConcat(a: seq<string>, b: seq<string>)
    ensures Prose(a + b) == Prose(a) + Prose(b)
  {
    hide IsProse;
    if b == [] {
      assert a + b == a;
    } else {
      assert (a + b)[..|a + b| - 1] == a + b[..|b| - 1];
      ProseConcat(a, b[..|b| - 1]);
    }
  }

  lemma {:induction false} BulletsElements(s: seq<string>)
    ensures forall l :: l in Bullets(s) <==> l in s && IsBullet(l)
  {
    hide IsBullet;
    if s != [] {
      BulletsElements(s[..|s| - 1]);
    }
  }

  lemma {:induction false} ProseElements(s: seq<string>)
    ensures forall l :: l in Prose(s) <==> l in s && IsProse(l)
  {
    hide IsProse;
    if s != [] {
      ProseElements(s[..|s| - 1]);
    }
  }

  lemma {:induction false} AllBullets(s: seq<string>)
    requires forall i :: 0 <= i < |s| ==> IsBullet(s[i])
    ensures Bullets(s) == s
  {
    hide IsBullet;
    if s != [] {
      var init, last := s[..|s| - 1], s[|s| - 1];
      AllBullets(init);
      assert s == init + [last];
    }
  }

  lemma {:induction false} AllProse(s: seq<string>)
    requires forall i :: 0 <= i < |s| ==> IsProse(s[i])
    ensures Prose(s) == s
  {
    hide IsProse;
    if s != [] {
      var init, last := s[..|s| - 1], s[|s| - 1];
      AllProse(init);
      assert s == init + [last];
    }
  }

  lemma NoBullets(s: seq<string>)
    requires forall l :: l in s ==> !IsBullet(l)
    ensures Bullets(s) == []
  {
    hide IsBullet;
    BulletsElements(s);
    assert |Bullets(s)| > 0 ==> Bullets(s)[0] in Bullets(s);
  }

  // ------------------------------------------------------ the fixed lines

  lemma FixedLines()
    ensures !IsBoundary(INTRO) && !IsBoundary("") && !IsBoundary(SENTINEL) && !IsBoundary(PLACEHOLDER)
    ensures !IsBullet(INTRO) && !IsBullet("") && !IsBullet(SENTINEL) && !IsBullet(PLACEHOLDER)
  {
    assert INTRO[0] == INTRO_WHO[0] == 'P';
    assert SENTINEL[0] == '<' && PLACEHOLDER[0] == '_';
    StartsSolid(INTRO);
    StartsSolid(SENTINEL);
    StartsSolid(PLACEHOLDER);
  }

  lemma StartsSolid(s: string)
    requires s != "" && !IsSpace(s[0])
    ensures TrimStart(s) == s
  {
  }

  lemma FixedProse()
    ensures !IsProse("") && !IsProse(SENTINEL) && IsProse(PLACEHOLDER)
  {
    hide Includes;
    assert TrimStart("") == "" && Trim("") == "";
    assert !IsProse(SENTINEL) by { IncludesSelf(SENTINEL); }
    PlaceholderProse();
  }

  lemma IncludesSelf(s: string)
    ensures Includes(s, s)
  {
  }

  lemma {:induction false} NotIncluded(line: string, part: string)
    requires part != "" && part[0] !in line
    ensures !Includes(line, part)
  {
    if line != "" {
      assert forall c :: c in line[1..] ==> c in line;
      NotIncluded(line[1..], part);
      assert line[0] in line;
    }
  }

  lemma PlaceholderProse()
    ensures IsProse(PLACEHOLDER)
  {
    hide Includes;
    assert PLACEHOLDER[0] == '_' && PLACEHOLDER[|PLACEHOLDER| - 1] == '_';
    assert SENTINEL[0] == '<';
    NotIncluded(PLACEHOLDER, SENTINEL);
    TrimmedIsKept(PLACEHOLDER);
  }

  // ------------------------------------------------- the page, by lines

  function Section(blocks: seq<Block>): seq<string> {
    [""] + ContentLines(blocks) + ["", SENTINEL, ""]
  }

  function DropBlank(lines: seq<string>): seq<string> {
    if lines != [] && lines[|lines| - 1] == "" then DropBlank(lines[..|lines| - 1]) else lines
  }

  function Front(kept: seq<string>): seq<string> {
    if DropBlank(kept) == [] then [] else DropBlank(kept) + [""]
  }

  /** The lines of the page written: what the server keeps, then one section. */
  function CollapsedLines(lines: seq<string>): seq<string> {
    Front(Kept(lines)) + ([HEADING] + Section(Blocks(lines)))
  }

  lemma {:induction false} JoinConcat(a: seq<string>, b: seq<string>)
    requires a != [] && b != []
    ensures JoinLines(a + b) == JoinLines(a) + "\n" + JoinLines(b)
  {
    assert (a + b)[1..] == a[1..] + b;
    if |a| == 1 {
      assert (a + b)[1..] == b;
    } else {
      JoinConcat(a[1..], b);
      assert JoinLines(a + b) == a[0] + "\n" + (JoinLines(a[1..]) + "\n" + JoinLines(b));
      assert JoinLines(a) == a[0] + "\n" + JoinLines(a[1..]);
    }
  }

  lemma JoinOne(l: string)
    ensures JoinLines([l]) == l
  {
  }

  lemma {:induction false} TrimNewlinesIsDropBlank(kept: seq<string>)
    requires OneLiners(kept)
    ensures TrimNewlines(JoinLines(kept)) == JoinLines(DropBlank(kept))
    ensures JoinLines(DropBlank(kept)) == "" <==> DropBlank(kept) == []
  {
    hide JoinLines;
    if kept == [] {
      assert JoinLines([]) == "" by { JoinNone(); }
    } else {
      var init, last := kept[..|kept| - 1], kept[|kept| - 1];
      assert kept == init + [last];
      assert forall l :: l in init ==> l in kept;
      assert last in kept;
      JoinOne(last);
      if init != [] {
        JoinConcat(init, [last]);
      }
      if last == "" {
        TrimNewlinesIsDropBlank(init);
        if init == [] {
          assert JoinLines(kept) == "";
        } else {
          assert JoinLines(kept) == JoinLines(init) + "\n";
          assert JoinLines(kept)[..|JoinLines(kept)| - 1] == JoinLines(init);
        }
      } else {
        var joined := JoinLines(kept);
        assert joined[|joined| - 1] == last[|last| - 1];
        assert last[|last| - 1] in last;
      }
    }
  }

  lemma JoinNone()
    ensures JoinLines([]) == ""
  {
  }

  lemma {:induction false} KeptLines(lines: seq<string>)
    ensures forall l :: l in Kept(lines) ==> l in lines && !IsServerHeading(l)
    decreases |lines|
  {
    hide IsServerHeading;
    hide UntilBoundary;
    if lines != [] {
      if IsServerHeading(lines[0]) {
        KeptLines(lines[1 + |UntilBoundary(lines[1..])|..]);
      } else {
        KeptLines(lines[1..]);
      }
    }
  }

  /** The block's lines are lines of the page, none a boundary. */
  predicate Within(b: Block, lines: seq<string>) {
    forall l :: l in b.lines ==> l in lines && !IsBoundary(l)
  }

  lemma BlocksHead(lines: seq<string>)
    requires lines != []
    ensures var own := UntilBoundary(lines[1..]);
            Blocks(lines) == if IsHeading(lines[0]) then [Block(own, HasSentinel(own))] + Blocks(lines[1 + |own|..])
                             else Blocks(lines[1..])
  {
    hide IsHeading;
    hide UntilBoundary;
    hide HasSentinel;
  }

  lemma NoBlocks()
    ensures Blocks([]) == []
  {
  }

  lemma WithinGrows(b: Block, part: seq<string>, lines: seq<string>)
    requires Within(b, part) && forall i :: 0 <= i < |part| ==> part[i] in lines
    ensures Within(b, lines)
  {
    hide IsBoundary;
  }

  lemma OwnWithin(b: Block, lines: seq<string>)
    requires b.lines == UntilBoundary(lines)
    ensures Within(b, lines)
  {
    hide IsBoundary;
  }

  lemma {:induction false} BlocksLines(lines: seq<string>)
    ensures forall b :: b in Blocks(lines) ==> Within(b, lines)
    decreases |lines|
  {
    hide *;
    if lines == [] {
      NoBlocks();
    } else {
      BlocksHead(lines);
      var own := UntilBoundary(lines[1..]);
      var rest := if IsHeading(lines[0]) then lines[1 + |own|..] else lines[1..];
      BlocksLines(rest);
      forall b | b in Blocks(lines) ensures Within(b, lines) {
        if b in Blocks(rest) {
          WithinGrows(b, rest, lines);
        } else {
          OwnWithin(b, lines[1..]);
          WithinGrows(b, lines[1..], lines);
        }
      }
    }
  }

  /** Nothing in a section written from a page's own blocks ends it early. */
  lemma ContentPlain(lines: seq<string>)
    ensures forall l :: l in ContentLines(Blocks(lines)) ==> !IsBoundary(l)
    ensures OneLiners(lines) ==> OneLiners(ContentLines(Blocks(lines)))
  {
    hide IsBoundary;
    hide Blocks;
    hide Best;
    hide Bullets;
    hide Prose;
    FixedLines();
    FixedOneLiners();
    var blocks := Blocks(lines);
    if blocks != [] {
      RichestChosen(blocks);
      BlocksLines(lines);
      BulletsElements(Best(blocks).lines);
      ProseElements(Best(blocks).lines);
    }
  }

  lemma FixedOneLiners()
    ensures '\n' !in INTRO && '\n' !in SENTINEL && '\n' !in PLACEHOLDER && '\n' !in HEADING
  {
    IntroOneLiner();
    SentinelOneLiner();
    PlaceholderOneLiner();
  }

  lemma IntroOneLiner()
    ensures '\n' !in INTRO
  {
    assert '\n' !in INTRO_WHO by { WhoOneLiner(); }
    assert '\n' !in INTRO_WHERE by { WhereOneLiner(); }
    assert '\n' !in INTRO_HOW by { HowOneLiner(); }
  }

  lemma WhoOneLiner()
    ensures '\n' !in INTRO_WHO
  {
  }

  lemma WhereOneLiner()
    ensures '\n' !in INTRO_WHERE
  {
  }

  lemma HowOneLiner()
    ensures '\n' !in INTRO_HOW
  {
  }

  lemma SentinelOneLiner()
    ensures '\n' !in SENTINEL
  {
  }

  lemma PlaceholderOneLiner()
    ensures '\n' !in PLACEHOLDER
  {
  }

  lemma {:induction false} UntilAll(s: seq<string>)
    requires forall i :: 0 <= i < |s| ==> !IsBoundary(s[i])
    ensures UntilBoundary(s) == s
  {
    hide IsBoundary;
    if s != [] {
      UntilAll(s[1..]);
      assert s == [s[0]] + s[1..];
    }
  }

  /** Lines that open no section are passed over, and kept. */
  lemma {:induction false} PassedOver(front: seq<string>, rest: seq<string>)
    requires forall i :: 0 <= i < |front| ==> !IsServerHeading(front[i])
    ensures Blocks(front + rest) == Blocks(rest)
    ensures Kept(front + rest) == front + Kept(rest)
  {
    if front == [] {
      assert front + rest == rest;
      assert front + Kept(rest) == Kept(rest);
    } else {
      hide IsServerHeading;
      hide IsHeading;
      hide UntilBoundary;
      SectionsAreBoundaries(front[0]);
      assert (front + rest)[1..] == front[1..] + rest;
      PassedOver(front[1..], rest);
      assert front + Kept(rest) == [front[0]] + (front[1..] + Kept(rest));
    }
  }

  lemma SectionPlain(lines: seq<string>)
    ensures forall i :: 0 <= i < |Section(Blocks(lines))| ==> !IsBoundary(Section(Blocks(lines))[i])
    ensures HasSentinel(Section(Blocks(lines)))
  {
    hide IsBoundary;
    hide Blocks;
    hide ContentLines;
    hide HasSentinel;
    hide Includes;
    ContentPlain(lines);
    FixedLines();
    IncludesSelf(SENTINEL);
    PlainAround(ContentLines(Blocks(lines)), "", SENTINEL);
  }

  lemma PlainAround(c: seq<string>, blank: string, mark: string)
    requires forall l :: l in c ==> !IsBoundary(l)
    requires !IsBoundary(blank) && !IsBoundary(mark) && Includes(mark, SENTINEL)
    ensures var s := [blank] + c + [blank, mark, blank];
            (forall i :: 0 <= i < |s| ==> !IsBoundary(s[i])) && HasSentinel(s)
  {
    hide IsBoundary;
    hide Includes;
    var s := [blank] + c + [blank, mark, blank];
    assert s[|c| + 2] == mark;
  }

  lemma {:induction false} DropBlankIsPrefix(kept: seq<string>)
    ensures DropBlank(kept) <= kept
    ensures DropBlank(kept) == [] || DropBlank(kept)[|DropBlank(kept)| - 1] != ""
  {
    if kept != [] && kept[|kept| - 1] == "" {
      DropBlankIsPrefix(kept[..|kept| - 1]);
    }
  }

  lemma FrontAgain(kept: seq<string>)
    ensures Front(Front(kept)) == Front(kept)
    ensures forall l :: l in Front(kept) ==> l in kept || l == ""
  {
    DropBlankIsPrefix(kept);
    var d := DropBlank(kept);
    if d != [] {
      assert (d + [""])[..|d|] == d;
      assert DropBlank(d) == d;
      assert DropBlank(d + [""]) == d;
    }
  }

  lemma HeadingOpens()
    ensures IsHeading(HEADING) && IsServerHeading(HEADING) && !IsServerHeading("")
  {
    var t := HEADING[2..];
    assert t == " Mentioned";
    assert t[1..] == "Mentioned" && IsSpace(t[0]);
    TrimmedIsKept("Mentioned");
    assert TrimStart(t) == TrimStart(t[1..]) == "Mentioned" by { StartsSolid("Mentioned"); }
    assert Trim(t) == Trim("Mentioned");
    SectionsAreBoundaries(HEADING);
  }

  /** The page written holds one section, and the server would keep all the rest of it. */
  lemma ReadsBack(lines: seq<string>)
    ensures Blocks(CollapsedLines(lines)) == [Block(Section(Blocks(lines)), true)]
    ensures Kept(CollapsedLines(lines)) == Front(Kept(lines))
  {
    hide Front;
    hide Section;
    hide Blocks;
    hide Kept;
    hide IsHeading;
    hide IsServerHeading;
    hide HasSentinel;
    hide UntilBoundary;
    var front, own := Front(Kept(lines)), Section(Blocks(lines));
    KeptLines(lines);
    FrontAgain(Kept(lines));
    HeadingOpens();
    assert forall i :: 0 <= i < |front| ==> front[i] in front;
    PassedOver(front, [HEADING] + own);
    SectionPlain(lines);
    UntilAll(own);
    OneSection(own);
  }

  lemma OneSection(own: seq<string>)
    requires UntilBoundary(own) == own && IsHeading(HEADING) && IsServerHeading(HEADING)
    ensures Blocks([HEADING] + own) == [Block(own, HasSentinel(own))]
    ensures Kept([HEADING] + own) == []
  {
    hide IsHeading;
    hide IsServerHeading;
    hide HasSentinel;
    hide UntilBoundary;
    var all := [HEADING] + own;
    assert all[1..] == own && all[1 + |own|..] == [];
  }

  /** The bullets written are the chosen block's, and choosing again from the
      page written gives the same content. */
  lemma ContentAgain(lines: seq<string>)
    ensures var blocks := Blocks(lines);
            && ContentLines([Block(Section(blocks), true)]) == ContentLines(blocks)
            && Bullets(Section(blocks)) == if blocks == [] then [] else Bullets(Best(blocks).lines)
  {
    hide Blocks;
    hide ContentLines;
    hide Bullets;
    hide Prose;
    hide IsBullet;
    hide IsProse;
    hide Best;
    hide Section;
    var blocks := Blocks(lines);
    SectionFilters(blocks);
    ContentFilters(blocks);
    OnlyBlock(Block(Section(blocks), true));
  }

  /** The lines around the content are neither bullets nor prose. */
  lemma SectionFilters(blocks: seq<Block>)
    ensures Bullets(Section(blocks)) == Bullets(ContentLines(blocks))
    ensures Prose(Section(blocks)) == Prose(ContentLines(blocks))
  {
    hide ContentLines;
    hide Bullets;
    hide Prose;
    hide IsBullet;
    hide IsProse;
    var c, tail := ContentLines(blocks), ["", SENTINEL, ""];
    FixedLines();
    FixedProse();
    assert forall l :: l in tail ==> l == "" || l == SENTINEL;
    NoBullets(tail);
    NoProse(tail);
    NoBullets([""]);
    NoProse([""]);
    BulletsConcat([""] + c, tail);
    BulletsConcat([""], c);
    ProseConcat([""] + c, tail);
    ProseConcat([""], c);
  }

  lemma NoProse(s: seq<string>)
    requires forall l :: l in s ==> !IsProse(l)
    ensures Prose(s) == []
  {
    hide IsProse;
    ProseElements(s);
    assert |Prose(s)| > 0 ==> Prose(s)[0] in Prose(s);
  }

  lemma OnlyBlock(b: Block)
    ensures ContentLines([b]) ==
            if Bullets(b.lines) != [] then [INTRO, ""] + Bullets(b.lines)
            else if Prose(b.lines) != [] then Prose(b.lines) else [PLACEHOLDER]
  {
    hide Bullets;
    hide Prose;
  }

  lemma ContentFilters(blocks: seq<Block>)
    ensures var c := ContentLines(blocks);
            var bullets := if blocks == [] then [] else Bullets(Best(blocks).lines);
            && Bullets(c) == bullets
            && (bullets != [] ==> c == [INTRO, ""] + bullets)
            && (bullets == [] ==> Prose(c) == c)
  {
    hide Bullets;
    hide Prose;
    hide IsBullet;
    hide IsProse;
    hide Best;
    FixedLines();
    FixedProse();
    var c := ContentLines(blocks);
    NoBullets([PLACEHOLDER]);
    AllProse([PLACEHOLDER]);
    if blocks != [] {
      var lines := Best(blocks).lines;
      BulletsElements(lines);
      ProseElements(lines);
      if Bullets(lines) != [] {
        assert forall i :: 0 <= i < |Bullets(lines)| ==> Bullets(lines)[i] in Bullets(lines);
        AllBullets(Bullets(lines));
        NoBullets([INTRO, ""]);
        BulletsConcat([INTRO, ""], Bullets(lines));
      } else if Prose(lines) != [] {
        assert forall i :: 0 <= i < |Prose(lines)| ==> Prose(lines)[i] in Prose(lines);
        AllProse(Prose(lines));
        assert forall l :: l in Prose(lines) ==> l in lines && l !in Bullets(lines);
        NoBullets(Prose(lines));
      }
    }
  }

  // -------------------------------------------------- the page, as text

  lemma SectionText(content: seq<string>)
    requires content != []
    ensures JoinLines([HEADING] + ([""] + content + ["", SENTINEL, ""])) ==
            HEADING + "\n\n" + (JoinLines(content) + "\n\n" + SENTINEL + "\n")
  {
    hide *;
    var tail := ["", SENTINEL, ""];
    JoinThree("", SENTINEL, "");
    JoinConcat(content, tail);
    JoinConcat([HEADING, ""], content + tail);
    JoinConcat([HEADING], [""]);
    JoinOne(HEADING);
    JoinOne("");
    assert [HEADING] + [""] == [HEADING, ""];
    assert [HEADING] + ([""] + content + tail) == [HEADING, ""] + (content + tail);
    Regrouped(HEADING, JoinLines(content), SENTINEL);
  }

  lemma Regrouped(h: string, t: string, s: string)
    ensures h + "\n" + "" + "\n" + (t + "\n" + ("" + "\n" + s + "\n" + "")) == h + "\n\n" + (t + "\n\n" + s + "\n")
  {
    var a, b := t + "\n" + ("" + "\n" + s + "\n" + ""), t + "\n\n" + s + "\n";
    assert a == b;
    assert h + "\n" + "" + "\n" + b == h + "\n\n" + b;
  }

  lemma JoinThree(a: string, b: string, c: string)
    ensures JoinLines([a, b, c]) == a + "\n" + b + "\n" + c
  {
    hide JoinLines;
    JoinConcat([a], [b, c]);
    JoinConcat([b], [c]);
    JoinOne(a);
    JoinOne(b);
    JoinOne(c);
    assert [a] + [b, c] == [a, b, c] && [b] + [c] == [b, c];
  }

  lemma FrontText(kept: seq<string>, own: seq<string>)
    requires OneLiners(kept) && own != []
    ensures var cleaned := TrimNewlines(JoinLines(kept));
            JoinLines(Front(kept) + own) == cleaned + (if cleaned == "" then "" else "\n\n") + JoinLines(own)
  {
    hide JoinLines;
    hide DropBlank;
    hide TrimNewlines;
    TrimNewlinesIsDropBlank(kept);
    var d := DropBlank(kept);
    if d == [] {
      assert Front(kept) + own == own;
      assert "" + "" + JoinLines(own) == JoinLines(own);
    } else {
      JoinConcat(d, [""] + own);
      JoinConcat([""], own);
      JoinOne("");
      assert Front(kept) + own == d + ([""] + own);
      assert JoinLines(d) + "\n" + ("" + "\n" + JoinLines(own)) == JoinLines(d) + "\n\n" + JoinLines(own);
    }
  }

  lemma EndsSolid(s: string)
    ensures EndsWith(s + "\n\n" + SENTINEL, "\n") == false
  {
    var t := s + "\n\n" + SENTINEL;
    assert SENTINEL[|SENTINEL| - 1] == '>';
    assert t[|t| - 1] == '>';
    assert t[|t| - 1..][0] == '>';
  }

  /** The text written is the lines of `CollapsedLines`. */
  lemma CollapsedText(body: string)
    ensures Collapsed(body) == JoinLines(CollapsedLines(Split(body, '\n')))
    ensures Split(Collapsed(body), '\n') == CollapsedLines(Split(body, '\n'))
  {
    hide JoinLines;
    hide Split;
    hide Front;
    hide Kept;
    hide Blocks;
    hide ContentLines;
    hide EndsWith;
    hide TrimNewlines;
    var lines := Split(body, '\n');
    var kept, content := Kept(lines), ContentLines(Blocks(lines));
    SplitPieces(body, '\n');
    KeptLines(lines);
    FrontText(kept, [HEADING] + Section(Blocks(lines)));
    SectionText(content);
    EndsSolid(JoinLines(content));
    var cleaned := TrimNewlines(JoinLines(kept));
    var sep := if cleaned == "" then "" else "\n\n";
    var fragment := JoinLines(content) + "\n\n" + SENTINEL;
    assert Collapsed(body) == cleaned + sep + HEADING + "\n\n" + (fragment + "\n");
    assert cleaned + sep + (HEADING + "\n\n" + (fragment + "\n")) == cleaned + sep + HEADING + "\n\n" + (fragment + "\n");
    AllOneLiners(lines);
    SplitJoined(CollapsedLines(lines));
  }

  lemma AllOneLiners(lines: seq<string>)
    requires OneLiners(lines)
    ensures OneLiners(CollapsedLines(lines)) && CollapsedLines(lines) != []
  {
    hide Front;
    hide Kept;
    hide Blocks;
    hide ContentLines;
    hide IsBoundary;
    KeptLines(lines);
    FrontAgain(Kept(lines));
    ContentPlain(lines);
    FixedOneLiners();
    var front, own := Front(Kept(lines)), Section(Blocks(lines));
    assert OneLiners(front);
    assert OneLiners(own) by {
      assert forall l :: l in own ==> l in ContentLines(Blocks(lines)) || l == "" || l == SENTINEL;
    }
    OneLinersConcat([HEADING], own);
    OneLinersConcat(front, [HEADING] + own);
  }

  // ------------------------------------------------------------ the laws

  /** After the write the page holds exactly one section, with the sentinel
      and the bullets of the richest block, and is no longer affected. */
  lemma CollapsesToOne(body: string)
    ensures var before := Blocks(Split(body, '\n'));
            var after := Blocks(Split(Collapsed(body), '\n'));
            && |after| == 1 && after[0].hasSentinel && !IsAffected(after)
            && (before != [] ==> Bullets(after[0].lines) == Bullets(Best(before).lines))
  {
    hide *;
    CollapsedText(body);
    ReadsBack(Split(body, '\n'));
    ContentAgain(Split(body, '\n'));
    NotAffected(Block(Section(Blocks(Split(body, '\n'))), true));
  }

  lemma NotAffected(b: Block)
    ensures IsAffected([b]) == !b.hasSentinel
  {
  }

  /** Collapsing a collapsed page writes the same page again. */
  lemma CollapseIdempotent(body: string)
    ensures Collapsed(Collapsed(body)) == Collapsed(body)
  {
    hide *;
    var lines := Split(body, '\n');
    CollapsedText(body);
    CollapsedText(Collapsed(body));
    assert CollapsedLines(CollapsedLines(lines)) == CollapsedLines(lines) by {
      LinesIdempotent(lines);
    }
  }

  lemma LinesIdempotent(lines: seq<string>)
    ensures CollapsedLines(CollapsedLines(lines)) == CollapsedLines(lines)
  {
    hide Front;
    hide Kept;
    hide Blocks;
    hide ContentLines;
    ReadsBack(lines);
    ContentAgain(lines);
    FrontAgain(Kept(lines));
  }

  /** The lines of the sections the script sees, headings included. */
  function Seen(blocks: seq<Block>): nat {
    if blocks == [] then 0 else 1 + |blocks[0].lines| + Seen(blocks[1..])
  }

  predicate IsCaseVariant(line: string) {
    IsServerHeading(line) && !IsHeading(line)
  }

  lemma SeenFirst(own: seq<string>, rest: seq<Block>)
    ensures Seen([Block(own, HasSentinel(own))] + rest) == 1 + |own| + Seen(rest)
  {
    hide HasSentinel;
    var all := [Block(own, HasSentinel(own))] + rest;
    assert all[1..] == rest;
  }

  predicate NoVariant(lines: seq<string>) {
    forall i :: 0 <= i < |lines| ==> !IsCaseVariant(lines[i])
  }

  lemma OwnHasNoVariant(own: seq<string>)
    requires forall l :: l in own ==> !IsBoundary(l)
    ensures NoVariant(own)
  {
    hide IsBoundary;
    hide IsServerHeading;
    hide IsHeading;
    forall i | 0 <= i < |own| ensures !IsCaseVariant(own[i]) {
      SectionsAreBoundaries(own[i]);
    }
  }

  /** Everything the server strips is a section the script has looked at
      exactly when no heading is spelled with other capitals; otherwise the
      write drops lines the script never saw. */
  lemma {:induction false} StripsWhatItSawIff(lines: seq<string>)
    ensures |Kept(lines)| + Seen(Blocks(lines)) <= |lines|
    ensures |Kept(lines)| + Seen(Blocks(lines)) == |lines| <==> NoVariant(lines)
    decreases |lines|
  {
    hide IsBoundary;
    hide IsServerHeading;
    hide IsHeading;
    hide UntilBoundary;
    hide HasSentinel;
    if lines != [] {
      var own := UntilBoundary(lines[1..]);
      var rest := lines[1 + |own|..];
      assert lines == [lines[0]] + own + rest;
      SectionsAreBoundaries(lines[0]);
      OwnHasNoVariant(own);
      assert NoVariant(lines) <==> !IsCaseVariant(lines[0]) && NoVariant(rest) by { SplitVariant(lines[0], own, rest); }
      if IsHeading(lines[0]) {
        StripsWhatItSawIff(rest);
        SeenFirst(own, Blocks(rest));
      } else if IsServerHeading(lines[0]) {
        StripsWhatItSawIff(rest);
        assert lines[1..] == own + rest;
        OwnOpensNothing(own, rest);
      } else {
        assert NoVariant(lines) <==> NoVariant(lines[1..]);
        StripsWhatItSawIff(lines[1..]);
      }
    }
  }

  lemma SplitVariant(first: string, own: seq<string>, rest: seq<string>)
    requires NoVariant(own)
    ensures NoVariant([first] + own + rest) <==> !IsCaseVariant(first) && NoVariant(rest)
  {
    hide IsCaseVariant;
    var all := [first] + own + rest;
    assert forall i :: 0 <= i < |rest| ==> all[1 + |own| + i] == rest[i];
    assert forall i :: 0 <= i < |own| ==> all[1 + i] == own[i];
    assert all[0] == first;
  }

  lemma OwnOpensNothing(own: seq<string>, rest: seq<string>)
    requires forall l :: l in own ==> !IsBoundary(l)
    ensures Blocks(own + rest) == Blocks(rest)
  {
    hide IsBoundary;
    hide IsServerHeading;
    hide Blocks;
    forall i | 0 <= i < |own| ensures !IsServerHeading(own[i]) {
      SectionsAreBoundaries(own[i]);
    }
    PassedOver(own, rest);
  }

  lemma VariantHeading()
    ensures IsServerHeading("## mentioned") && !IsHeading("## mentioned")
  {
    var line := "## mentioned";
    var t := line[2..];
    assert t == " mentioned" && t[1..] == "mentioned" && IsSpace(t[0]);
    TrimmedIsKept("mentioned");
    assert TrimStart(t) == TrimStart(t[1..]) == "mentioned" by { StartsSolid("mentioned"); }
    assert Trim(t) == "mentioned";
    assert Folded("mentioned") == "mentioned";
    assert "mentioned"[0] != "Mentioned"[0];
  }

  lemma BulletPlain(line: string)
    requires IsBullet(line)
    ensures !IsBoundary(line) && !IsHeading(line) && !IsServerHeading(line)
  {
    hide IsHeading;
    hide IsServerHeading;
    SectionsAreBoundaries(line);
  }

  lemma VariantScan(bullet: string)
    requires IsBullet(bullet)
    ensures var lines := ["## mentioned", bullet, HEADING];
            Blocks(lines) == [Block([], false)] && Kept(lines) == []
  {
    hide IsHeading;
    hide IsServerHeading;
    hide IsBoundary;
    hide IsBullet;
    hide Blocks;
    hide Kept;
    hide UntilBoundary;
    var lines := ["## mentioned", bullet, HEADING];
    VariantHeading();
    HeadingOpens();
    BulletPlain(bullet);
    SectionsAreBoundaries(HEADING);
    assert lines[0..] == lines;
    assert lines[3..] == [];
    UntilAt(lines, 1);
    UntilAt(lines, 2);
    UntilAt(lines, 3);
    BlocksAt(lines, 0);
    BlocksAt(lines, 1);
    BlocksAt(lines, 2);
    KeptAt(lines, 0);
    KeptAt(lines, 2);
    NoBlocks();
    assert Kept(lines[3..]) == [] by { KeptLines([]); assert |Kept([])| > 0 ==> Kept([])[0] in Kept([]); }
  }

  /** The script's own comment promises that what it counts is what the
      server strips; a bullet under `## mentioned` shows otherwise. */
  lemma CaseVariantDropped(bullet: string)
    requires IsBullet(bullet)
    ensures var lines := ["## mentioned", bullet, HEADING];
            && Blocks(lines) == [Block([], false)] && IsAffected(Blocks(lines))
            && Bullets(CollapsedLines(lines)) == []
  {
    hide IsBullet;
    hide Bullets;
    hide Blocks;
    hide Kept;
    hide Front;
    hide ContentLines;
    var lines := ["## mentioned", bullet, HEADING];
    VariantScan(bullet);
    FixedLines();
    HeadingNoBullet();
    NothingKept();
    assert CollapsedLines(lines) == [HEADING, "", PLACEHOLDER, "", SENTINEL, ""];
    assert forall l :: l in CollapsedLines(lines) ==> l == HEADING || l == "" || l == PLACEHOLDER || l == SENTINEL;
    NoBullets(CollapsedLines(lines));
  }

  lemma HeadingNoBullet()
    ensures !IsBullet(HEADING)
  {
    assert HEADING[0] == '#';
    StartsSolid(HEADING);
  }

  lemma NothingKept()
    ensures Front([]) == [] && ContentLines([Block([], false)]) == [PLACEHOLDER]
  {
  }
}
