/**
 * What the help builder promises about the text it renders: short text is left
 * as it is, wrapped lines keep within 80 columns unless a single word is too
 * long, input lines are wrapped independently, option descriptions line up at
 * the shared indentation, and the blank-line rules between elements.
 */
module HelpProperties {
  import opened JavaText
  import opened ArgsHelp

  // ---------------------------------------------------------------------
  // Text that fits is left alone
  // ---------------------------------------------------------------------

  /** Words that fit on the current line are written joined by single spaces. */
  lemma {:induction false} WordsOnOneLine(ind: string, ws: seq<string>, off: int, newline: bool)
    requires ws != []
    requires off + (if newline then 0 else 1) + |Join(ws, ' ')| <= MaxLineLength
    ensures WrapWords(ind, ws, off, newline) == (if newline then "" else " ") + Join(ws, ' ')
  {
    var w := ws[0];
    var out := if newline then w else " " + w;
    if |ws| > 1 {
      assert Join(ws, ' ') == w + [' '] + Join(ws[1..], ' ');
      WordsOnOneLine(ind, ws[1..], off + |out|, false);
    }
  }

  /**
   * A single line of text without trailing space that fits beside the
   * indentation comes out as the indentation, the text and a '\n'.
   */
  lemma ShortTextUnchanged(ind: string, text: string)
    requires '\n' !in text
    requires text == [] || text[|text| - 1] != ' '
    requires |ind| + |text| <= MaxLineLength
    ensures Wrapped(0, ind, text) == ind + text + "\n"
  {
    var ws := Split(text, ' ');
    SplitJoin(text, ' ');
    WordsOnOneLine(ind, ws, |ind|, true);
    var words := WrapWords(ind, ws, |ind|, true);
    assert words == text by {
      assert "" + Join(ws, ' ') == Join(ws, ' ');
    }
    assert Split(text, '\n') == [text];
    assert WrapLines(ind, [text], 0) == ind[0..] + words + "\n" by {
      assert [text][1..] == [];
    }
    assert ind[0..] == ind;
  }

  // ---------------------------------------------------------------------
  // Line width and indentation of wrapped text
  // ---------------------------------------------------------------------

  /** The lines of `s`: the pieces between its '\n' characters. */
  function Lines(s: string): (r: seq<string>)
    ensures |r| >= 1
  {
    Pieces(s, '\n')
  }

  /**
   * A line fits: it is at most 80 characters long, or all that follows the
   * indentation's width is a single word without spaces.
   */
  predicate LineFits(line: string, ind: string) {
    |line| <= MaxLineLength || (|ind| <= |line| && ' ' !in line[|ind|..])
  }

  /**
   * The lines `ls` of a wrapped text after the indentation `ind`: none holds a
   * '\n', every one fits, and every one after the first starts with the
   * indentation unless it is empty.
   */
  predicate WellWrapped(ls: seq<string>, ind: string) {
    && (forall k :: 0 <= k < |ls| ==> '\n' !in ls[k] && LineFits(ls[k], ind))
    && (forall k :: 1 <= k < |ls| ==> ls[k] == "" || ind <= ls[k])
  }

  /**
   * The lines that writing the words `ws` produces, the current line holding
   * `cur`: each word goes onto the current line or opens a new one, as in
   * `WrapWords`.
   */
  function WordLines(ind: string, ws: seq<string>, cur: string, newline: bool): (r: seq<string>)
    ensures |r| >= 1
    decreases |ws|
  {
    if ws == [] then [cur]
    else
      var w := ws[0];
      var out := if newline then w else " " + w;
      if |cur| + |out| > MaxLineLength then [cur] + WordLines(ind, ws[1..], ind + w, false)
      else WordLines(ind, ws[1..], cur + out, false)
  }

  /** The words written after `cur` are those lines joined by '\n'. */
  lemma {:induction false} WordLinesJoin(ind: string, ws: seq<string>, cur: string, newline: bool)
    ensures cur + WrapWords(ind, ws, |cur|, newline) == Join(WordLines(ind, ws, cur, newline), '\n')
    decreases |ws|
  {
    if ws == [] {
      assert cur + WrapWords(ind, ws, |cur|, newline) == cur;
    } else {
      var w := ws[0];
      var out := if newline then w else " " + w;
      if |cur| + |out| > MaxLineLength {
        var rest := WrapWords(ind, ws[1..], |ind + w|, false);
        var lines := WordLines(ind, ws[1..], ind + w, false);
        assert WrapWords(ind, ws, |cur|, newline) == "\n" + ind + w + rest;
        assert WordLines(ind, ws, cur, newline) == [cur] + lines;
        WordLinesJoin(ind, ws[1..], ind + w, false);
        JoinCons(cur, lines, '\n');
        Regroup("\n", ind, w);
        Regroup("\n", ind + w, rest);
        Regroup(cur, "\n", ind + w + rest);
      } else {
        var rest := WrapWords(ind, ws[1..], |cur + out|, false);
        assert WrapWords(ind, ws, |cur|, newline) == out + rest;
        assert WordLines(ind, ws, cur, newline) == WordLines(ind, ws[1..], cur + out, false);
        WordLinesJoin(ind, ws[1..], cur + out, false);
        Regroup(cur, out, rest);
      }
    }
  }

  /** The lines of words written after a line `cur` that fits are well wrapped and the first continues `cur`. */
  lemma {:induction false} WordLinesWrapped(ind: string, ws: seq<string>, cur: string, newline: bool)
    requires '\n' !in ind && '\n' !in cur && LineFits(cur, ind)
    requires forall k :: 0 <= k < |ws| ==> ' ' !in ws[k] && '\n' !in ws[k]
    ensures WellWrapped(WordLines(ind, ws, cur, newline), ind)
    ensures cur <= WordLines(ind, ws, cur, newline)[0]
    decreases |ws|
  {
    if ws != [] {
      var w := ws[0];
      var out := if newline then w else " " + w;
      var tail := ws[1..];
      assert forall k :: 0 <= k < |tail| ==> tail[k] == ws[k + 1];
      if |cur| + |out| > MaxLineLength {
        assert (ind + w)[|ind|..] == w;
        WordLinesWrapped(ind, tail, ind + w, false);
        var rest := WordLines(ind, tail, ind + w, false);
        assert ind <= ind + w <= rest[0];
        var ls := [cur] + rest;
        assert forall k :: 1 <= k < |ls| ==> ls[k] == rest[k - 1];
      } else {
        assert '\n' !in out;
        WordLinesWrapped(ind, tail, cur + out, false);
      }
    }
  }

  /**
   * The lines of the wrapped input lines after a prefix `p` of `start`
   * columns, the last being the empty rest after the final '\n'.
   */
  function OutputLines(ind: string, lines: seq<string>, p: string, start: nat): (r: seq<string>)
    requires start <= |ind|
    ensures |r| >= 1
  {
    if lines == [] then [p]
    else WordLines(ind, Split(lines[0], ' '), p + ind[start..], true) + OutputLines(ind, lines[1..], "", 0)
  }

  /** The wrapped input lines after `p` are those lines joined by '\n'. */
  lemma {:induction false} OutputLinesJoin(ind: string, lines: seq<string>, p: string, start: nat)
    requires start == |p| <= |ind|
    ensures p + WrapLines(ind, lines, start) == Join(OutputLines(ind, lines, p, start), '\n')
  {
    if lines == [] {
      assert p + WrapLines(ind, lines, start) == p;
    } else {
      var cur := p + ind[start..];
      var ws := Split(lines[0], ' ');
      var words := WrapWords(ind, ws, |ind|, true);
      var rest := WrapLines(ind, lines[1..], 0);
      var first := WordLines(ind, ws, cur, true);
      var others := OutputLines(ind, lines[1..], "", 0);
      assert cur + words == Join(first, '\n') by {
        WordLinesJoin(ind, ws, cur, true);
      }
      assert rest == Join(others, '\n') by {
        OutputLinesJoin(ind, lines[1..], "", 0);
        assert "" + rest == rest;
      }
      assert Join(OutputLines(ind, lines, p, start), '\n') == Join(first, '\n') + "\n" + Join(others, '\n') by {
        JoinAppend(first, others, '\n');
      }
      assert p + WrapLines(ind, lines, start) == cur + words + "\n" + rest by {
        WrapLinesFirst(ind, lines, start);
        Regroup(p, ind[start..], words);
        Regroup(p, ind[start..] + words, "\n");
        Regroup(p, ind[start..] + words + "\n", rest);
      }
    }
  }

  /** `WrapLines` of at least one line: the first wrapped line, its '\n', then the others from column 0. */
  lemma WrapLinesFirst(ind: string, lines: seq<string>, start: nat)
    requires lines != [] && start <= |ind|
    ensures WrapLines(ind, lines, start) ==
      ind[start..] + WrapWords(ind, Split(lines[0], ' '), |ind|, true) + "\n" + WrapLines(ind, lines[1..], 0)
  {
  }

  /** The lines of wrapped input lines after a prefix `p` that fits are well wrapped, and the first starts with `p`. */
  lemma {:induction false} OutputLinesWrapped(ind: string, lines: seq<string>, p: string, start: nat)
    requires start == |p| <= |ind|
    requires '\n' !in ind && '\n' !in p && LineFits(p, ind)
    requires forall k :: 0 <= k < |lines| ==> '\n' !in lines[k]
    ensures WellWrapped(OutputLines(ind, lines, p, start), ind)
    ensures p <= OutputLines(ind, lines, p, start)[0]
    ensures lines != [] ==> ind <= OutputLines(ind, lines, p, start)[0] || start > 0
  {
    if lines != [] {
      var cur := p + ind[start..];
      var ws := Split(lines[0], ' ');
      var first := WordLines(ind, ws, cur, true);
      assert WellWrapped(first, ind) && cur <= first[0] by {
        assert cur[|ind|..] == [];
        SplitAvoids(lines[0], ' ', '\n');
        WordLinesWrapped(ind, ws, cur, true);
      }
      var tail := lines[1..];
      var rest := OutputLines(ind, tail, "", 0);
      assert WellWrapped(rest, ind) && (rest[0] == "" || ind <= rest[0]) by {
        assert forall k :: 0 <= k < |tail| ==> tail[k] == lines[k + 1];
        OutputLinesWrapped(ind, tail, "", 0);
        assert ind[0..] == ind;
      }
      WellWrappedAppend(first, rest, ind);
      assert start == 0 ==> cur == ind;
    }
  }

  /** Well-wrapped lines followed by well-wrapped lines whose first starts a new line properly. */
  lemma WellWrappedAppend(first: seq<string>, rest: seq<string>, ind: string)
    requires |first| >= 1 && |rest| >= 1
    requires WellWrapped(first, ind) && WellWrapped(rest, ind)
    requires rest[0] == "" || ind <= rest[0]
    ensures WellWrapped(first + rest, ind)
  {
    var ls := first + rest;
    assert forall k :: |first| <= k < |ls| ==> ls[k] == rest[k - |first|];
  }

  /**
   * `wrapText` after a prefix `p` that fits, as lines: none is longer than 80
   * characters unless it is a single word after the indentation's width, and
   * every line after the first starts with the whole indentation (the last
   * one, after the final '\n', is empty).
   */
  lemma WrappedTextFits(p: string, ind: string, text: string)
    requires '\n' !in ind && '\n' !in p && LineFits(p, ind)
    ensures WellWrapped(Lines(p + Wrapped(|p|, ind, text)), ind)
  {
    var lines := Split(text, '\n');
    if |p| > |ind| {
      WrappedOnNewLine(p, ind, text);
    } else {
      OutputLinesJoin(ind, lines, p, |p|);
      OutputLinesWrapped(ind, lines, p, |p|);
      LinesOfJoin(p + Wrapped(|p|, ind, text), OutputLines(ind, lines, p, |p|), ind);
    }
  }

  /** `WrappedTextFits` when the prefix passes the indentation and the text starts on the next line. */
  lemma WrappedOnNewLine(p: string, ind: string, text: string)
    requires '\n' !in ind && '\n' !in p && LineFits(p, ind)
    requires |p| > |ind|
    ensures WellWrapped(Lines(p + Wrapped(|p|, ind, text)), ind)
  {
    var lines := Split(text, '\n');
    var ls := OutputLines(ind, lines, "", 0);
    var all := [p] + ls;
    assert WellWrapped(all, ind) by {
      OutputLinesWrapped(ind, lines, "", 0);
      assert forall k :: 1 <= k < |all| ==> all[k] == ls[k - 1];
    }
    assert p + Wrapped(|p|, ind, text) == Join(all, '\n') by {
      var w := WrapLines(ind, lines, 0);
      assert Join(ls, '\n') == w by {
        OutputLinesJoin(ind, lines, "", 0);
        assert "" + w == w;
      }
      assert Wrapped(|p|, ind, text) == "\n" + w;
      JoinCons(p, ls, '\n');
      Regroup(p, "\n", w);
    }
    LinesOfJoin(p + Wrapped(|p|, ind, text), all, ind);
  }

  /** A text that joins well-wrapped lines has those lines. */
  lemma LinesOfJoin(out: string, ls: seq<string>, ind: string)
    requires |ls| >= 1 && out == Join(ls, '\n') && WellWrapped(ls, ind)
    ensures Lines(out) == ls
    ensures WellWrapped(Lines(out), ind)
  {
    PiecesJoin(ls, '\n');
  }

  /**
   * A paragraph: every line fits and every line starts with its indentation
   * (the first one too, unless the text has no line at all).
   */
  lemma ParagraphFits(ind: string, text: string)
    requires '\n' !in ind
    ensures WellWrapped(Lines(ElementText(WrapElement(ind, text), "")), ind)
    ensures Split(text, '\n') != [] ==> ind <= Lines(ElementText(WrapElement(ind, text), ""))[0]
  {
    var w := Wrapped(0, ind, text);
    WrappedTextFits("", ind, text);
    assert "" + w == w;
    if Split(text, '\n') != [] {
      StartColumnPads(0, ind, text);
      PiecesKeepPrefix(ind, w, '\n');
    }
  }

  /** An option entry whose label fits on a line: every line fits the shared indentation. */
  lemma OptionFits(usage: string, description: string, indent: string)
    requires '\n' !in usage && '\n' !in indent
    requires LabelWidth(usage) <= MaxLineLength
    ensures WellWrapped(Lines(ElementText(OptionElement(usage, description), indent)), indent)
  {
    WrappedTextFits("  " + usage + " ", indent, description);
  }

  // ---------------------------------------------------------------------
  // Input lines are wrapped independently
  // ---------------------------------------------------------------------

  /** `split` keeps every piece of a text that does not end with the separator. */
  lemma SplitIsPieces(s: string, c: char)
    requires s == [] || s[|s| - 1] != c
    ensures Split(s, c) == Pieces(s, c)
  {
    SplitJoin(s, c);
    if c !in s {
      PiecesOfFree(s, c);
    }
  }

  /** Wrapping consecutive input lines is wrapping each of them in turn. */
  lemma {:induction false} WrapLinesConcat(ind: string, l1: seq<string>, l2: seq<string>)
    ensures WrapLines(ind, l1 + l2, 0) == WrapLines(ind, l1, 0) + WrapLines(ind, l2, 0)
  {
    if l1 == [] {
      assert l1 + l2 == l2;
    } else {
      var first := ind[0..] + WrapWords(ind, Split(l1[0], ' '), |ind|, true) + "\n";
      var r1 := WrapLines(ind, l1[1..], 0);
      var r2 := WrapLines(ind, l2, 0);
      assert WrapLines(ind, l1 + l2, 0) == first + WrapLines(ind, l1[1..] + l2, 0) by {
        assert (l1 + l2)[0] == l1[0];
        assert (l1 + l2)[1..] == l1[1..] + l2;
      }
      WrapLinesConcat(ind, l1[1..], l2);
      assert WrapLines(ind, l1, 0) == first + r1;
      Regroup(first, r1, r2);
    }
  }

  /**
   * Each '\n'-separated input line is wrapped on its own: the text `a + "\n" + b`
   * wraps to the wrapped `a` followed by the wrapped `b`.
   */
  lemma LinesWrappedIndependently(ind: string, a: string, b: string)
    requires a == [] || a[|a| - 1] != '\n'
    requires b != [] && b[|b| - 1] != '\n'
    ensures Wrapped(0, ind, a + "\n" + b) == Wrapped(0, ind, a) + Wrapped(0, ind, b)
  {
    var s := a + "\n" + b;
    assert s[|s| - 1] == b[|b| - 1];
    SplitIsPieces(s, '\n');
    SplitIsPieces(a, '\n');
    SplitIsPieces(b, '\n');
    PiecesAt(a, b, '\n');
    WrapLinesConcat(ind, Pieces(a, '\n'), Pieces(b, '\n'));
  }

  /** Wrapped input lines end with '\n', so the last of them ends the text with one. */
  lemma {:induction false} WrapLinesEndsLine(ind: string, lines: seq<string>, start: nat)
    requires lines != [] && start <= |ind|
    ensures var out := WrapLines(ind, lines, start);
      |out| > 0 && out[|out| - 1] == '\n'
  {
    if |lines| > 1 {
      WrapLinesEndsLine(ind, lines[1..], 0);
    }
  }

  /** The wrapped text ends with '\n' whenever the text has a line. */
  lemma WrappedEndsLine(off: nat, ind: string, text: string)
    requires Split(text, '\n') != []
    ensures var out := Wrapped(off, ind, text);
      |out| > 0 && out[|out| - 1] == '\n'
  {
    WrapLinesEndsLine(ind, Split(text, '\n'), if off > |ind| then 0 else off);
  }

  // ---------------------------------------------------------------------
  // Option entries line up at the shared indentation
  // ---------------------------------------------------------------------

  /**
   * An option entry: when its label `"  " + usage + " "` is no wider than the
   * shared indentation, the label is padded to the indentation's width and the
   * description goes on as a paragraph wrapped with that indentation would
   * after it; when the label is wider, the description starts on the next line
   * as such a paragraph.
   */
  lemma OptionAligned(usage: string, description: string, indent: string)
    ensures var head := "  " + usage + " ";
      var paragraph := Wrapped(0, indent, description);
      var text := ElementText(OptionElement(usage, description), indent);
      && (|head| <= |indent| && Split(description, '\n') != [] ==>
            && |head + indent[|head|..]| == |indent|
            && paragraph[..|indent|] == indent
            && text == head + indent[|head|..] + paragraph[|indent|..])
      && (|head| > |indent| ==> text == head + "\n" + paragraph)
  {
    var head := "  " + usage + " ";
    if |head| <= |indent| && Split(description, '\n') != [] {
      NarrowLabelPadded(usage, description, indent);
    } else if |head| > |indent| {
      WideLabelOwnLine(usage, description, indent);
    }
  }

  /** `OptionAligned` for a label no wider than the shared indentation. */
  lemma NarrowLabelPadded(usage: string, description: string, indent: string)
    requires |"  " + usage + " "| <= |indent| && Split(description, '\n') != []
    ensures var head := "  " + usage + " ";
      var paragraph := Wrapped(0, indent, description);
      && paragraph[..|indent|] == indent
      && ElementText(OptionElement(usage, description), indent) == head + indent[|head|..] + paragraph[|indent|..]
  {
    var head := "  " + usage + " ";
    StartColumnPads(|head|, indent, description);
    Regroup(head, indent[|head|..], Wrapped(0, indent, description)[|indent|..]);
  }

  /** `OptionAligned` for a label wider than the shared indentation. */
  lemma WideLabelOwnLine(usage: string, description: string, indent: string)
    requires |"  " + usage + " "| > |indent|
    ensures var head := "  " + usage + " ";
      ElementText(OptionElement(usage, description), indent) == head + "\n" + Wrapped(0, indent, description)
  {
    var head := "  " + usage + " ";
    assert Wrapped(LabelWidth(usage), indent, description) == "\n" + Wrapped(0, indent, description);
    Regroup(head, "\n", Wrapped(0, indent, description));
  }

  /**
   * Starting at a column `off` within the indentation only shortens the
   * indentation written on the first line: the rest is what a paragraph
   * starting at column 0 has after its indentation.
   */
  lemma StartColumnPads(off: nat, ind: string, text: string)
    requires off <= |ind| && Split(text, '\n') != []
    ensures Wrapped(0, ind, text)[..|ind|] == ind
    ensures Wrapped(off, ind, text) == ind[off..] + Wrapped(0, ind, text)[|ind|..]
  {
    var lines := Split(text, '\n');
    var words := WrapWords(ind, Split(lines[0], ' '), |ind|, true);
    var others := WrapLines(ind, lines[1..], 0);
    var rest := words + "\n" + others;
    assert Wrapped(off, ind, text) == ind[off..] + rest by {
      WrapLinesFirst(ind, lines, off);
      Regroup(ind[off..], words, "\n");
      Regroup(ind[off..], words + "\n", others);
    }
    assert Wrapped(0, ind, text) == ind + rest by {
      WrapLinesFirst(ind, lines, 0);
      assert ind[0..] == ind;
      Regroup(ind, words, "\n");
      Regroup(ind, words + "\n", others);
    }
    SplitsAtPrefix(ind, rest);
  }

  /** A string that starts with `p` splits into `p` and what follows it. */
  lemma SplitsAtPrefix(p: string, rest: string)
    ensures (p + rest)[..|p|] == p && (p + rest)[|p|..] == rest
  {
  }

  /**
   * Every option entry of a builder whose label fits within the shared
   * indentation has its description start in the same column: the width of
   * that indentation, which is the widest label that fits.
   */
  lemma OptionsShareColumn(els: seq<Element>, k: nat)
    requires k < |els| && els[k].OptionElement? && Split(els[k].description, '\n') != []
    requires LabelWidth(els[k].usage) <= IndentWidth(els)
    ensures var indent := Spaces(IndentWidth(els));
      var head := "  " + els[k].usage + " ";
      var text := ElementText(els[k], indent);
      && |head + indent[|head|..]| == IndentWidth(els)
      && head + indent[|head|..] <= text
      && text[IndentWidth(els)..] == Wrapped(0, indent, els[k].description)[IndentWidth(els)..]
  {
    var indent := Spaces(IndentWidth(els));
    OptionAligned(els[k].usage, els[k].description, indent);
  }

  // ---------------------------------------------------------------------
  // The shared indentation
  // ---------------------------------------------------------------------

  /** Adding elements never narrows the shared indentation. */
  lemma IndentNeverShrinks(els: seq<Element>, more: seq<Element>)
    ensures IndentWidth(els) <= IndentWidth(els + more)
  {
    if IndentWidth(els) > 0 {
      var k :| 0 <= k < |els| && Fits(els[k]) && LabelWidth(els[k].usage) == IndentWidth(els);
      assert (els + more)[k] == els[k];
    }
  }

  // ---------------------------------------------------------------------
  // Blank lines between elements, and the end of the message
  // ---------------------------------------------------------------------

  /** The text of `els + [a, b]` is that of `els + [a]`, what separates `a` from `b`, and `b`'s text. */
  lemma BodyOfPair(els: seq<Element>, a: Element, b: Element, indent: string)
    ensures Body(els + [a, b], indent) == Body(els + [a], indent) + Separator(a, b) + ElementText(b, indent)
  {
    var all := els + [a, b];
    assert all[..|all| - 1] == els + [a];
  }

  /**
   * The blank-line rules: a header is followed directly by the next element; a
   * paragraph is always followed by a blank line; elements of one kind other
   * than paragraphs follow each other directly; and an element of another kind
   * than the one before it is preceded by a blank line unless it follows a header.
   */
  lemma BlankLineRules(a: Element, b: Element)
    ensures a.HeaderElement? ==> Separator(a, b) == ""
    ensures a.WrapElement? ==> Separator(a, b) == "\n"
    ensures SameKind(a, b) && !a.WrapElement? ==> Separator(a, b) == ""
    ensures !SameKind(a, b) && !a.HeaderElement? ==> Separator(a, b) == "\n"
  {
  }

  /** The text of every element ends with '\n', unless it is a paragraph or option whose text has no line. */
  lemma ElementEndsLine(e: Element, indent: string)
    requires e.WrapElement? ==> Split(e.text, '\n') != []
    requires e.OptionElement? ==> Split(e.description, '\n') != []
    ensures var t := ElementText(e, indent);
      |t| > 0 && t[|t| - 1] == '\n'
  {
    match e
    case UsageElement(_, _) =>
    case WrapElement(ind, text) => WrappedEndsLine(0, ind, text);
    case HeaderElement(_) =>
    case OptionElement(usage, description) =>
      WrappedEndsLine(LabelWidth(usage), indent, description);
      var w := Wrapped(LabelWidth(usage), indent, description);
      assert ("  " + usage + " " + w)[|"  " + usage + " " + w| - 1] == w[|w| - 1];
  }

  /**
   * The message ends with one '\n' more than its last element: a blank line
   * when that element ends its line.
   */
  lemma MessageEndsWithBlankLine(els: seq<Element>, indent: string)
    requires els != []
    requires var t := ElementText(els[|els| - 1], indent); |t| > 0 && t[|t| - 1] == '\n'
    ensures var m := Render(els, indent);
      |m| >= 2 && m[|m| - 1] == '\n' && m[|m| - 2] == '\n'
  {
    BodyEndsAsLastElement(els, indent);
  }

  /** The body ends as the text of its last element does. */
  lemma BodyEndsAsLastElement(els: seq<Element>, indent: string)
    requires els != []
    requires |ElementText(els[|els| - 1], indent)| > 0
    ensures var b := Body(els, indent);
      var t := ElementText(els[|els| - 1], indent);
      |b| > 0 && b[|b| - 1] == t[|t| - 1]
  {
    var t := ElementText(els[|els| - 1], indent);
    var b := Body(els, indent);
    BodySuffix(els, indent);
    assert b[|b| - 1] == b[|b| - |t|..][|t| - 1];
  }

  /** The body's last characters are the text of its last element. */
  lemma BodySuffix(els: seq<Element>, indent: string)
    requires els != []
    ensures var b := Body(els, indent);
      var t := ElementText(els[|els| - 1], indent);
      |t| <= |b| && b[|b| - |t|..] == t
  {
  }

  /** Two usage lines in a row: "Usage: " then "   or: ", and the final '\n'. */
  lemma TwoUsageLines(first: string, second: string, indent: string)
    ensures Render([UsageElement("Usage: ", first), UsageElement("   or: ", second)], indent) ==
      "Usage: " + first + "\n" + "   or: " + second + "\n" + "\n"
  {
    RenderSameKindPair(UsageElement("Usage: ", first), UsageElement("   or: ", second), indent);
    Regroup("Usage: " + first + "\n", "   or: " + second, "\n");
  }

  /** Two elements of one kind other than paragraphs: their texts one after the other, then '\n'. */
  lemma RenderSameKindPair(a: Element, b: Element, indent: string)
    requires SameKind(a, b) && !a.WrapElement?
    ensures Render([a, b], indent) == ElementText(a, indent) + ElementText(b, indent) + "\n"
  {
    assert Body([a], indent) == ElementText(a, indent) by {
      assert [a][..0] == [];
    }
    assert [a, b][..1] == [a];
  }

  /** A builder given the two usage lines of the documented example renders them as documented. */
  method UsageExample() returns (s: string)
    ensures s == "Usage: " + "program INPUT" + "\n" + "   or: " + "program INPUT OUTPUT" + "\n" + "\n"
  {
    var help := new Help();
    var h := help.Usage("program INPUT");
    h := help.Usage("program INPUT OUTPUT");
    s := help.ToString();
    assert help.elements == [UsageElement("Usage: ", "program INPUT"), UsageElement("   or: ", "program INPUT OUTPUT")];
    TwoUsageLines("program INPUT", "program INPUT OUTPUT", help.commonOptionHelpIndent);
  }
}
