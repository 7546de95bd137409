/**
 * The help-message builder: an append-only list of elements (usage lines,
 * wrapped paragraphs, headers and option entries) and an option-description
 * indentation shared by every option entry, rendered into one string.
 */
module ArgsHelp {
  import opened JavaText

  /** Lines are wrapped so as not to exceed this width. */
  const MaxLineLength: nat := 80

  /** The shared option indentation never grows beyond this width. */
  const MaxIndentation: nat := 20

  // ---------------------------------------------------------------------
  // Word wrapping
  // ---------------------------------------------------------------------

  /**
   * The words of one input line written from column `off`, `newline` telling
   * whether nothing has been written on the line yet.  A word goes after a
   * space on the current line when it fits within `MaxLineLength`, and
   * otherwise starts a new line after the indentation `ind`.
   */
  function WrapWords(ind: string, words: seq<string>, off: int, newline: bool): string
  {
    if words == [] then ""
    else
      var w := words[0];
      var out := if newline then w else " " + w;
      if off + |out| > MaxLineLength then "\n" + ind + w + WrapWords(ind, words[1..], |ind| + |w|, false)
      else out + WrapWords(ind, words[1..], off + |out|, false)
  }

  /**
   * The input lines wrapped one after the other, each ended by '\n'; the
   * first one begins with `ind[start..]` (the caller has already written
   * `start` columns), the others with the whole of `ind`.
   */
  function WrapLines(ind: string, lines: seq<string>, start: nat): string
    requires start <= |ind|
  {
    if lines == [] then ""
    else ind[start..] + WrapWords(ind, Split(lines[0], ' '), |ind|, true) + "\n" + WrapLines(ind, lines[1..], 0)
  }

  /**
   * `wrapText(off, indentation, text)`: `text` wrapped within 80 columns with
   * indentation `ind`, continuing a line on which `off` columns are written;
   * when those columns pass the indentation, the text starts on a new line.
   */
  function Wrapped(off: nat, ind: string, text: string): string
  {
    if off > |ind| then "\n" + WrapLines(ind, Split(text, '\n'), 0)
    else WrapLines(ind, Split(text, '\n'), off)
  }

  /**
   * `wrapText`: when the `off` columns already written pass the indentation,
   * a '\n' first and the lines from column 0; otherwise the lines from `off`.
   */
  method WrapText(off: nat, indentation: string, text: string) returns (s: string)
    ensures s == Wrapped(off, indentation, text)
  {
    var ind := indentation;
    var column: nat := off;
    var prefix := "";
    if column > |ind| {
      prefix := "\n";
      column := 0;
    }
    var lines := WrapTextLines(ind, Split(text, '\n'), column);
    s := prefix + lines;
  }

  /**
   * The loop of `wrapText` over the input lines: each line is written after
   * the indentation (its first `start` columns already written for the first
   * line), then its words, then '\n'.
   */
  method WrapTextLines(ind: string, lines: seq<string>, start: nat) returns (s: string)
    requires start <= |ind|
    ensures s == WrapLines(ind, lines, start)
  {
    var column: nat := start;
    s := "";
    assert lines[0..] == lines;
    var i := 0;
    while i < |lines|
      invariant 0 <= i <= |lines|
      invariant column <= |ind| && (i > 0 ==> column == 0)
      invariant s + WrapLines(ind, lines[i..], column) == WrapLines(ind, lines, start)
    {
      ghost var before := s;
      s := s + ind[column..];
      var words := WrapLineWords(ind, Split(lines[i], ' '));
      s := s + words + "\n";
      WrapLinesAppend(before, ind, lines, i, column, words);
      column := 0;
      i := i + 1;
    }
    assert lines[i..] == [];
  }

  /**
   * The loop over the words of one line in `wrapText`, from the column just
   * after the indentation with nothing written on the line yet.
   */
  method WrapLineWords(ind: string, words: seq<string>) returns (s: string)
    ensures s == WrapWords(ind, words, |ind|, true)
  {
    var off := |ind|;
    var newline := true;
    s := "";
    var j := 0;
    while j < |words|
      invariant 0 <= j <= |words|
      invariant s + WrapWords(ind, words[j..], off, newline) == WrapWords(ind, words, |ind|, true)
    {
      ghost var off0, s0 := off, s;
      var outword := words[j];
      if !newline {
        outword := " " + words[j];
      }
      off := off + |outword|;
      var written := outword;
      if off > MaxLineLength {
        outword := words[j];
        off := |ind + outword|;
        written := "\n" + ind + outword;
      }
      WrapWordsStep(ind, words, j, off0, newline, written, off);
      s := s + written;
      newline := false;
      j := j + 1;
      Regroup(s0, written, WrapWords(ind, words[j..], off, newline));
    }
    assert words[j..] == [];
  }

  /** `WrapLines` from the line at `i`: that line, then the rest from column 0. */
  lemma WrapLinesAppend(before: string, ind: string, lines: seq<string>, i: nat, start: nat, words: string)
    requires i < |lines| && start <= |ind|
    requires words == WrapWords(ind, Split(lines[i], ' '), |ind|, true)
    ensures before + ind[start..] + words + "\n" + WrapLines(ind, lines[i + 1..], 0) ==
      before + WrapLines(ind, lines[i..], start)
  {
    assert lines[i..][1..] == lines[i + 1..];
    var rest := WrapLines(ind, lines[i + 1..], 0);
    assert WrapLines(ind, lines[i..], start) == ind[start..] + words + "\n" + rest;
  }

  /**
   * `WrapWords` from the word at `j`: what is written for that word, on this
   * line or after a line break, and the column after it; then the rest.
   */
  lemma WrapWordsStep(ind: string, words: seq<string>, j: nat, off: int, newline: bool, written: string, next: int)
    requires j < |words|
    requires var w := words[j];
      var out := if newline then w else " " + w;
      if off + |out| > MaxLineLength then written == "\n" + ind + w && next == |ind| + |w|
      else written == out && next == off + |out|
    ensures WrapWords(ind, words[j..], off, newline) == written + WrapWords(ind, words[j + 1..], next, false)
  {
    assert words[j..][1..] == words[j + 1..];
  }

  // ---------------------------------------------------------------------
  // Elements and their rendering
  // ---------------------------------------------------------------------

  /**
   * The four kinds of element.  A wrapped paragraph always starts at column 0,
   * so it keeps only its indentation and text.
   */
  datatype Element =
    | UsageElement(prefix: string, usage: string)
    | WrapElement(indentation: string, text: string)
    | HeaderElement(header: string)
    | OptionElement(usage: string, description: string)

  /** The width `"  " + usage + " "` an option label takes up. */
  function LabelWidth(usage: string): (w: nat)
    ensures w == |"  " + usage + " "|
  {
    |usage| + 3
  }

  /**
   * The text of one element; an option's description is wrapped with the
   * shared indentation `indent` current at rendering time.
   */
  function ElementText(e: Element, indent: string): string
  {
    match e
    case UsageElement(prefix, usage) => prefix + usage + "\n"
    case WrapElement(ind, text) => Wrapped(0, ind, text)
    case HeaderElement(header) => header + "\n"
    case OptionElement(usage, description) => "  " + usage + " " + Wrapped(LabelWidth(usage), indent, description)
  }

  /** Whether `a` and `b` are elements of the same kind. */
  predicate SameKind(a: Element, b: Element) {
    || (a.UsageElement? && b.UsageElement?)
    || (a.WrapElement? && b.WrapElement?)
    || (a.HeaderElement? && b.HeaderElement?)
    || (a.OptionElement? && b.OptionElement?)
  }

  /**
   * What goes between `previous` and the element `e` after it: a blank line
   * after a paragraph, and between elements of different kinds unless the
   * first is a header.
   */
  function Separator(previous: Element, e: Element): string
  {
    if previous.WrapElement? || (!SameKind(e, previous) && !previous.HeaderElement?) then "\n" else ""
  }

  /** The elements rendered one after the other, with their separators. */
  function Body(els: seq<Element>, indent: string): string
  {
    if els == [] then ""
    else
      var init := els[..|els| - 1];
      var sep := if init == [] then "" else Separator(init[|init| - 1], els[|els| - 1]);
      Body(init, indent) + sep + ElementText(els[|els| - 1], indent)
  }

  /** `toString()`: the body followed by one more '\n'. */
  function Render(els: seq<Element>, indent: string): string
  {
    Body(els, indent) + "\n"
  }

  /**
   * The prefix of every usage line: "Usage: " unless the element before it is
   * a usage line too, and then "   or: ".
   */
  predicate UsagePrefixes(els: seq<Element>) {
    forall k :: 0 <= k < |els| ==> PrefixFollowsRule(els, k)
  }

  /** The element at `k`, if a usage line, has the prefix its predecessor calls for. */
  predicate PrefixFollowsRule(els: seq<Element>, k: nat)
    requires k < |els|
  {
    els[k].UsageElement? ==>
      els[k].prefix == if k > 0 && els[k - 1].UsageElement? then "   or: " else "Usage: "
  }

  /** Whether an option label's width may become the shared indentation. */
  predicate Fits(e: Element) {
    e.OptionElement? && LabelWidth(e.usage) <= MaxIndentation
  }

  /**
   * The width of the shared option indentation after the given elements were
   * added: the widest option label that fits within `MaxIndentation`, or 0.
   */
  function IndentWidth(els: seq<Element>): (w: nat)
    ensures w <= MaxIndentation
    ensures forall k :: 0 <= k < |els| && Fits(els[k]) ==> LabelWidth(els[k].usage) <= w
    ensures w == 0 || exists k :: 0 <= k < |els| && Fits(els[k]) && LabelWidth(els[k].usage) == w
  {
    if els == [] then 0
    else
      var init := els[..|els| - 1];
      var e := els[|els| - 1];
      var w0 := IndentWidth(init);
      assert forall k :: 0 <= k < |init| ==> init[k] == els[k];
      if Fits(e) && LabelWidth(e.usage) > w0 then LabelWidth(e.usage) else w0
  }

  /** The number of spaces `text` starts with. */
  function LeadingSpaces(text: string): (n: nat)
    ensures n <= |text| && IsSpaces(text[..n])
    ensures n == |text| || text[n] != ' '
  {
    if text == [] || text[0] != ' ' then 0
    else
      var n := LeadingSpaces(text[1..]);
      assert text[..n + 1] == [' '] + text[1..][..n];
      n + 1
  }

  /** Adding an element widens the indentation only for a wider option label that fits. */
  lemma IndentWidthAppend(els: seq<Element>, e: Element)
    ensures IndentWidth(els + [e]) ==
      if Fits(e) && LabelWidth(e.usage) > IndentWidth(els) then LabelWidth(e.usage) else IndentWidth(els)
  {
    assert (els + [e])[..|els|] == els;
  }

  /** A usage line added with the prefix the rule asks for keeps the rule. */
  lemma UsagePrefixesAppend(els: seq<Element>, e: Element)
    requires UsagePrefixes(els)
    requires e.UsageElement? ==>
      e.prefix == if els != [] && els[|els| - 1].UsageElement? then "   or: " else "Usage: "
    ensures UsagePrefixes(els + [e])
  {
    var all := els + [e];
    forall k | 0 <= k < |all|
      ensures PrefixFollowsRule(all, k)
    {
      assert k > 0 ==> all[k - 1] == els[k - 1];
      if k < |els| {
        assert all[k] == els[k];
        assert PrefixFollowsRule(els, k);
      } else {
        assert all[k] == e;
        assert k > 0 ==> all[k - 1] == els[|els| - 1];
      }
    }
  }

  // ---------------------------------------------------------------------
  // The builder
  // ---------------------------------------------------------------------

  class Help {
    var elements: seq<Element>
    var commonOptionHelpIndent: string

    /** Usage prefixes follow their rule, and the indentation is the widest fitting label, in spaces. */
    ghost predicate Valid()
      reads this
    {
      UsagePrefixes(elements) && commonOptionHelpIndent == Spaces(IndentWidth(elements))
    }

    /** The help text this builder stands for. */
    function Text(): string
      reads this
    {
      Render(elements, commonOptionHelpIndent)
    }

    constructor ()
      ensures Valid()
      ensures elements == [] && commonOptionHelpIndent == ""
    {
      elements := [];
      commonOptionHelpIndent := "";
    }

    /** `toString()`: the elements with their separators, and one more '\n'. */
    method ToString() returns (s: string)
      requires Valid()
      ensures s == Text()
    {
      var sb := "";
      var i := 0;
      while i < |elements|
        invariant 0 <= i <= |elements|
        invariant sb == Body(elements[..i], commonOptionHelpIndent)
      {
        var el := elements[i];
        if i > 0 {
          var lastElement := elements[i - 1];
          if lastElement.WrapElement? || (!SameKind(el, lastElement) && !lastElement.HeaderElement?) {
            sb := sb + "\n";
          }
        }
        var text := Show(el);
        assert elements[..i + 1][..i] == elements[..i];
        sb := sb + text;
        i := i + 1;
      }
      assert elements[..i] == elements;
      s := sb + "\n";
    }

    /** The `toString()` of one element. */
    method Show(el: Element) returns (s: string)
      ensures s == ElementText(el, commonOptionHelpIndent)
    {
      match el
      case UsageElement(prefix, usage) =>
        s := prefix + usage + "\n";
      case WrapElement(ind, text) =>
        s := WrapText(0, ind, text);
      case HeaderElement(header) =>
        s := header + "\n";
      case OptionElement(usage, description) =>
        var off := |"  " + usage + " "|;
        var wrapped := WrapText(off, commonOptionHelpIndent, description);
        s := "  " + usage + " " + wrapped;
    }

    /** `usage(text)`: a usage line, prefixed "   or: " right after another usage line. */
    method Usage(usage: string) returns (self: Help)
      requires Valid()
      modifies this
      ensures Valid() && self == this
      ensures var prefix := if old(elements) != [] && old(elements)[|old(elements)| - 1].UsageElement? then "   or: " else "Usage: ";
        elements == old(elements) + [UsageElement(prefix, usage)]
      ensures commonOptionHelpIndent == old(commonOptionHelpIndent)
    {
      if |elements| == 0 || !elements[|elements| - 1].UsageElement? {
        elements := elements + [UsageElement("Usage: ", usage)];
      } else {
        elements := elements + [UsageElement("   or: ", usage)];
      }
      UsagePrefixesAppend(old(elements), elements[|elements| - 1]);
      IndentWidthAppend(old(elements), elements[|elements| - 1]);
      self := this;
    }

    /** `wrap(text)`: a paragraph without indentation. */
    method Wrap(text: string) returns (self: Help)
      requires Valid()
      modifies this
      ensures Valid() && self == this
      ensures elements == old(elements) + [WrapElement("", text)]
      ensures commonOptionHelpIndent == old(commonOptionHelpIndent)
    {
      self := WrapIndented("", text);
    }

    /** `wrap(indentation, text)`: a paragraph whose lines start with `indentation`. */
    method WrapIndented(indentation: string, text: string) returns (self: Help)
      requires Valid()
      modifies this
      ensures Valid() && self == this
      ensures elements == old(elements) + [WrapElement(indentation, text)]
      ensures commonOptionHelpIndent == old(commonOptionHelpIndent)
    {
      UsagePrefixesAppend(elements, WrapElement(indentation, text));
      IndentWidthAppend(elements, WrapElement(indentation, text));
      elements := elements + [WrapElement(indentation, text)];
      self := this;
    }

    /** `pg(text)`: a paragraph indented by the spaces `text` starts with. */
    method Pg(text: string) returns (self: Help)
      requires Valid()
      modifies this
      ensures Valid() && self == this
      ensures var n := LeadingSpaces(text);
        elements == old(elements) + [WrapElement(text[..n], text[n..])]
      ensures commonOptionHelpIndent == old(commonOptionHelpIndent)
    {
      var i := 0;
      while i < |text|
        invariant 0 <= i <= |text|
        invariant IsSpaces(text[..i])
      {
        if text[i] != ' ' {
          break;
        }
        assert text[..i + 1] == text[..i] + [' '];
        i := i + 1;
      }
      LeadingSpacesUnique(text, i);
      self := WrapIndented(text[..i], text[i..]);
    }

    /** `header(text)`: a header line. */
    method Header(header: string) returns (self: Help)
      requires Valid()
      modifies this
      ensures Valid() && self == this
      ensures elements == old(elements) + [HeaderElement(header)]
      ensures commonOptionHelpIndent == old(commonOptionHelpIndent)
    {
      UsagePrefixesAppend(elements, HeaderElement(header));
      IndentWidthAppend(elements, HeaderElement(header));
      elements := elements + [HeaderElement(header)];
      self := this;
    }

    /**
     * `option(usage, description)`: an option entry; the shared indentation
     * grows to the entry's label width when that is wider and fits.
     */
    method Option(usage: string, description: string) returns (self: Help)
      requires Valid()
      modifies this
      ensures Valid() && self == this
      ensures elements == old(elements) + [OptionElement(usage, description)]
      ensures var helpOffset := |"  " + usage + " "|;
        commonOptionHelpIndent ==
          if helpOffset > |old(commonOptionHelpIndent)| && helpOffset <= MaxIndentation
          then Spaces(helpOffset) else old(commonOptionHelpIndent)
    {
      var helpOffset := |"  " + usage + " "|;
      if helpOffset > |commonOptionHelpIndent| && helpOffset <= MaxIndentation {
        var i := |commonOptionHelpIndent|;
        while i < helpOffset
          invariant elements == old(elements)
          invariant i <= helpOffset
          invariant commonOptionHelpIndent == Spaces(i)
        {
          SpacesGrow(i);
          commonOptionHelpIndent := commonOptionHelpIndent + " ";
          i := i + 1;
        }
      }
      ghost var e := OptionElement(usage, description);
      assert commonOptionHelpIndent == Spaces(IndentWidth(elements + [e])) by {
        IndentWidthAppend(elements, e);
        assert LabelWidth(usage) == helpOffset;
      }
      UsagePrefixesAppend(elements, e);
      elements := elements + [OptionElement(usage, description)];
      self := this;
    }
  }

  /** The count of leading spaces is the only `n` with spaces before it and no space at it. */
  lemma {:induction false} LeadingSpacesUnique(text: string, n: nat)
    requires n <= |text| && IsSpaces(text[..n])
    requires n == |text| || text[n] != ' '
    ensures LeadingSpaces(text) == n
  {
  }
}
