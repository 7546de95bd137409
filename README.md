# Command-line argument lexer, help formatter and option descriptor

This project models, in Dafny, three parts of a small Java library for command-line programs:

- **The argument lexer** (`org.ivartj.args.Lexer`). It is a cursor over the argument vector with four mutable fields: `index`, `offset`, `noMoreOptions` and `previousToken`.
  - `next()` breaks the arguments into tokens. A positional argument is returned whole (case A). `--long=value` gives `--long` and leaves the cursor on the `=` (case B). `--long` is returned whole (case C). `-abc` gives `-a`, `-b` and `-c` one call at a time (case D). An argument that looks like an option but has none of these shapes gives an invalid-option error.
  - `expectParameter()` takes a parameter for the previous token. The parameter is one of: a following non-option argument, the text after an `=` the cursor stands on, or the rest of `-Dvalue`. When there is none, it fails with a missing-parameter error that carries the previous token.
  - A literal `--` ends the options. After it, `isOption` is false for every string.
- **The help formatter** (`org.ivartj.args.Help`). It is an append-only list of elements: usage lines, wrapped paragraphs, headers and option entries. It also keeps a shared option-description indentation that grows with the widest option label of at most 20 columns. `toString()` renders the elements, putting a blank line between them according to their kinds. Text is wrapped greedily at 80 columns by `wrapText`.
- **The option descriptor** (`org.ivartj.arguments.Option`). It is a builder whose `flags(...)` replaces its flag array with a longer copy, and whose `takes(name)` sets or clears the parameter name.

Each class is a Dafny `class` with the source's fields, and each method is proved against a pure specification:
- `Lexer`'s methods are proved equal to step functions on a `Cursor` value, and the lexer's promises are proved about those functions.
- `Help.ToString` is proved equal to `Render` of the element list.
- `WrapText`, a loop over the lines with an inner loop over the words, is proved equal to the recursive `Wrapped`. The width, alignment, independence and line-ending properties are proved about `Wrapped`.
- `Option.Flags` copies the flag arrays in two loops, as `System.arraycopy` does, and is proved to append.

The Java `String` operations the code relies on (`indexOf`, and `split` around one non-special character, which drops trailing empty pieces) are modelled in `JavaText`. A Java `null` is `None`. An exception is an error value of the result datatype.

Two points about the documented behaviour of the lexer:
- **Attached short values.** The class documentation lists `-Dparameter` (src/main/java/org/ivartj/args/Lexer.java:54-56), and `expectParameter()` accepts it (227-236). The model accepts it as the code does.
- **The end-of-options marker.** The documentation says a `--` argument is not returned (Lexer.java:58-62 and 86-89) and that `hasNext()` answers whether `next()` has a token to offer (105-106). The code's `hasNext()` consumes only one `--` per call (112-115), which breaks both promises when two `--` arguments follow each other (see "## Findings").
  - The `Lexer` class, its step functions (`Advance`, `NextStep`, `Run`) and the lexer properties model the corrected `hasNext()`, which consumes every `--` at the cursor.
  - The code as written is modelled as well, as `HasNextAsWritten` and `NextAsWritten`.
  - `AsWrittenAgrees` proves that the two agree at every cursor that does not stand on a `--` followed by another `--`. So the lexer properties hold of the code as written on any argument vector without two `--` in a row.

## Model

| member | source | states |
|---|---|---|
| `JavaText.IndexOf` | src/main/java/org/ivartj/args/Lexer.java:220 | `indexOf('=')`: -1 exactly when the character is absent; otherwise its first position |
| `JavaText.Split` | src/main/java/org/ivartj/args/Help.java:161 | `split` around one character: no piece contains it, and a string without it is one piece |
| `JavaText.SplitJoin` | src/main/java/org/ivartj/args/Help.java:164 | for a string that does not end in the separator, `split` keeps every piece, and joining them gives the string back |
| `JavaText.Spaces` | src/main/java/org/ivartj/args/Help.java:205-206 | the indentation grown one space at a time is `n` spaces |
| `JavaText.SpacesGrow` | src/main/java/org/ivartj/args/Help.java:205-206 | one more space after `n` spaces is `n + 1` spaces |
| `ArgsLexer.NameRunEndIs` | src/main/java/org/ivartj/args/Lexer.java:72-74 | the run of option-name characters `[-a-zA-Z0-9]` that the shape patterns match ends at the first other character |
| `ArgsLexer.EndAnchorAt` | src/main/java/org/ivartj/args/Lexer.java:73 | defines where Java's `$` (not in multi-line mode) matches: at the end of the argument, or just before one final line terminator |
| `ArgsLexer.IsLongWithParameter` | src/main/java/org/ivartj/args/Lexer.java:72 | defines case B's pattern `^--[-a-zA-Z0-9]+=` as a prefix match: `--`, a non-empty name run, then `=` |
| `ArgsLexer.IsLongOption` | src/main/java/org/ivartj/args/Lexer.java:73 | defines case C's pattern `^--[-a-zA-Z0-9]+$`: `--` and a non-empty name run that reaches the end anchor |
| `ArgsLexer.IsShortCluster` | src/main/java/org/ivartj/args/Lexer.java:74 | defines case D's pattern `^-[a-zA-Z0-9]+` as a prefix match: `-` followed by a letter or digit |
| `ArgsLexer.LooksLikeOption` | src/main/java/org/ivartj/args/Lexer.java:96-100 | defines `isOption`: false once the options have ended; otherwise the token starts with `-` and is longer than one character |
| `ArgsLexer.LongParameterEquals` | src/main/java/org/ivartj/args/Lexer.java:154-156 | for an argument of shape `--name=`, `indexOf('=')` is the end of the name, at position 3 or later |
| `ArgsLexer.SkipEndMarkers` | src/main/java/org/ivartj/args/Lexer.java:108-118 | corrected `hasNext()` side effect: it consumes only `--` arguments and stops at the first other argument or at the end; it sets the end of options exactly when it consumed one |
| `ArgsLexer.HasNextStep` | src/main/java/org/ivartj/args/Lexer.java:108-118 | defines the corrected `hasNext()`: every `--` at the cursor is consumed, and the answer is whether an argument remains |
| `ArgsLexer.SkipOneEndMarker` | src/main/java/org/ivartj/args/Lexer.java:112-115 | `hasNext()` as written consumes at most one `--`, and the cursor stays resumable |
| `ArgsLexer.HasNextAsWritten` | src/main/java/org/ivartj/args/Lexer.java:108-118 | defines `hasNext()` as written: false at the end; otherwise at most one `--` is consumed and the answer is whether an argument remains |
| `ArgsLexer.NextAsWritten` | src/main/java/org/ivartj/args/Lexer.java:131-192 | defines `next()` on top of `hasNext()` as written: null when it answers false, otherwise cases A to D, remembering a returned token |
| `ArgsLexer.Classify` | src/main/java/org/ivartj/args/Lexer.java:141-191 | cases A to D leave the cursor resumable and never change the end-of-options flag or the previous token |
| `ArgsLexer.Advance` | src/main/java/org/ivartj/args/Lexer.java:137-192 | `nextInternal()` leaves the cursor resumable |
| `ArgsLexer.NextStep` | src/main/java/org/ivartj/args/Lexer.java:131-135 | `next()` leaves the cursor resumable |
| `ArgsLexer.ExpectStep` | src/main/java/org/ivartj/args/Lexer.java:201-239 | `expectParameter()` leaves the cursor resumable |
| `ArgsLexer.ExpectToStep` | src/main/java/org/ivartj/args/Lexer.java:252-255 | `expectParameterTo(f)` leaves the cursor resumable |
| `ArgsLexer.Run` | src/main/java/org/ivartj/args/Lexer.java:131-135 | `n` successive `next()` calls give `n` results and a resumable cursor |
| `ArgsLexer.Lexer.constructor` | src/main/java/org/ivartj/args/Lexer.java:66-81 | a new lexer is at the first argument, at offset 0, with options allowed and no previous token |
| `ArgsLexer.Lexer.IsOption` | src/main/java/org/ivartj/args/Lexer.java:96-100 | `isOption(token)` reads the lexer's end-of-options flag and is `LooksLikeOption` of it |
| `ArgsLexer.Lexer.HasNext` | src/main/java/org/ivartj/args/Lexer.java:108-118 | performs the corrected `hasNext()` step; true exactly when an argument other than `--` remains at the cursor |
| `ArgsLexer.Lexer.NextInternal` | src/main/java/org/ivartj/args/Lexer.java:137-192 | performs exactly `Advance` on the lexer's fields |
| `ArgsLexer.Lexer.Next` | src/main/java/org/ivartj/args/Lexer.java:131-135 | performs exactly `NextStep`: the result is remembered as the previous token (null when exhausted) |
| `ArgsLexer.Lexer.ExpectParameter` | src/main/java/org/ivartj/args/Lexer.java:201-239 | performs exactly `ExpectStep` on the lexer's fields |
| `ArgsLexer.Lexer.ExpectParameterTo` | src/main/java/org/ivartj/args/Lexer.java:252-255 | performs exactly `ExpectToStep` on the lexer's fields |
| `LexerProperties.HasNextAgreesWithNext` | src/main/java/org/ivartj/args/Lexer.java:102-118 | `hasNext()` is true exactly when the following `next()` does not return null |
| `LexerProperties.OnlyEndMarkersGiveNothing` | src/main/java/org/ivartj/args/Lexer.java:108-118 | arguments that are all `--` give no token |
| `LexerProperties.EndMarkerNeverReturned` | src/main/java/org/ivartj/args/Lexer.java:58-62 | a token never comes from a `--` argument; the token `--` can only be the `-` character inside a short cluster |
| `LexerProperties.EndMarkerEndsOptions` | src/main/java/org/ivartj/args/Lexer.java:84-100 | after a `--` is consumed, no string is an option |
| `LexerProperties.EndOfOptionsSticky` | src/main/java/org/ivartj/args/Lexer.java:96-98 | no operation clears the end of options |
| `LexerProperties.AfterEndOfOptionsPositional` | src/main/java/org/ivartj/args/Lexer.java:141-147 | after the end of options, every argument (even `-x`) is returned verbatim and the cursor moves past it |
| `LexerProperties.PositionalVerbatim` | src/main/java/org/ivartj/args/Lexer.java:145-147 | case A returns a non-option argument unchanged, moves the index by exactly one and leaves the offset at 0 |
| `LexerProperties.PlainArgumentsVerbatim` | src/main/java/org/ivartj/args/Lexer.java:141-147 | a run of plain arguments comes back one token each, verbatim and in order |
| `LexerProperties.ClusterRest` | src/main/java/org/ivartj/args/Lexer.java:179-188 | from inside a short cluster, each remaining character gives one token; the index moves on only after the last |
| `LexerProperties.ClusterStep` | src/main/java/org/ivartj/args/Lexer.java:179-188 | inside a short cluster, the character at the offset is the token; the offset moves on, or the index after the last character |
| `LexerProperties.ClusterYieldsEachCharacter` | src/main/java/org/ivartj/args/Lexer.java:48-52 | `-abc` gives exactly `-a`, `-b`, `-c`, then the next argument |
| `LexerProperties.LongOptionWithInlineParameter` | src/main/java/org/ivartj/args/Lexer.java:150-225 | `--long=value` gives `--long`, leaves the cursor on the `=`, and `expectParameter()` then gives `value` and moves to the next argument |
| `LexerProperties.ShortOptionWithInlineParameter` | src/main/java/org/ivartj/args/Lexer.java:210-225 | `-i=input` gives `-i`, then `input` as its parameter |
| `LexerProperties.ShortOptionWithAttachedParameter` | src/main/java/org/ivartj/args/Lexer.java:227-236 | `-Dvalue` gives `-D`, then `value` as its parameter |
| `LexerProperties.FollowingArgumentAsParameter` | src/main/java/org/ivartj/args/Lexer.java:205-208 | at a fresh non-option argument, the parameter is that whole argument |
| `LexerProperties.MissingParameterCases` | src/main/java/org/ivartj/args/Lexer.java:201-255 | the parameter is missing when the arguments are used up or the next argument is an option; the failure carries the previous token (the given flag for `expectParameterTo`) and leaves the cursor unchanged |
| `LexerProperties.UnrecognisedOptionIsInvalid` | src/main/java/org/ivartj/args/Lexer.java:179-191 | at a fresh argument, the result is an invalid option exactly when the argument looks like an option but matches none of the three shapes; the error carries the raw argument |
| `LexerProperties.InvalidOptionExamples` | src/main/java/org/ivartj/args/Lexer.java:72-74 | `-!` and `--a.b` are invalid options |
| `LexerProperties.NextAdvances` | src/main/java/org/ivartj/args/Lexer.java:137-192 | a token moves the cursor strictly forward; null is returned exactly at the end, and again after that |
| `LexerProperties.ClassifyAdvances` | src/main/java/org/ivartj/args/Lexer.java:141-191 | cases A to D never report the end; a token moves the cursor strictly forward and an invalid option leaves it alone |
| `LexerProperties.ExpectAdvances` | src/main/java/org/ivartj/args/Lexer.java:201-239 | a parameter moves to the start of the next argument; a failure leaves the cursor unchanged |
| `LexerProperties.ExampleShortOption` | src/main/java/org/ivartj/args/Lexer.java:179-188 | `-h` alone in its argument gives `-h` and moves to the next argument |
| `LexerProperties.ExampleLongOption` | src/main/java/org/ivartj/args/Lexer.java:160-166 | `--version` is returned whole |
| `LexerProperties.ExampleInlineShape` | src/main/java/org/ivartj/args/Lexer.java:72 | `--output=out.txt` has the case-B shape, with its `=` at position 8 |
| `LexerProperties.ExampleInlineParameter` | src/main/java/org/ivartj/args/Lexer.java:154-157 | `--output=out.txt` gives `--output`, then the parameter `out.txt` |
| `LexerProperties.ExamplePositionals` | src/main/java/org/ivartj/args/Lexer.java:112-117 | `pos1`, then `--` is skipped, and `-x` comes back as a positional; then null |
| `LexerProperties.CommandLineExample` | src/main/java/org/ivartj/args/Lexer.java:131-239 | the whole command line `-h --version --output=out.txt pos1 -- -x`, token by token |
| `LexerProperties.AsWrittenHasNextOverpromises` | src/main/java/org/ivartj/args/Lexer.java:108-118 | as written, `hasNext()` on `["--","--"]` answers true, yet `next()` returns null |
| `LexerProperties.AsWrittenReturnsEndMarker` | src/main/java/org/ivartj/args/Lexer.java:109-117 | as written, on `["--","--","--"]` the token `--` is returned |
| `LexerProperties.EndMarkersOnlyCorrected` | src/main/java/org/ivartj/args/Lexer.java:102-106 | with every `--` consumed, both inputs give no promise and no token |
| `LexerProperties.AsWrittenAgrees` | src/main/java/org/ivartj/args/Lexer.java:108-118 | `hasNext()` and `next()` as written give the same answer, token and cursor as the corrected ones at every cursor that is not on a `--` followed by another `--` |
| `ArgsHelp.WrapText` | src/main/java/org/ivartj/args/Help.java:149-158 | computes `Wrapped`, the wrapping the properties below describe: a start column past the indentation gives a `'\n'` and the lines from column 0 |
| `ArgsHelp.Wrapped` | src/main/java/org/ivartj/args/Help.java:149-158 | defines `wrapText(off, indentation, text)`: a `'\n'` first when `off` passes the indentation, then `WrapLines` of the text's `split("\n")` |
| `ArgsHelp.WrapLines` | src/main/java/org/ivartj/args/Help.java:161-184 | defines the line loop: each input line is the rest of the indentation (from `start` for the first, all of it after), its words, and `'\n'` |
| `ArgsHelp.WrapWords` | src/main/java/org/ivartj/args/Help.java:164-180 | defines the word loop: a word goes on the current line after a space, or after `'\n'` and the indentation when the column would pass 80 |
| `ArgsHelp.WrapTextLines` | src/main/java/org/ivartj/args/Help.java:161-184 | the line loop computes `WrapLines`: each input line's words after the indentation, the first line from the start column, each ended by `'\n'` |
| `ArgsHelp.WrapLinesAppend` | src/main/java/org/ivartj/args/Help.java:162-183 | one input line is the rest of the indentation, its words and `'\n'`, followed by the wrapping of the later lines |
| `ArgsHelp.WrapLineWords` | src/main/java/org/ivartj/args/Help.java:164-180 | the word loop computes `WrapWords` from the indentation's column |
| `ArgsHelp.WrapWordsStep` | src/main/java/org/ivartj/args/Help.java:165-178 | one word is written on the line (after a space unless it starts the line), or after `'\n'` and the indentation when it would pass column 80; the column moves past it |
| `ArgsHelp.IndentWidth` | src/main/java/org/ivartj/args/Help.java:201-206 | the shared indentation is at most 20 columns; it is at least every label of at most 20 columns, and it is 0 or equal to one such label |
| `ArgsHelp.LabelWidth` | src/main/java/org/ivartj/args/Help.java:203 | the width of an option label `("  " + usage + " ").length()`: the usage plus three |
| `ArgsHelp.LeadingSpaces` | src/main/java/org/ivartj/args/Help.java:120-126 | the paragraph indentation is all spaces and is followed by the end of the text or by a non-space |
| `ArgsHelp.IndentWidthAppend` | src/main/java/org/ivartj/args/Help.java:203-206 | adding an element widens the indentation only for a wider option label that fits within 20 columns |
| `ArgsHelp.UsagePrefixesAppend` | src/main/java/org/ivartj/args/Help.java:65-70 | a usage line added with `"   or: "` after a usage line, and `"Usage: "` otherwise, keeps the prefix rule |
| `ArgsHelp.LeadingSpacesUnique` | src/main/java/org/ivartj/args/Help.java:122-124 | the count the loop in `pg` stops at is the number of leading spaces |
| `ArgsHelp.Help.constructor` | src/main/java/org/ivartj/args/Help.java:12-15 | a new help has no elements and an empty indentation |
| `ArgsHelp.Help.ToString` | src/main/java/org/ivartj/args/Help.java:32-47 | the loop renders `Render`: each element's text, with the separator rule between them, then one more `'\n'` |
| `ArgsHelp.Help.Show` | src/main/java/org/ivartj/args/Help.java:73-256 | the `toString()` of each element class, the option entry read with the current shared indentation |
| `ArgsHelp.Help.Usage` | src/main/java/org/ivartj/args/Help.java:65-71 | appends a usage line, prefixed `"   or: "` exactly when the last element is a usage line; the indentation is unchanged |
| `ArgsHelp.Help.Wrap` | src/main/java/org/ivartj/args/Help.java:93-95 | appends a paragraph with no indentation |
| `ArgsHelp.Help.WrapIndented` | src/main/java/org/ivartj/args/Help.java:105-108 | appends a paragraph with the given indentation |
| `ArgsHelp.Help.Pg` | src/main/java/org/ivartj/args/Help.java:119-129 | appends a paragraph whose indentation is the text's leading spaces and whose text is the rest |
| `ArgsHelp.Help.Header` | src/main/java/org/ivartj/args/Help.java:241-244 | appends a header |
| `ArgsHelp.Help.Option` | src/main/java/org/ivartj/args/Help.java:201-210 | appends an option entry; the indentation becomes the label width in spaces exactly when that is wider than before and at most 20 |
| `ArgsHelp.ElementText` | src/main/java/org/ivartj/args/Help.java:73-256 | defines each element class's `toString()`: a usage line is its prefix, usage and `'\n'`; a paragraph is its wrapped text; a header is the header and `'\n'`; an option is `"  " + usage + " "` followed by the description wrapped from that column under the shared indentation |
| `ArgsHelp.Separator` | src/main/java/org/ivartj/args/Help.java:37-39 | defines the `'\n'` written before an element: after a paragraph, and after an element of another kind unless that is a header |
| `ArgsHelp.Body` | src/main/java/org/ivartj/args/Help.java:36-42 | defines the loop's text: the elements' texts in order, each but the first preceded by its separator |
| `ArgsHelp.Render` | src/main/java/org/ivartj/args/Help.java:32-47 | defines `toString()`: the body followed by one more `'\n'` |
| `HelpProperties.WordsOnOneLine` | src/main/java/org/ivartj/args/Help.java:164-180 | words that fit on the current line are written joined by single spaces |
| `HelpProperties.ShortTextUnchanged` | src/main/java/org/ivartj/args/Help.java:149-188 | one line that fits beside the indentation comes out as indentation, text and `'\n'` |
| `HelpProperties.WordLinesJoin` | src/main/java/org/ivartj/args/Help.java:167-178 | the words written are the word lines joined by `'\n'` |
| `HelpProperties.WordLinesWrapped` | src/main/java/org/ivartj/args/Help.java:170-176 | each word line fits within 80 columns or is one overlong word after the indentation, and each new line starts with the indentation |
| `HelpProperties.OutputLinesJoin` | src/main/java/org/ivartj/args/Help.java:161-184 | the wrapped input lines are the output lines joined by `'\n'` |
| `HelpProperties.WrapLinesFirst` | src/main/java/org/ivartj/args/Help.java:161-163 | the first input line is written from the start column, and the rest from column 0 |
| `HelpProperties.OutputLinesWrapped` | src/main/java/org/ivartj/args/Help.java:161-184 | the output lines after a fitting prefix are well wrapped and the first continues the prefix |
| `HelpProperties.WellWrappedAppend` | src/main/java/org/ivartj/args/Help.java:161-184 | well-wrapped lines stay well wrapped when followed by well-wrapped lines that start with the indentation |
| `HelpProperties.WrappedTextFits` | src/main/java/org/ivartj/args/Help.java:87-99 | every line of wrapped text is at most 80 columns unless it is one overlong word, and every later line starts with the indentation |
| `HelpProperties.WrappedOnNewLine` | src/main/java/org/ivartj/args/Help.java:154-157 | when the start column passes the indentation, the text starts on a new line and still fits |
| `HelpProperties.LinesOfJoin` | src/main/java/org/ivartj/args/Help.java:181 | the lines of joined well-wrapped lines are those lines |
| `HelpProperties.ParagraphFits` | src/main/java/org/ivartj/args/Help.java:142-144 | a paragraph's every line fits within 80 columns or is one overlong word; every line starts with its indentation (the first one too, whenever the text has a line at all) |
| `HelpProperties.OptionFits` | src/main/java/org/ivartj/args/Help.java:221-229 | an option entry's every line fits, and its later lines start with the shared indentation |
| `HelpProperties.SplitIsPieces` | src/main/java/org/ivartj/args/Help.java:161 | `split` keeps every piece of a text that does not end with the separator |
| `HelpProperties.WrapLinesConcat` | src/main/java/org/ivartj/args/Help.java:161-184 | wrapping consecutive input lines is wrapping each in turn |
| `HelpProperties.LinesWrappedIndependently` | src/main/java/org/ivartj/args/Help.java:161-184 | `a + "\n" + b` wraps to the wrapped `a` followed by the wrapped `b` |
| `HelpProperties.WrapLinesEndsLine` | src/main/java/org/ivartj/args/Help.java:181 | every wrapped input line ends with `'\n'` |
| `HelpProperties.WrappedEndsLine` | src/main/java/org/ivartj/args/Help.java:149-188 | wrapped text with at least one line ends with `'\n'` |
| `HelpProperties.OptionAligned` | src/main/java/org/ivartj/args/Help.java:221-229 | a label no wider than the shared indentation is padded to it, and the description goes on as a paragraph with that indentation; a wider label puts the description on the next line |
| `HelpProperties.NarrowLabelPadded` | src/main/java/org/ivartj/args/Help.java:221-227 | a label that fits the shared indentation is padded to it by the first line's indentation |
| `HelpProperties.WideLabelOwnLine` | src/main/java/org/ivartj/args/Help.java:221-227 | a label wider than the shared indentation is followed by `'\n'` and the description wrapped from column 0 |
| `HelpProperties.StartColumnPads` | src/main/java/org/ivartj/args/Help.java:162-163 | starting at a column inside the indentation only shortens the first line's indentation |
| `HelpProperties.OptionsShareColumn` | src/main/java/org/ivartj/args/Help.java:201-229 | every option entry whose label fits starts its description at the same column, the final indentation width |
| `HelpProperties.IndentNeverShrinks` | src/main/java/org/ivartj/args/Help.java:204-206 | adding elements never narrows the shared indentation |
| `HelpProperties.BodyOfPair` | src/main/java/org/ivartj/args/Help.java:36-42 | the body of a list ending in `a, b` is the body of the list ending in `a`, the separator, and `b`'s text |
| `HelpProperties.BlankLineRules` | src/main/java/org/ivartj/args/Help.java:38-39 | no blank line after a header; a blank line after a paragraph; none between same-kind elements; one between different kinds |
| `HelpProperties.ElementEndsLine` | src/main/java/org/ivartj/args/Help.java:82-84 | every element's text ends with `'\n'` when it has a line |
| `HelpProperties.MessageEndsWithBlankLine` | src/main/java/org/ivartj/args/Help.java:44-46 | the message ends with a blank line when its last element ends its line |
| `HelpProperties.BodyEndsAsLastElement` | src/main/java/org/ivartj/args/Help.java:36-42 | the elements' text ends with the last character of the last element's text |
| `HelpProperties.BodySuffix` | src/main/java/org/ivartj/args/Help.java:36-42 | the elements' text ends with the whole text of the last element |
| `HelpProperties.RenderSameKindPair` | src/main/java/org/ivartj/args/Help.java:36-44 | two elements of one kind other than paragraphs render with no blank line between them |
| `HelpProperties.TwoUsageLines` | src/main/java/org/ivartj/args/Help.java:52-60 | two usage lines render as `Usage: ...` then `   or: ...` |
| `HelpProperties.UsageExample` | src/main/java/org/ivartj/args/Help.java:54-59 | the documented two-line usage example renders exactly as documented |
| `Arguments.Option.constructor` | src/main/java/org/ivartj/arguments/Option.java:5-13 | a new option has the given index and help message, no flags and no parameter |
| `Arguments.Option.Flags` | src/main/java/org/ivartj/arguments/Option.java:15-27 | the flag array becomes a new array holding the old flags followed by the given ones, even when those are the option's own array; the other fields are unchanged |
| `Arguments.Option.GetFlags` | src/main/java/org/ivartj/arguments/Option.java:29-31 | returns the flag array itself |
| `Arguments.Option.HasParameter` | src/main/java/org/ivartj/arguments/Option.java:33-35 | `hasParameter()`: a parameter name is set, that is, it is not null |
| `Arguments.Option.Takes` | src/main/java/org/ivartj/arguments/Option.java:33-40 | `hasParameter()` becomes true exactly when the name is not null; the flags and help message are unchanged |
| `Arguments.Option.GetIndex` | src/main/java/org/ivartj/arguments/Option.java:42-44 | the index given to the constructor |
| `Arguments.ChainedOption` | src/main/java/org/ivartj/arguments/Option.java:6-44 | chained `flags("-o")`, `flags("--output")` and `takes("FILE")` give both flags in order and a parameter; `takes(null)` then clears the parameter; the index stays 3 |
| `Arguments.SelfAppend` | src/main/java/org/ivartj/arguments/Option.java:15-31 | appending an option's own flag array to it doubles the flag list |

## Left out

- `Help.print(PrintStream)` (src/main/java/org/ivartj/args/Help.java:22-24) is output only. The text it prints is `Help.ToString`.
- The regular expressions of src/main/java/org/ivartj/args/Lexer.java:72-74 are predicates. `lookingAt` is a prefix match, and `$` is Java's non-multiline end anchor (the end, or just before a final line terminator). No regular-expression engine is modelled.
- The argument vector is a `seq<string>`. The lexer never writes to it, and aliasing of the caller's array is not modelled.
- Null strings are not modelled. In the source, a null usage, header or option label is rendered as the text `null` by string concatenation; a null paragraph text or option description, a null argument and a null `args` array make it fail with a null-reference exception.
- The `Lexer` class follows the corrected `hasNext()`. On a `--` followed by another `--` it consumes both, where the code as written consumes one (see "## Findings" and `LexerProperties.AsWrittenAgrees`).
- The exception classes (`InvalidOptionException`, `MissingParameterException`) are variants of the result datatypes. They carry the argument or the previous token.
- One Dafny `char` stands for one Java `char`, which holds for text without surrogate code units. A Dafny `char` is a Unicode scalar value, so characters outside the Basic Multilingual Plane, which Java stores as two `char`s (two tokens in case D, two columns in `wrapText`), are not modelled.
- The `off` field of a paragraph element (src/main/java/org/ivartj/args/Help.java:134-139) is always 0 in the source, so the element does not keep it.
- Builder chaining returns `this`. The model states `self == this` rather than modelling Java references further.
- src/main/java/org/ivartj/arguments/Parser.java, the parser built on `Option`, is not part of this model.
- `Option.helpMessage` is stored but not read by any operation of `Option.java`. Its only role in the model is to stay unchanged.

## Findings

| source | as written | input that shows it | evidently intended | confidence | as-written member | corrected member |
|---|---|---|---|---|---|---|
| src/main/java/org/ivartj/args/Lexer.java:108-118 | `hasNext()` consumes at most one `--` per call, then answers whether any argument remains | `["--", "--"]`: `hasNext()` is true, then `next()` consumes the second `--` and returns null | `hasNext()` is true exactly when `next()` has a token to offer (javadoc at lines 105-106) | high, not executed | `LexerProperties.AsWrittenHasNextOverpromises` | `LexerProperties.HasNextAgreesWithNext` |
| src/main/java/org/ivartj/args/Lexer.java:108-118 | after one `--` is consumed, a following `--` is treated as a positional argument | `["--", "--", "--"]`: `hasNext()` then `next()` return the token `--` | an `--` argument is never returned (class documentation at lines 58-62 and `isOption` documentation at lines 86-89) | high, not executed | `LexerProperties.AsWrittenReturnsEndMarker` | `LexerProperties.EndMarkerNeverReturned` |
