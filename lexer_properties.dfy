/**
 * What the lexer promises its callers, proved about the transition functions
 * that the `Lexer` methods are shown to perform.
 */
module LexerProperties {
  import opened Wrappers
  import opened JavaText
  import opened ArgsLexer

  /** Tokens for the given arguments, one each, verbatim. */
  function Verbatim(ss: seq<string>): (r: seq<NextResult>)
    ensures |r| == |ss|
    ensures forall k :: 0 <= k < |ss| ==> r[k] == Token(ss[k])
  {
    if ss == [] then [] else [Token(ss[0])] + Verbatim(ss[1..])
  }

  /** The tokens "-a", "-b", ... for the characters of `s`. */
  function ShortTokens(s: string): (r: seq<NextResult>)
    ensures |r| == |s|
    ensures forall k :: 0 <= k < |s| ==> r[k] == Token("-" + [s[k]])
  {
    if s == [] then [] else [Token("-" + [s[0]])] + ShortTokens(s[1..])
  }

  // ---------------------------------------------------------------------
  // "--" and the end of the options
  // ---------------------------------------------------------------------

  /** `hasNext()` is true exactly when the following `next()` returns something other than null. */
  lemma HasNextAgreesWithNext(args: seq<string>, c: Cursor)
    requires Resumable(args, c)
    ensures var (more, c1) := HasNextStep(args, c);
      && (more <==> !NextStep(args, c1).0.Exhausted?)
      && (more <==> !NextStep(args, c).0.Exhausted?)
  {
    var c1 := SkipEndMarkers(args, c);
    assert SkipEndMarkers(args, c1) == c1;
  }

  /** An argument vector of nothing but "--" markers gives no token at all. */
  lemma OnlyEndMarkersGiveNothing(args: seq<string>)
    requires forall k :: 0 <= k < |args| ==> args[k] == "--"
    ensures !HasNextStep(args, Start).0
    ensures NextStep(args, Start).0 == Exhausted
  {
  }

  /**
   * A literal "--" argument is never returned: a token always comes from an
   * argument other than "--", and the token "--" itself can only be the '-'
   * character inside a short-option cluster such as "-a-b".
   */
  lemma EndMarkerNeverReturned(args: seq<string>, c: Cursor)
    requires Resumable(args, c)
    ensures var c1 := SkipEndMarkers(args, c);
      var r := NextStep(args, c).0;
      r.Token? ==> c1.index < |args| && args[c1.index] != "--"
                   && (r.token == "--" ==> IsShortCluster(args[c1.index]))
  {
    var c1 := SkipEndMarkers(args, c);
    if c1.index < |args| {
      ClassifyAdvances(args, c1);
    }
  }

  /** Cases A to D: a token moves the cursor forward, an invalid option leaves it alone. */
  lemma ClassifyAdvances(args: seq<string>, c: Cursor)
    requires Resumable(args, c) && c.index < |args|
    ensures var (r, c2) := Classify(args, c);
      && !r.Exhausted?
      && (r.Token? ==> Before(c, c2))
      && (r.InvalidOption? ==> c2 == c)
  {
    var arg := args[c.index];
    if IsLongWithParameter(arg) {
      LongParameterEquals(arg);
    }
  }

  /** Consuming a "--" ends the options: afterwards no string is an option. */
  lemma EndMarkerEndsOptions(args: seq<string>, c: Cursor)
    requires Resumable(args, c) && c.index < |args| && args[c.index] == "--"
    ensures var c1 := HasNextStep(args, c).1;
      c1.noMoreOptions && c1.index > c.index && forall s :: !LooksLikeOption(c1.noMoreOptions, s)
  {
  }

  /** The end of the options is sticky: no call clears it. */
  lemma EndOfOptionsSticky(args: seq<string>, c: Cursor, flag: string)
    requires Resumable(args, c) && c.noMoreOptions
    ensures HasNextStep(args, c).1.noMoreOptions
    ensures NextStep(args, c).1.noMoreOptions
    ensures ExpectStep(args, c).1.noMoreOptions
    ensures ExpectToStep(args, c, flag).1.noMoreOptions
  {
  }

  /** After the end of the options every argument comes back verbatim, even one like "-x". */
  lemma AfterEndOfOptionsPositional(args: seq<string>, c: Cursor)
    requires Resumable(args, c) && c.noMoreOptions
    ensures var c1 := SkipEndMarkers(args, c);
      c1.index < |args| ==>
        NextStep(args, c) == (Token(args[c1.index]), c1.(index := c1.index + 1, previousToken := Some(args[c1.index])))
  {
    PositionalVerbatim(args, c);
  }

  // ---------------------------------------------------------------------
  // Token shapes
  // ---------------------------------------------------------------------

  /** Case A: at a fresh argument, a non-option is returned unchanged and the cursor moves to the next argument. */
  lemma PositionalVerbatim(args: seq<string>, c: Cursor)
    requires Resumable(args, c)
    ensures var c1 := SkipEndMarkers(args, c);
      c1.index < |args| && c1.offset == 0 && !LooksLikeOption(c1.noMoreOptions, args[c1.index]) ==>
        NextStep(args, c) == (Token(args[c1.index]), c1.(index := c1.index + 1, previousToken := Some(args[c1.index])))
  {
  }

  /**
   * From a fresh argument on, arguments that are neither "--" nor options
   * come back one by one, verbatim and in order, and the cursor ends past them.
   */
  lemma {:induction false} PlainArgumentsVerbatim(args: seq<string>, c: Cursor)
    requires Resumable(args, c) && c.offset == 0
    requires forall k :: c.index <= k < |args| ==> args[k] != "--" && !LooksLikeOption(c.noMoreOptions, args[k])
    ensures var (rs, c2) := Run(args, c, |args| - c.index);
      rs == Verbatim(args[c.index..]) && c2.index == |args| && c2.offset == 0
    decreases |args| - c.index
  {
    if c.index < |args| {
      var (r, c1) := NextStep(args, c);
      assert r == Token(args[c.index]) && c1.index == c.index + 1 && c1.offset == 0;
      PlainArgumentsVerbatim(args, c1);
      assert args[c.index..][1..] == args[c1.index..];
    }
  }

  /** The rest of a short-option cluster, from a position inside it, gives one token per character. */
  lemma {:induction false} ClusterRest(args: seq<string>, i: nat, o: nat, p: Option<string>)
    requires i < |args| && IsShortCluster(args[i]) && 2 <= o < |args[i]|
    ensures var arg := args[i];
      Run(args, Cursor(i, o, false, p), |arg| - o)
        == (ShortTokens(arg[o..]), Cursor(i + 1, 0, false, Some("-" + [arg[|arg| - 1]])))
    decreases |args[i]| - o
  {
    var arg := args[i];
    var t := "-" + [arg[o]];
    var c := Cursor(i, o, false, p);
    ClusterStep(args, i, o, p);
    assert ShortTokens(arg[o..]) == [Token(t)] + ShortTokens(arg[o + 1..]) by {
      assert arg[o..][1..] == arg[o + 1..];
    }
    if o + 1 < |arg| {
      ClusterRest(args, i, o + 1, Some(t));
    }
  }

  /** One character of a cluster past its first: its token, and the cursor on the next character or argument. */
  lemma ClusterStep(args: seq<string>, i: nat, o: nat, p: Option<string>)
    requires i < |args| && IsShortCluster(args[i]) && 2 <= o < |args[i]|
    ensures var arg := args[i];
      var t := "-" + [arg[o]];
      NextStep(args, Cursor(i, o, false, p)) ==
        (Token(t), if o + 1 == |arg| then Cursor(i + 1, 0, false, Some(t)) else Cursor(i, o + 1, false, Some(t)))
  {
    assert args[i] != "--";
  }

  /** "-abc" gives exactly "-a", "-b", "-c"; only after the last one does the cursor move to the next argument. */
  lemma ClusterYieldsEachCharacter(args: seq<string>, i: nat, p: Option<string>)
    requires i < |args| && IsShortCluster(args[i])
    ensures var arg := args[i];
      Run(args, Cursor(i, 0, false, p), |arg| - 1)
        == (ShortTokens(arg[1..]), Cursor(i + 1, 0, false, Some("-" + [arg[|arg| - 1]])))
  {
    var arg := args[i];
    var c := Cursor(i, 0, false, p);
    assert arg != "--";
    var (r, c1) := NextStep(args, c);
    assert r == Token("-" + [arg[1]]);
    assert arg[1..][1..] == arg[2..];
    if 2 < |arg| {
      assert c1 == Cursor(i, 2, false, Some("-" + [arg[1]]));
      ClusterRest(args, i, 2, Some("-" + [arg[1]]));
    }
  }

  /**
   * Case B: "--output=file" gives "--output" and leaves the cursor on the '='
   * of the same argument; `expectParameter()` then gives "file" and moves to
   * the next argument.
   */
  lemma LongOptionWithInlineParameter(args: seq<string>, c: Cursor)
    requires Resumable(args, c) && c.offset == 0 && !c.noMoreOptions
    requires c.index < |args| && IsLongWithParameter(args[c.index])
    ensures var arg := args[c.index];
      var e := IndexOf(arg, '=');
      var (r, c1) := NextStep(args, c);
      && 3 <= e < |arg| && arg[e] == '='
      && r == Token(arg[..e])
      && c1 == c.(offset := e, previousToken := Some(arg[..e]))
      && ExpectStep(args, c1) == (Parameter(arg[e + 1..]), c1.(index := c.index + 1, offset := 0))
  {
    LongParameterEquals(args[c.index]);
  }

  /** "-i=input" gives "-i" and then, asked for a parameter, "input" (the '=' branch of `expectParameter()`). */
  lemma ShortOptionWithInlineParameter(args: seq<string>, c: Cursor)
    requires Resumable(args, c) && c.offset == 0 && !c.noMoreOptions && c.index < |args|
    requires var arg := args[c.index]; |arg| >= 3 && arg[0] == '-' && IsAlnum(arg[1]) && arg[2] == '='
    ensures var arg := args[c.index];
      var (r, c1) := NextStep(args, c);
      && r == Token("-" + [arg[1]])
      && c1 == c.(offset := 2, previousToken := Some("-" + [arg[1]]))
      && ExpectStep(args, c1) == (Parameter(arg[3..]), c1.(index := c.index + 1, offset := 0))
  {
    var arg := args[c.index];
    assert arg != "--";
    assert IndexOf(arg, '=') == 2 by {
      assert arg[..2] == [arg[0], arg[1]];
    }
  }

  /** "-Dvalue": after "-D", `expectParameter()` gives the rest of the argument, "value". */
  lemma ShortOptionWithAttachedParameter(args: seq<string>, c: Cursor)
    requires Resumable(args, c) && c.offset == 0 && !c.noMoreOptions && c.index < |args|
    requires var arg := args[c.index]; |arg| >= 3 && IsShortCluster(arg) && arg[2] != '='
    ensures var arg := args[c.index];
      var (r, c1) := NextStep(args, c);
      && r == Token("-" + [arg[1]])
      && c1 == c.(offset := 2, previousToken := Some("-" + [arg[1]]))
      && ExpectStep(args, c1) == (Parameter(arg[2..]), c1.(index := c.index + 1, offset := 0))
  {
    assert args[c.index] != "--";
  }

  /** `expectParameter()` at a fresh non-option argument takes all of it. */
  lemma FollowingArgumentAsParameter(args: seq<string>, c: Cursor)
    requires Resumable(args, c) && c.offset == 0 && c.index < |args|
    requires !LooksLikeOption(c.noMoreOptions, args[c.index])
    ensures ExpectStep(args, c) == (Parameter(args[c.index]), c.(index := c.index + 1))
  {
  }

  /**
   * `expectParameter()` fails, carrying the previous token and leaving the
   * cursor as it was, when the arguments are used up or the next argument is
   * itself an option; `expectParameterTo(f)` carries `f` instead.
   */
  lemma MissingParameterCases(args: seq<string>, c: Cursor, flag: string)
    requires Resumable(args, c)
    ensures c.index == |args| ==> ExpectStep(args, c) == (MissingParameter(c.previousToken), c)
    ensures c.index < |args| && c.offset == 0 && LooksLikeOption(c.noMoreOptions, args[c.index]) ==>
      ExpectStep(args, c) == (MissingParameter(c.previousToken), c)
    ensures ExpectStep(args, c).0.MissingParameter? ==> ExpectStep(args, c) == (MissingParameter(c.previousToken), c)
    ensures ExpectToStep(args, c, flag).0.MissingParameter? ==> ExpectToStep(args, c, flag).0 == MissingParameter(Some(flag))
  {
  }

  /**
   * An option-looking argument that is none of "--long=...", "--long" and
   * "-abc" gives InvalidOption with the raw argument, and the cursor stays.
   */
  lemma UnrecognisedOptionIsInvalid(args: seq<string>, c: Cursor)
    requires Resumable(args, c)
    ensures var c1 := SkipEndMarkers(args, c);
      c1.index < |args| && c1.offset == 0 ==>
        var arg := args[c1.index];
        (NextStep(args, c).0.InvalidOption? <==>
          LooksLikeOption(c1.noMoreOptions, arg) && !IsLongWithParameter(arg) && !IsLongOption(arg) && !IsShortCluster(arg))
    ensures var c1 := SkipEndMarkers(args, c);
      NextStep(args, c).0.InvalidOption? ==> NextStep(args, c) == (InvalidOption(args[c1.index]), c1)
  {
  }

  /** "-!" and "--a.b" are rejected as invalid options. */
  lemma InvalidOptionExamples()
    ensures NextStep(["-!"], Start).0 == InvalidOption("-!")
    ensures NextStep(["--a.b"], Start).0 == InvalidOption("--a.b")
  {
    assert NameRunEnd("--a.b", 3) == 3;
    assert NameRunEnd("--a.b", 2) == 3;
  }

  // ---------------------------------------------------------------------
  // Progress of the cursor
  // ---------------------------------------------------------------------

  /**
   * Every token moves the cursor strictly forward; an invalid option moves
   * it only past "--" markers; null is returned exactly at the end.
   */
  lemma NextAdvances(args: seq<string>, c: Cursor)
    requires Resumable(args, c)
    ensures var (r, c2) := NextStep(args, c);
      && (r.Token? ==> Before(c, c2))
      && (r.InvalidOption? ==> c2 == SkipEndMarkers(args, c))
      && (r.Exhausted? <==> SkipEndMarkers(args, c).index == |args|)
      && (r.Exhausted? ==> c2.offset == 0 && NextStep(args, c2).0 == Exhausted)
  {
    var c1 := SkipEndMarkers(args, c);
    if c1.index < |args| {
      ClassifyAdvances(args, c1);
    }
  }

  /** A parameter always moves the cursor to the start of the next argument; a failure leaves it alone. */
  lemma ExpectAdvances(args: seq<string>, c: Cursor)
    requires Resumable(args, c)
    ensures var (r, c2) := ExpectStep(args, c);
      && (r.Parameter? ==> c2.index == c.index + 1 && c2.offset == 0 && Before(c, c2))
      && (r.MissingParameter? ==> c2 == c)
  {
  }

  // ---------------------------------------------------------------------
  // A whole command line
  // ---------------------------------------------------------------------

  /** The command line of the example below. */
  const ExampleArgs: seq<string> := ["-h", "--version", "--output=out.txt", "pos1", "--", "-x"]

  lemma ExampleShortOption()
    ensures NextStep(ExampleArgs, Start) == (Token("-h"), Cursor(1, 0, false, Some("-h")))
  {
    var arg := ExampleArgs[0];
    assert arg == "-h" && arg[1] == 'h' && arg != "--";
    assert SkipEndMarkers(ExampleArgs, Start) == Start;
    assert !IsLongWithParameter(arg) && !IsLongOption(arg) && IsShortCluster(arg);
    assert "-" + [arg[1]] == "-h";
  }

  lemma ExampleLongOption()
    ensures NextStep(ExampleArgs, Cursor(1, 0, false, Some("-h")))
      == (Token("--version"), Cursor(2, 0, false, Some("--version")))
  {
    var arg := ExampleArgs[1];
    assert arg == "--version" && arg != "--";
    assert NameRunEnd(arg, 2) == 9;
    assert !IsLongWithParameter(arg) && IsLongOption(arg);
  }

  lemma ExampleOutputName()
    ensures forall j :: 2 <= j < 8 ==> IsNameChar(ExampleArgs[2][j])
    ensures ExampleArgs[2][8] == '=' && !IsNameChar(ExampleArgs[2][8])
  {
    assert ExampleArgs[2] == "--output=out.txt";
  }

  lemma ExampleOutputPieces()
    ensures ExampleArgs[2][..8] == "--output" && ExampleArgs[2][9..] == "out.txt"
  {
    assert ExampleArgs[2] == "--output=out.txt";
  }

  lemma ExampleInlineShape()
    ensures IsLongWithParameter(ExampleArgs[2]) && IndexOf(ExampleArgs[2], '=') == 8
  {
    ExampleOutputName();
    NameRunEndIs(ExampleArgs[2], 2, 8);
    LongParameterEquals(ExampleArgs[2]);
  }

  lemma ExampleInlineParameter()
    ensures var c2 := Cursor(2, 0, false, Some("--version"));
      var c3 := Cursor(2, 8, false, Some("--output"));
      && NextStep(ExampleArgs, c2) == (Token("--output"), c3)
      && ExpectStep(ExampleArgs, c3) == (Parameter("out.txt"), Cursor(3, 0, false, Some("--output")))
  {
    ExampleInlineShape();
    ExampleOutputPieces();
    var c2 := Cursor(2, 0, false, Some("--version"));
    assert ExampleArgs[2] != "--";
    assert SkipEndMarkers(ExampleArgs, c2) == c2;
    assert Classify(ExampleArgs, c2) == (Token("--output"), Cursor(2, 8, false, Some("--version")));
  }

  lemma ExamplePositionals()
    ensures var c4 := Cursor(4, 0, false, Some("pos1"));
      var c5 := Cursor(6, 0, true, Some("-x"));
      && NextStep(ExampleArgs, Cursor(3, 0, false, Some("--output"))) == (Token("pos1"), c4)
      && NextStep(ExampleArgs, c4) == (Token("-x"), c5)
      && NextStep(ExampleArgs, c5).0 == Exhausted
  {
    assert ExampleArgs[3] == "pos1" && ExampleArgs[3] != "--";
    assert ExampleArgs[4] == "--" && ExampleArgs[5] == "-x" && ExampleArgs[5] != "--";
    assert SkipEndMarkers(ExampleArgs, Cursor(4, 0, false, Some("pos1"))) == Cursor(5, 0, true, Some("pos1"));
  }

  /**
   * ["-h", "--version", "--output=out.txt", "pos1", "--", "-x"] gives "-h",
   * "--version", "--output" (whose parameter is "out.txt"), "pos1" and "-x",
   * and then null.
   */
  lemma CommandLineExample()
    ensures var (r1, c1) := NextStep(ExampleArgs, Start);
      var (r2, c2) := NextStep(ExampleArgs, c1);
      var (r3, c3) := NextStep(ExampleArgs, c2);
      var (p3, d3) := ExpectStep(ExampleArgs, c3);
      var (r4, c4) := NextStep(ExampleArgs, d3);
      var (r5, c5) := NextStep(ExampleArgs, c4);
      var (r6, _) := NextStep(ExampleArgs, c5);
      && r1 == Token("-h") && r2 == Token("--version") && r3 == Token("--output")
      && p3 == Parameter("out.txt") && r4 == Token("pos1") && r5 == Token("-x") && r6 == Exhausted
  {
    ExampleShortOption();
    ExampleLongOption();
    ExampleInlineParameter();
    ExamplePositionals();
  }

  // ---------------------------------------------------------------------
  // hasNext() as written: one "--" per call
  // ---------------------------------------------------------------------

  /**
   * With ["--", "--"], `hasNext()` as written answers true, yet the `next()`
   * that follows consumes the second "--" and returns null.
   */
  lemma AsWrittenHasNextOverpromises()
    ensures var args := ["--", "--"];
      var (more, c1) := HasNextAsWritten(args, Start);
      more && NextAsWritten(args, c1).0 == Exhausted
  {
    var args := ["--", "--"];
    var c1 := Cursor(1, 0, true, None);
    assert HasNextAsWritten(args, Start) == (true, c1);
    assert HasNextAsWritten(args, c1) == (false, Cursor(2, 0, true, None));
  }

  /** With ["--", "--", "--"], `hasNext()` then `next()` as written return the third "--" as a token. */
  lemma AsWrittenReturnsEndMarker()
    ensures var args := ["--", "--", "--"];
      var (more, c1) := HasNextAsWritten(args, Start);
      more && NextAsWritten(args, c1).0 == Token("--")
  {
    var args := ["--", "--", "--"];
    var c1 := Cursor(1, 0, true, None);
    var c2 := Cursor(2, 0, true, None);
    assert HasNextAsWritten(args, Start) == (true, c1);
    assert HasNextAsWritten(args, c1) == (true, c2);
    assert !LooksLikeOption(true, args[2]);
    assert Classify(args, c2).0 == Token("--");
  }

  /** The same two inputs with every "--" consumed: nothing is promised and nothing is returned. */
  lemma EndMarkersOnlyCorrected()
    ensures !HasNextStep(["--", "--"], Start).0 && NextStep(["--", "--"], Start).0 == Exhausted
    ensures !HasNextStep(["--", "--", "--"], Start).0 && NextStep(["--", "--", "--"], Start).0 == Exhausted
  {
    OnlyEndMarkersGiveNothing(["--", "--"]);
    OnlyEndMarkersGiveNothing(["--", "--", "--"]);
  }

  /**
   * Where the two readings of `hasNext()` can differ: only at a "--" that is
   * followed by another "--".  Everywhere else the code as written steps
   * exactly as the corrected lexer does, so every property proved above of
   * `HasNextStep` and `NextStep` holds of it there too.
   */
  lemma AsWrittenAgrees(args: seq<string>, c: Cursor)
    requires Resumable(args, c)
    requires !(c.index + 1 < |args| && args[c.index] == "--" && args[c.index + 1] == "--")
    ensures HasNextAsWritten(args, c) == HasNextStep(args, c)
    ensures NextAsWritten(args, c) == NextStep(args, c)
  {
  }
}
