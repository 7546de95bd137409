/**
 * The command-line argument lexer: a cursor over a fixed argument vector that
 * yields positional arguments, short options ("-x"), long options ("--long")
 * and, on the caller's request, option parameters.
 *
 * The lexer's state transitions are first given as pure functions on a
 * `Cursor` value; the `Lexer` class keeps the same state in fields that its
 * methods update in place, and each method is proved to perform exactly the
 * corresponding transition.
 */
module ArgsLexer {
  import opened Wrappers
  import opened JavaText

  // ---------------------------------------------------------------------
  // The three argument shapes (the regular expressions of Lexer.java)
  // ---------------------------------------------------------------------

  /** `[a-zA-Z0-9]` */
  predicate IsAlnum(ch: char) {
    'a' <= ch <= 'z' || 'A' <= ch <= 'Z' || '0' <= ch <= '9'
  }

  /** `[-a-zA-Z0-9]`, the characters of a long option name. */
  predicate IsNameChar(ch: char) {
    ch == '-' || IsAlnum(ch)
  }

  /** The end of the longest run of name characters in `s` starting at `k`. */
  function NameRunEnd(s: string, k: nat): (e: nat)
    requires k <= |s|
    ensures k <= e <= |s|
    ensures forall j :: k <= j < e ==> IsNameChar(s[j])
    ensures e < |s| ==> !IsNameChar(s[e])
    decreases |s| - k
  {
    if k < |s| && IsNameChar(s[k]) then NameRunEnd(s, k + 1) else k
  }

  /** A run of name characters from `k` that stops at `e` is the run `NameRunEnd` finds. */
  lemma {:induction false} NameRunEndIs(s: string, k: nat, e: nat)
    requires k <= e <= |s|
    requires forall j :: k <= j < e ==> IsNameChar(s[j])
    requires e < |s| ==> !IsNameChar(s[e])
    ensures NameRunEnd(s, k) == e
    decreases e - k
  {
    if k < e {
      NameRunEndIs(s, k + 1, e);
    }
  }

  /** The characters Java's regular expressions treat as line terminators. */
  predicate IsLineTerminator(ch: char) {
    ch == '\n' || ch == '\r' || ch == '\U{0085}' || ch == '\U{2028}' || ch == '\U{2029}'
  }

  /**
   * Java's `$` outside multi-line mode matches at position `e`: at the end of
   * the input, or just before a line terminator (or "\r\n") that ends it.
   */
  predicate EndAnchorAt(s: string, e: nat) {
    || e == |s|
    || (e + 1 == |s| && IsLineTerminator(s[e]) && !(s[e] == '\n' && e > 0 && s[e - 1] == '\r'))
    || (e + 2 == |s| && s[e] == '\r' && s[e + 1] == '\n')
  }

  /** `^--[-a-zA-Z0-9]+=` found at the start: a long option with an inline parameter (case B). */
  predicate IsLongWithParameter(arg: string) {
    |arg| >= 2 && arg[0] == '-' && arg[1] == '-' &&
    var e := NameRunEnd(arg, 2);
    e > 2 && e < |arg| && arg[e] == '='
  }

  /** `^--[-a-zA-Z0-9]+$` found at the start: a long option on its own (case C). */
  predicate IsLongOption(arg: string) {
    |arg| >= 2 && arg[0] == '-' && arg[1] == '-' &&
    var e := NameRunEnd(arg, 2);
    e > 2 && EndAnchorAt(arg, e)
  }

  /** `^-[a-zA-Z0-9]+` found at the start: one or more short options (case D). */
  predicate IsShortCluster(arg: string) {
    |arg| >= 2 && arg[0] == '-' && IsAlnum(arg[1])
  }

  /** In case B the parameter starts right after the first '='. */
  lemma LongParameterEquals(arg: string)
    requires IsLongWithParameter(arg)
    ensures IndexOf(arg, '=') == NameRunEnd(arg, 2) >= 3
  {
    var e := NameRunEnd(arg, 2);
    assert arg[..e + 1][e] == '=';
  }

  /** `isOption`: a token is an option when it starts with '-', is longer than "-", and no "--" has been seen. */
  predicate LooksLikeOption(noMoreOptions: bool, token: string) {
    !noMoreOptions && |token| > 1 && token[0] == '-'
  }

  // ---------------------------------------------------------------------
  // Lexer state and its transitions
  // ---------------------------------------------------------------------

  /** The four mutable fields of a lexer. */
  datatype Cursor = Cursor(index: nat, offset: nat, noMoreOptions: bool, previousToken: Option<string>)

  /** What `next()` gives: a token, null once the arguments are used up, or an InvalidOptionException. */
  datatype NextResult = Token(token: string) | Exhausted | InvalidOption(argument: string)

  /** What `expectParameter()` gives: a parameter, or a MissingParameterException carrying the flag. */
  datatype ParameterResult = Parameter(value: string) | MissingParameter(flag: Option<string>)

  /** A fresh lexer. */
  const Start: Cursor := Cursor(0, 0, false, None)

  /**
   * The cursor is a place the lexer can resume from: either every argument is
   * consumed, or `offset` is 0, or it lies inside an option argument past its
   * first option character (and then no "--" has been seen).
   */
  predicate Resumable(args: seq<string>, c: Cursor) {
    && c.index <= |args|
    && (c.offset != 0 ==> c.index < |args| && 2 <= c.offset < |args[c.index]| && !c.noMoreOptions)
  }

  /** `(index, offset)` of `c` comes strictly before that of `d`. */
  predicate Before(c: Cursor, d: Cursor) {
    c.index < d.index || (c.index == d.index && c.offset < d.offset)
  }

  /**
   * The side effect of `hasNext()`: every "--" at the cursor is consumed and
   * ends the options.  (The source consumes only one; see `SkipOneEndMarker`.)
   */
  function SkipEndMarkers(args: seq<string>, c: Cursor): (r: Cursor)
    requires Resumable(args, c)
    ensures Resumable(args, r)
    ensures r.index == |args| || args[r.index] != "--"
    ensures c.index <= r.index && r.offset == c.offset && r.previousToken == c.previousToken
    ensures forall k :: c.index <= k < r.index ==> args[k] == "--"
    ensures r.noMoreOptions == (c.noMoreOptions || c.index < r.index)
    decreases |args| - c.index
  {
    if c.index < |args| && args[c.index] == "--" then
      SkipEndMarkers(args, c.(index := c.index + 1, noMoreOptions := true))
    else c
  }

  /** `hasNext()`: whether an argument remains once the "--" markers are consumed, and the new cursor. */
  function HasNextStep(args: seq<string>, c: Cursor): (bool, Cursor)
    requires Resumable(args, c)
  {
    var c1 := SkipEndMarkers(args, c);
    (c1.index != |args|, c1)
  }

  /** Cases A to D of `nextInternal()`, at a cursor that has an argument left. */
  function Classify(args: seq<string>, c: Cursor): (r: (NextResult, Cursor))
    requires Resumable(args, c) && c.index < |args|
    ensures Resumable(args, r.1)
    ensures r.1.noMoreOptions == c.noMoreOptions && r.1.previousToken == c.previousToken
  {
    var arg := args[c.index];
    if !LooksLikeOption(c.noMoreOptions, arg) && c.offset == 0 then
      // A: a positional argument
      (Token(arg), c.(index := c.index + 1))
    else if IsLongWithParameter(arg) && c.offset == 0 then
      // B: "--long=parameter"; the cursor stops at the '='
      LongParameterEquals(arg);
      var e := IndexOf(arg, '=');
      (Token(arg[..e]), c.(offset := e))
    else if IsLongOption(arg) && c.offset == 0 then
      // C: "--long"
      (Token(arg), c.(index := c.index + 1))
    else if IsShortCluster(arg) then
      // D: the next character of "-abc"
      var at := if c.offset == 0 then 1 else c.offset;
      var ch := arg[at];
      if at + 1 == |arg| then (Token("-" + [ch]), c.(index := c.index + 1, offset := 0))
      else (Token("-" + [ch]), c.(offset := at + 1))
    else
      (InvalidOption(arg), c)
  }

  /** `nextInternal()`: `hasNext()` then cases A to D. */
  function Advance(args: seq<string>, c: Cursor): (r: (NextResult, Cursor))
    requires Resumable(args, c)
    ensures Resumable(args, r.1)
  {
    var (more, c1) := HasNextStep(args, c);
    if !more then (Exhausted, c1) else Classify(args, c1)
  }

  /** `next()`: `nextInternal()`, remembering a returned token (or null) as the previous token. */
  function NextStep(args: seq<string>, c: Cursor): (r: (NextResult, Cursor))
    requires Resumable(args, c)
    ensures Resumable(args, r.1)
  {
    var (res, c1) := Advance(args, c);
    match res
    case Token(t) => (res, c1.(previousToken := Some(t)))
    case Exhausted => (res, c1.(previousToken := None))
    case InvalidOption(_) => (res, c1)
  }

  /** `expectParameter()`: consume one parameter for the previous token. */
  function ExpectStep(args: seq<string>, c: Cursor): (r: (ParameterResult, Cursor))
    requires Resumable(args, c)
    ensures Resumable(args, r.1)
  {
    if c.index == |args| then (MissingParameter(c.previousToken), c)
    else
      var arg := args[c.index];
      if c.offset == 0 && !LooksLikeOption(c.noMoreOptions, arg) then
        // a whole following non-option argument
        (Parameter(arg), c.(index := c.index + 1))
      else if c.offset as int == IndexOf(arg, '=') then
        // the text after the '=' the cursor stands on
        (Parameter(arg[c.offset + 1..]), c.(index := c.index + 1, offset := 0))
      else if IsShortCluster(arg) && c.offset == 2 then
        // the rest of "-Dvalue"
        (Parameter(arg[c.offset..]), c.(index := c.index + 1, offset := 0))
      else
        (MissingParameter(c.previousToken), c)
  }

  /** `expectParameterTo(flag)`: `expectParameter()` with `flag` as the previous token. */
  function ExpectToStep(args: seq<string>, c: Cursor, flag: string): (r: (ParameterResult, Cursor))
    requires Resumable(args, c)
    ensures Resumable(args, r.1)
  {
    ExpectStep(args, c.(previousToken := Some(flag)))
  }

  /** The results of `n` successive calls of `next()`, and the cursor after them. */
  function Run(args: seq<string>, c: Cursor, n: nat): (r: (seq<NextResult>, Cursor))
    requires Resumable(args, c)
    ensures |r.0| == n && Resumable(args, r.1)
    decreases n
  {
    if n == 0 then ([], c)
    else
      var (res, c1) := NextStep(args, c);
      var (rest, c2) := Run(args, c1, n - 1);
      ([res] + rest, c2)
  }

  // ---------------------------------------------------------------------
  // hasNext as the source writes it
  // ---------------------------------------------------------------------

  /** The side effect of `hasNext()` as written: at most ONE "--" is consumed. */
  function SkipOneEndMarker(args: seq<string>, c: Cursor): (r: Cursor)
    requires Resumable(args, c)
    ensures Resumable(args, r)
  {
    if c.index < |args| && args[c.index] == "--" then c.(index := c.index + 1, noMoreOptions := true)
    else c
  }

  /** `hasNext()` as written. */
  function HasNextAsWritten(args: seq<string>, c: Cursor): (bool, Cursor)
    requires Resumable(args, c)
  {
    if c.index == |args| then (false, c)
    else
      var c1 := SkipOneEndMarker(args, c);
      (c1.index != |args|, c1)
  }

  /** `next()` built on `hasNext()` as written. */
  function NextAsWritten(args: seq<string>, c: Cursor): (NextResult, Cursor)
    requires Resumable(args, c)
  {
    var (more, c1) := HasNextAsWritten(args, c);
    if !more then (Exhausted, c1.(previousToken := None))
    else
      var (res, c2) := Classify(args, c1);
      if res.Token? then (res, c2.(previousToken := Some(res.token))) else (res, c2)
  }

  // ---------------------------------------------------------------------
  // The lexer object
  // ---------------------------------------------------------------------

  class Lexer {
    const args: seq<string>
    var index: nat
    var offset: nat
    var noMoreOptions: bool
    var previousToken: Option<string>

    /** The fields, as a cursor value. */
    function State(): Cursor
      reads this
    {
      Cursor(index, offset, noMoreOptions, previousToken)
    }

    ghost predicate Valid()
      reads this
    {
      Resumable(args, State())
    }

    constructor (args: seq<string>)
      ensures this.args == args && State() == Start && Valid()
    {
      this.args := args;
      index, offset := 0, 0;
      noMoreOptions := false;
      previousToken := None;
    }

    /** `isOption(token)` */
    predicate IsOption(token: string)
      reads this
    {
      LooksLikeOption(noMoreOptions, token)
    }

    /** `hasNext()`: consumes the "--" markers at the cursor and says whether an argument remains. */
    method HasNext() returns (more: bool)
      requires Valid()
      modifies this
      ensures Valid()
      ensures (more, State()) == HasNextStep(args, old(State()))
      ensures more <==> index < |args|
      ensures more ==> args[index] != "--"
    {
      while index != |args| && args[index] == "--"
        invariant Valid()
        invariant SkipEndMarkers(args, State()) == SkipEndMarkers(args, old(State()))
        decreases |args| - index
      {
        noMoreOptions := true;
        index := index + 1;
      }
      more := index != |args|;
    }

    /** `nextInternal()` */
    method NextInternal() returns (r: NextResult)
      requires Valid()
      modifies this
      ensures Valid()
      ensures (r, State()) == Advance(args, old(State()))
    {
      var more := HasNext();
      if !more {
        return Exhausted;
      }
      var arg := args[index];
      if !IsOption(arg) && offset == 0 {
        index := index + 1;
        return Token(arg);
      }
      if IsLongWithParameter(arg) && offset == 0 {
        LongParameterEquals(arg);
        offset := IndexOf(arg, '=');
        return Token(arg[..offset]);
      }
      if IsLongOption(arg) && offset == 0 {
        index := index + 1;
        return Token(arg);
      }
      if IsShortCluster(arg) {
        if offset == 0 {
          offset := offset + 1;
        }
        var ch := arg[offset];
        offset := offset + 1;
        if offset == |arg| {
          offset := 0;
          index := index + 1;
        }
        return Token("-" + [ch]);
      }
      return InvalidOption(arg);
    }

    /** `next()` */
    method Next() returns (r: NextResult)
      requires Valid()
      modifies this
      ensures Valid()
      ensures (r, State()) == NextStep(args, old(State()))
    {
      r := NextInternal();
      match r
      case Token(t) => previousToken := Some(t);
      case Exhausted => previousToken := None;
      case InvalidOption(_) =>
    }

    /** `expectParameter()` */
    method ExpectParameter() returns (r: ParameterResult)
      requires Valid()
      modifies this
      ensures Valid()
      ensures (r, State()) == ExpectStep(args, old(State()))
    {
      if index == |args| {
        return MissingParameter(previousToken);
      }
      var arg := args[index];
      if offset == 0 && !IsOption(arg) {
        index := index + 1;
        return Parameter(arg);
      }
      if offset as int == IndexOf(arg, '=') {
        var value := arg[offset + 1..];
        index := index + 1;
        offset := 0;
        return Parameter(value);
      }
      if IsShortCluster(arg) && offset == 2 {
        var value := arg[offset..];
        index := index + 1;
        offset := 0;
        return Parameter(value);
      }
      return MissingParameter(previousToken);
    }

    /** `expectParameterTo(flag)` */
    method ExpectParameterTo(flag: string) returns (r: ParameterResult)
      requires Valid()
      modifies this
      ensures Valid()
      ensures (r, State()) == ExpectToStep(args, old(State()), flag)
    {
      previousToken := Some(flag);
      r := ExpectParameter();
    }
  }
}
