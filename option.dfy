/**
 * `org.ivartj.arguments.Option`: the description of one command-line option
 * for the argument parser, built by chaining `flags(...)` and `takes(...)`.
 * The flag list is a Java array that `flags` replaces by a longer copy; a
 * missing parameter name (Java's `null`) is `None`.
 */
module Arguments {
  import Wrappers

  class Option {
    var helpMessage: string
    var flags: array<string>
    var parameterName: Wrappers.Option<string>
    const index: int

    /** `new Option(index, helpMessage)`: no flags and no parameter yet. */
    constructor (index: int, helpMessage: string)
      ensures this.index == index && this.helpMessage == helpMessage
      ensures fresh(flags) && flags.Length == 0
      ensures !HasParameter()
    {
      this.index := index;
      this.helpMessage := helpMessage;
      flags := new string[0];
      parameterName := Wrappers.None;
    }

    /**
     * `flags(fs...)`: the flag array becomes a new array holding the old flags
     * followed by `fs`, in order.  `fs` may be the current flag array itself,
     * as handed out by `getFlags`.
     */
    method Flags(fs: array<string>) returns (self: Option)
      modifies this
      ensures fresh(flags)
      ensures flags.Length == old(flags.Length) + fs.Length
      ensures flags[..] == old(flags[..]) + fs[..]
      ensures helpMessage == old(helpMessage) && parameterName == old(parameterName)
      ensures self == this
    {
      var fstlen := flags.Length;
      var seclen := fs.Length;
      var newFlags := new string[fstlen + seclen];
      var i := 0;
      while i < fstlen
        invariant 0 <= i <= fstlen
        invariant unchanged(this)
        invariant newFlags[..i] == flags[..i]
      {
        newFlags[i] := flags[i];
        i := i + 1;
      }
      var j := 0;
      while j < seclen
        invariant 0 <= j <= seclen
        invariant unchanged(this)
        invariant newFlags[..fstlen] == flags[..]
        invariant newFlags[fstlen..fstlen + j] == fs[..j]
      {
        newFlags[fstlen + j] := fs[j];
        j := j + 1;
      }
      assert newFlags[..] == newFlags[..fstlen] + newFlags[fstlen..fstlen + seclen];
      flags := newFlags;
      self := this;
    }

    /** `getFlags()`: the flag array itself, not a copy. */
    method GetFlags() returns (r: array<string>)
      ensures r == flags
    {
      r := flags;
    }

    /** `hasParameter()`: whether a parameter name is set. */
    predicate HasParameter()
      reads this
    {
      parameterName.Some?
    }

    /** `takes(name)`: sets the parameter name; `takes(null)` clears it. */
    method Takes(name: Wrappers.Option<string>) returns (self: Option)
      modifies this
      ensures HasParameter() <==> name.Some?
      ensures parameterName == name
      ensures flags == old(flags) && helpMessage == old(helpMessage)
      ensures self == this
    {
      parameterName := name;
      self := this;
    }

    /** `getIndex()`: the index given to the constructor. */
    function GetIndex(): (r: int)
      ensures r == index
    {
      index
    }
  }

  /**
   * Building an option by chaining: `new Option(3, help).flags("-o").flags("--output")
   * .takes("FILE")` has both flags in order, a parameter and index 3; a later
   * `takes(null)` removes the parameter and keeps the flags and the index.
   */
  method ChainedOption(help: string) returns (fs: seq<string>, takes: bool, cleared: bool, index: int)
    ensures fs == ["-o", "--output"]
    ensures takes && !cleared
    ensures index == 3
  {
    var o := new Option(3, help);
    var a := new string[1](_ => "-o");
    var b := new string[1](_ => "--output");
    var chained := o.Flags(a);
    chained := chained.Flags(b);
    chained := chained.Takes(Wrappers.Some("FILE"));
    takes := chained.HasParameter();
    chained := chained.Takes(Wrappers.None);
    cleared := chained.HasParameter();
    var r := chained.GetFlags();
    fs := r[..];
    assert fs == [] + ["-o"] + ["--output"];
    index := chained.GetIndex();
  }

  /** Appending an option's own flag array to it doubles the flag list. */
  method SelfAppend(o: Option) returns (fs: seq<string>)
    modifies o
    ensures fs == old(o.flags[..]) + old(o.flags[..])
  {
    var own := o.GetFlags();
    var same := o.Flags(own);
    fs := o.flags[..];
  }
}
