/** The main engine: an object that is given the argument vector, collects
    registrations and filters, and then parses once, filling its named
    values, positional values and error list in place. Every method is
    proved to leave the object in the state the functions of ParserSpec
    describe. */
module ParserEngine {
  import opened Arguments
  import opened Filters
  import opened ParserSpec

  class Parser {
    /** The argument vector given to the constructor. */
    const arguments: seq<string>
    /** Registered argument metadata, in registration order. */
    var infos: seq<ArgInfo>
    /** Registered filters, in registration order. */
    var filters: seq<Filter>
    var named: map<string, string>
    var unnamed: seq<string>
    var errors: seq<string>
    /** Set as the first thing Parse does; guards against a second parse. */
    var isParsed: bool

    /** The accumulated state, as the filters see it. */
    function Snapshot(): State
      reads this
    {
      State(named, unnamed, errors)
    }

    /** A fresh engine registers the default-value filter and then the
        required filter. */
    constructor(arguments: seq<string>)
      ensures this.arguments == arguments && infos == [] && filters == DefaultFilters
      ensures Snapshot() == EmptyState && !isParsed
    {
      this.arguments := arguments;
      infos := [];
      filters := DefaultFilters;
      named := map[];
      unnamed := [];
      errors := [];
      isParsed := false;
    }

    /** Filters given to the constructor follow the two default filters; an
        absent list adds nothing. */
    constructor WithFilters(arguments: seq<string>, definitions: Option<seq<Filter>>)
      ensures this.arguments == arguments && infos == []
      ensures filters == DefaultFilters + (if definitions.Some? then definitions.value else [])
      ensures Snapshot() == EmptyState && !isParsed
    {
      this.arguments := arguments;
      infos := [];
      named := map[];
      unnamed := [];
      errors := [];
      isParsed := false;
      filters := DefaultFilters;
      if definitions.Some? {
        filters := filters + definitions.value;
      }
    }

    method AddArgumentInfo(info: ArgInfo)
      modifies this`infos
      ensures infos == old(infos) + [info]
    {
      infos := infos + [info];
    }

    /** A filter added later runs after every filter registered before it. */
    method AddFilter(filter: Filter)
      modifies this`filters
      ensures filters == old(filters) + [filter]
    {
      filters := filters + [filter];
    }

    /** Errors are only ever appended. */
    method AddError(error: string)
      modifies this`errors
      ensures errors == old(errors) + [error]
    {
      errors := errors + [error];
    }

    /** One hook of one filter, given the engine's state. */
    method RunHook(f: Filter, phase: Phase)
      modifies this`named, this`unnamed, this`errors
      ensures Snapshot() == Apply(f, phase, infos, old(Snapshot()))
    {
      var s := Apply(f, phase, infos, Snapshot());
      named, unnamed, errors := s.named, s.unnamed, s.errors;
    }

    /** One hook of every filter, in registration order. */
    method RunHooks(phase: Phase)
      modifies this`named, this`unnamed, this`errors
      ensures Snapshot() == Run(filters, phase, infos, old(Snapshot()))
    {
      for i := 0 to |filters|
        invariant Snapshot() == Run(filters[..i], phase, infos, old(Snapshot()))
      {
        assert filters[..i + 1][..i] == filters[..i];
        RunHook(filters[i], phase);
      }
      assert filters[..|filters|] == filters;
    }

    /** The one parse: fails without touching anything when it has run
        before; otherwise marks the engine parsed before any hook or token
        runs, then runs the before-hooks, the token pass and the
        after-hooks. */
    method Parse() returns (r: Result<()>)
      modifies this`named, this`unnamed, this`errors, this`isParsed
      ensures old(isParsed) ==> r == Failure(AlreadyParsedMessage) && Snapshot() == old(Snapshot()) && isParsed
      ensures !old(isParsed) ==> r == Success(()) && isParsed
                                 && Snapshot() == ParseAll(arguments, infos, filters, old(Snapshot()))
      decreases if isParsed then 0 else 1, 0
    {
      if isParsed {
        return Failure(AlreadyParsedMessage);
      }
      isParsed := true;
      var s0 := Snapshot();
      RunHooks(BeforeParsing);
      var sBefore := Snapshot();
      assert sBefore == Run(filters, BeforeParsing, infos, s0);
      var n := 0;
      while n < |arguments|
        invariant isParsed
        invariant Scan(arguments, infos, n, Snapshot()) == Scan(arguments, infos, 0, sBefore)
        decreases |arguments| - n
      {
        n := ClassifyToken(n);
        n := n + 1;
      }
      RunHooks(AfterParsing);
      return Success(());
    }

    /** The token at cursor n: an empty token is skipped, a double-dash token
        names an option, a single-dash token is a bundle of short options,
        anything else is a positional value. Returns the cursor of the last
        token used. */
    method ClassifyToken(n: nat) returns (n': nat)
      requires isParsed && n < |arguments|
      modifies this`named, this`unnamed, this`errors, this`isParsed
      ensures isParsed
      ensures (n', Snapshot()) == Step(arguments, infos, n, old(Snapshot()))
      decreases if isParsed then 0 else 1, 4
    {
      n' := n;
      var argument := arguments[n];
      if argument == "" {
      } else if "--" <= argument {
        n' := AddValueToNamedArgument(n, argument[2..]);
      } else if argument[0] == '-' {
        n' := ParseSingleDashOption(n, argument[1..]);
      } else {
        unnamed := unnamed + [argument];
      }
    }

    /** The characters of a single-dash token, each in turn; a value-taking
        character moves the cursor onto its value. Names are written through
        the lazy accessor, which does not parse again since parsing has
        started. */
    method ParseSingleDashOption(n: nat, argumentName: string) returns (n': nat)
      requires isParsed
      modifies this`named, this`unnamed, this`errors, this`isParsed
      ensures isParsed
      ensures (n', Snapshot()) == Bundle(arguments, infos, n, argumentName, 0, old(Snapshot()))
      decreases if isParsed then 0 else 1, 3
    {
      n' := n;
      for i := 0 to |argumentName|
        invariant isParsed
        invariant Bundle(arguments, infos, n', argumentName, i, Snapshot())
               == Bundle(arguments, infos, n, argumentName, 0, old(Snapshot()))
      {
        n' := ParseBundleChar(n', argumentName, i);
      }
    }

    /** One character of a bundle: the body of the bundle loop. */
    method ParseBundleChar(n: nat, argumentName: string, i: nat) returns (n': nat)
      requires isParsed && i < |argumentName|
      modifies this`named, this`unnamed, this`errors, this`isParsed
      ensures isParsed
      ensures (n', Snapshot()) == BundleChar(arguments, infos, n, argumentName, i, old(Snapshot()))
      decreases if isParsed then 0 else 1, 2
    {
      n' := n;
      var c := argumentName[i];
      match FindShort(infos, c)
      case None =>
        var m := NamedArguments();
        named := m[argumentName := FlagValue];
      case Some(k) =>
        if !infos[k].hasValue {
          var m := NamedArguments();
          named := m[infos[k].longName := FlagValue];
        } else {
          if |argumentName| > 1 {
            AddError(BundleMessage(c));
          }
          n' := AddValueToNamedArgument(n', infos[k].longName);
        }
    }

    /** A named option at cursor n: looks its registration up by name
        ignoring case; a value-taking option moves the cursor onto its
        value. */
    method AddValueToNamedArgument(n: nat, argumentName: string) returns (n': nat)
      modifies this`named, this`errors
      ensures (n', Snapshot()) == AddValue(arguments, infos, n, argumentName, old(Snapshot()))
    {
      n' := n;
      match FindLong(infos, argumentName)
      case None =>
        named := named[argumentName := FlagValue];
      case Some(k) =>
        if !infos[k].hasValue {
          named := named[infos[k].longName := FlagValue];
        } else {
          n' := n' + 1;
          if |arguments| <= n' {
            AddError(ValueMissingPrefix + argumentName);
          } else {
            named := named[infos[k].longName := arguments[n']];
          }
        }
    }

    /** The named values, parsing first when that has not happened yet. */
    method NamedArguments() returns (m: map<string, string>)
      modifies this`named, this`unnamed, this`errors, this`isParsed
      ensures isParsed && m == named
      ensures old(isParsed) ==> Snapshot() == old(Snapshot())
      ensures !old(isParsed) ==> Snapshot() == ParseAll(arguments, infos, filters, old(Snapshot()))
      decreases if isParsed then 0 else 1, 1
    {
      if !isParsed {
        var _ := Parse();
      }
      m := named;
    }

    /** The positional values, parsing first when that has not happened yet. */
    method UnnamedArguments() returns (u: seq<string>)
      modifies this`named, this`unnamed, this`errors, this`isParsed
      ensures isParsed && u == unnamed
      ensures old(isParsed) ==> Snapshot() == old(Snapshot())
      ensures !old(isParsed) ==> Snapshot() == ParseAll(arguments, infos, filters, old(Snapshot()))
    {
      if !isParsed {
        var _ := Parse();
      }
      u := unnamed;
    }

    /** Usage is due when errors were reported or help was asked for. The
        errors are looked at before the named values are read, and reading
        them parses when that has not happened yet. */
    method ShowUsageIfNecessary() returns (show: bool)
      modifies this`named, this`unnamed, this`errors, this`isParsed
      ensures show == (|old(errors)| > 0 || HasHelpKey(named))
      ensures old(isParsed) || |old(errors)| > 0 ==> Snapshot() == old(Snapshot()) && isParsed == old(isParsed)
      ensures !old(isParsed) && |old(errors)| == 0 ==>
                isParsed && Snapshot() == ParseAll(arguments, infos, filters, old(Snapshot()))
    {
      if |errors| > 0 {
        return true;
      }
      var m := NamedArguments();
      show := HasHelpKey(m);
    }

    /** Parses, and answers whether no usage had to be shown. */
    method ParseOrShowUsage() returns (r: Result<bool>)
      modifies this`named, this`unnamed, this`errors, this`isParsed
      ensures isParsed
      ensures old(isParsed) ==> r == Failure(AlreadyParsedMessage) && Snapshot() == old(Snapshot())
      ensures !old(isParsed) ==> Snapshot() == ParseAll(arguments, infos, filters, old(Snapshot()))
                                 && r == Success(!ShowsUsage(Snapshot()))
    {
      var outcome := Parse();
      if outcome.Failure? {
        return Failure(outcome.message);
      }
      var show := ShowUsageIfNecessary();
      return Success(!show);
    }

    /** The high-level entry point. Registering the metadata of the target
        type and filling an object from the parsed values are given as
        parameters: fill yields the object and the errors it reports. The
        result is absent exactly when usage is due after parsing, or after
        filling. */
    static method ParseIntoOrShowUsage<T>(args: seq<string>, infos: seq<ArgInfo>,
                                          fill: State -> (T, seq<string>))
      returns (r: Option<T>)
      ensures var s := ParseAll(args, infos, DefaultFilters, EmptyState);
        r == if ShowsUsage(s) || |fill(s).1| > 0 then None else Some(fill(s).0)
    {
      ghost var s := ParseAll(args, infos, DefaultFilters, EmptyState);
      var parser := PrepareParser(args, infos);
      var _ := parser.Parse();
      assert parser.Snapshot() == s;
      var show := parser.ShowUsageIfNecessary();
      if show {
        return None;
      }
      assert !ShowsUsage(s);
      var filled := fill(parser.Snapshot());
      assert filled == fill(s);
      for i := 0 to |filled.1|
        invariant parser.errors == filled.1[..i]
        invariant parser.isParsed && !HasHelpKey(parser.named)
      {
        parser.AddError(filled.1[i]);
      }
      show := parser.ShowUsageIfNecessary();
      if show {
        return None;
      }
      return Some(filled.0);
    }

    /** A fresh engine over args with the given registrations, in order. */
    static method PrepareParser(args: seq<string>, infos: seq<ArgInfo>) returns (parser: Parser)
      ensures fresh(parser)
      ensures parser.arguments == args && parser.infos == infos && parser.filters == DefaultFilters
      ensures parser.Snapshot() == EmptyState && !parser.isParsed
    {
      parser := new Parser(args);
      for i := 0 to |infos|
        invariant parser.infos == infos[..i]
        invariant parser.arguments == args && parser.filters == DefaultFilters
        invariant parser.Snapshot() == EmptyState && !parser.isParsed
      {
        parser.AddArgumentInfo(infos[i]);
      }
    }
  }
}
