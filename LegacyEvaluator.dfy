/** The legacy evaluator: the same life cycle as the main engine (register,
    parse once, read), but a flat pass that keeps no error list. Its parse is
    proved to leave the object in the state EvaluatorSpec describes. */
module LegacyEvaluator {
  import opened Arguments
  import opened Filters
  import opened EvaluatorSpec

  class CommandLineEvaluator {
    /** The argument vector given to the constructor. */
    const arguments: seq<string>
    /** Registered argument metadata; the pass itself never reads it. */
    var infos: seq<ArgInfo>
    var filters: seq<Filter>
    var named: map<string, string>
    var unnamed: seq<string>
    var isParsed: bool

    function Contents(): Table
      reads this
    {
      Table(named, unnamed)
    }

    /** A fresh evaluator registers the default-value filter and then the
        required filter. */
    constructor(arguments: seq<string>)
      ensures this.arguments == arguments && infos == [] && filters == DefaultFilters
      ensures Contents() == EmptyTable && !isParsed
    {
      this.arguments := arguments;
      infos := [];
      filters := DefaultFilters;
      named := map[];
      unnamed := [];
      isParsed := false;
    }

    /** Filters given to the constructor follow the two default filters. */
    constructor WithFilters(arguments: seq<string>, definitions: seq<Filter>)
      ensures this.arguments == arguments && infos == [] && filters == DefaultFilters + definitions
      ensures Contents() == EmptyTable && !isParsed
    {
      this.arguments := arguments;
      infos := [];
      filters := DefaultFilters + definitions;
      named := map[];
      unnamed := [];
      isParsed := false;
    }

    method Add(info: ArgInfo)
      modifies this`infos
      ensures infos == old(infos) + [info]
    {
      infos := infos + [info];
    }

    method AddFilter(filter: Filter)
      modifies this`filters
      ensures filters == old(filters) + [filter]
    {
      filters := filters + [filter];
    }

    /** One hook of every filter, in registration order. */
    method RunHooks(phase: Phase)
      modifies this`named, this`unnamed
      ensures Contents() == RunOnTable(filters, phase, infos, old(Contents()))
    {
      for i := 0 to |filters|
        invariant Contents() == RunOnTable(filters[..i], phase, infos, old(Contents()))
      {
        assert filters[..i + 1][..i] == filters[..i];
        var t := ApplyToTable(filters[i], phase, infos, Contents());
        named, unnamed := t.named, t.unnamed;
      }
      assert filters[..|filters|] == filters;
    }

    /** The one parse: fails without touching anything when it has run
        before; otherwise marks the evaluator parsed, then runs the
        before-hooks, one step per token and the after-hooks. */
    method Parse() returns (r: Result<()>)
      modifies this`named, this`unnamed, this`isParsed
      ensures isParsed
      ensures old(isParsed) ==> r == Failure(AlreadyParsedMessage) && Contents() == old(Contents())
      ensures !old(isParsed) ==> r == Success(()) && Contents() == FlatParseAll(arguments, infos, filters, old(Contents()))
    {
      if isParsed {
        return Failure(AlreadyParsedMessage);
      }
      isParsed := true;
      RunHooks(BeforeParsing);
      ghost var t0 := Contents();
      for i := 0 to |arguments|
        invariant isParsed && Contents() == FlatScan(arguments[..i], t0)
      {
        var argument := arguments[i];
        assert arguments[..i + 1][..i] == arguments[..i];
        if argument == "" {
        } else if "--" <= argument {
          named := named[argument[2..] := FlagValue];
        } else if argument[0] == '-' {
          var pos := IndexOf(argument, '=');
          if pos == -1 {
            named := named[argument[1..] := FlagValue];
          } else {
            named := named[argument[1..pos] := argument[pos + 1..]];
          }
        } else {
          unnamed := unnamed + [argument];
        }
      }
      assert arguments[..|arguments|] == arguments;
      RunHooks(AfterParsing);
      return Success(());
    }

    /** Parses unless that has happened already: parsing happens at most
        once however often the values are read. */
    method ParseIfNotParsed()
      modifies this`named, this`unnamed, this`isParsed
      ensures isParsed
      ensures old(isParsed) ==> Contents() == old(Contents())
      ensures !old(isParsed) ==> Contents() == FlatParseAll(arguments, infos, filters, old(Contents()))
    {
      if !isParsed {
        var _ := Parse();
      }
    }

    method UnnamedArguments() returns (u: seq<string>)
      modifies this`named, this`unnamed, this`isParsed
      ensures isParsed && u == unnamed
      ensures old(isParsed) ==> Contents() == old(Contents())
      ensures !old(isParsed) ==> Contents() == FlatParseAll(arguments, infos, filters, old(Contents()))
    {
      ParseIfNotParsed();
      u := unnamed;
    }

    method NamedArguments() returns (m: map<string, string>)
      modifies this`named, this`unnamed, this`isParsed
      ensures isParsed && m == named
      ensures old(isParsed) ==> Contents() == old(Contents())
      ensures !old(isParsed) ==> Contents() == FlatParseAll(arguments, infos, filters, old(Contents()))
    {
      ParseIfNotParsed();
      m := named;
    }
  }
}
