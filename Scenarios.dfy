/** Concrete runs taken from the repository's tests. The registrations are
    the ones the reflection binder makes for the tests' target types: a
    string property takes a value, a boolean property is a flag, and the
    attributes supply short names, defaults and positional indices. */
module Scenarios {
  import opened Arguments
  import opened Filters
  import opened ParserSpec
  import opened ParserProperties
  import opened EvaluatorSpec

  /** Input, Output, Verbose, FullDetail without attributes. */
  const PlainInfos: seq<ArgInfo> := [
    NamedInfo("Input", None, true, None, false),
    NamedInfo("Output", None, true, None, false),
    NamedInfo("Verbose", None, false, None, false),
    NamedInfo("FullDetail", None, false, None, false)
  ]

  /** The same properties, with short names v and f for the two flags. */
  const ShortNameInfos: seq<ArgInfo> := [
    NamedInfo("Input", None, true, None, false),
    NamedInfo("Output", None, true, None, false),
    NamedInfo("Verbose", Some('v'), false, None, false),
    NamedInfo("FullDetail", Some('f'), false, None, false)
  ]

  /** Output defaults to no.txt and Verbose to 1; only FullDetail has a short
      name. */
  const DefaultValueInfos: seq<ArgInfo> := [
    NamedInfo("Input", None, true, None, false),
    NamedInfo("Output", None, true, Some("no.txt"), false),
    NamedInfo("Verbose", None, false, Some("1"), false),
    NamedInfo("FullDetail", Some('f'), false, None, false)
  ]

  /** A required positional Input at 0, an optional one at 1, flags v and f. */
  const PositionalInfos: seq<ArgInfo> := [
    UnnamedInfo(0, true),
    UnnamedInfo(1, false),
    NamedInfo("Verbose", Some('v'), false, None, false),
    NamedInfo("FullDetail", Some('f'), false, None, false)
  ]

  /** The lookup ignores case: input finds Input. */
  lemma InputFound()
    ensures FindLong(PlainInfos, "input") == Some(0)
  {
    assert SameName("Input", "input");
  }

  /** --input followed by a value binds the declared property Input to that
      value, and the value token is not classified itself. */
  lemma LowerCaseInputBinds(args: seq<string>, n: nat, st: State)
    requires n + 1 < |args| && args[n] == "--input"
    ensures Scan(args, PlainInfos, n, st) == Scan(args, PlainInfos, n + 2, st.(named := st.named["Input" := args[n + 1]]))
  {
    InputFound();
    LongValueConsumed(args, PlainInfos, n, "input", st);
  }

  /** -vf with short names for both flags sets both, whatever came before. */
  lemma ShortFlagsBundle(args: seq<string>, st: State)
    requires |args| == 5 && args[4] == "-vf"
    ensures Scan(args, ShortNameInfos, 4, st)
         == st.(named := st.named["Verbose" := FlagValue]["FullDetail" := FlagValue])
  {
    var rest := "vf";
    assert args[4][1..] == rest;
    assert FindShort(ShortNameInfos, 'v') == Some(2);
    assert FindShort(ShortNameInfos, 'f') == Some(3);
    FlagCharStep(args, ShortNameInfos, 4, rest, 0, st);
    FlagCharStep(args, ShortNameInfos, 4, rest, 1, st.(named := st.named["Verbose" := FlagValue]));
  }

  /** -vf where only f is declared: the unknown v records the whole bundle
      as a name, and f still sets its flag. */
  lemma UnknownShortRecordsBundle(args: seq<string>, input: string)
    requires args == ["--Input", input, "-vf"]
    ensures Scan(args, DefaultValueInfos, 0, EmptyState)
         == State(map["Input" := input, "vf" := FlagValue, "FullDetail" := FlagValue], [], [])
  {
    var st1 := State(map["Input" := input], [], []);
    assert FindLong(DefaultValueInfos, "Input") == Some(0);
    LongValueConsumed(args, DefaultValueInfos, 0, "Input", EmptyState);
    UnknownShortStep(args, st1);
  }

  lemma UnknownShortStep(args: seq<string>, st1: State)
    requires |args| == 3 && args[2] == "-vf"
    ensures Scan(args, DefaultValueInfos, 2, st1)
         == st1.(named := st1.named["vf" := FlagValue]["FullDetail" := FlagValue])
  {
    var rest := "vf";
    assert args[2][1..] == rest;
    assert FindShort(DefaultValueInfos, 'v') == None;
    assert FindShort(DefaultValueInfos, 'f') == Some(3);
    FlagCharStep(args, DefaultValueInfos, 2, rest, 0, st1);
    FlagCharStep(args, DefaultValueInfos, 2, rest, 1, st1.(named := st1.named["vf" := FlagValue]));
  }

  /** A lone flag without the required first positional value: usage is
      due, so the high-level entry point yields no object. */
  lemma MissingInputShowsUsage(args: seq<string>)
    requires args == ["-f"]
    ensures ShowsUsage(ParseAll(args, PositionalInfos, DefaultFilters, EmptyState))
  {
    assert !IsPositional(args[0]);
    assert Scan(args, PositionalInfos, 0, EmptyState).unnamed == [];
    RequiredPositionalMissing(args, PositionalInfos, EmptyState, 0);
  }

  /** The legacy evaluator never looks at registrations: an option followed
      by its value records the flag value, and the value stays positional. */
  lemma FlatIgnoresValues(args: seq<string>, input: string, output: string)
    requires args == ["--input", input, "--output", output]
    requires IsPositional(input) && IsPositional(output)
    ensures FlatScan(args, EmptyTable) == Table(map["input" := FlagValue, "output" := FlagValue], [input, output])
  {
    LongDashNoSplit("input");
    LongDashNoSplit("output");
    assert "--" + "input" == "--input";
    assert "--" + "output" == "--output";
    var t1 := Table(map["input" := FlagValue], []);
    var t2 := Table(map["input" := FlagValue], [input]);
    var t3 := Table(map["input" := FlagValue, "output" := FlagValue], [input]);
    assert args[..1][..0] == [];
    assert FlatStep(args[0], EmptyTable) == t1;
    assert FlatScan(args[..1], EmptyTable) == t1;
    assert args[..2][..1] == args[..1];
    assert FlatStep(args[1], t1) == t2;
    assert FlatScan(args[..2], EmptyTable) == t2;
    assert args[..3][..2] == args[..2];
    assert FlatStep(args[2], t2) == t3;
    assert FlatScan(args[..3], EmptyTable) == t3;
    assert FlatStep(args[3], t3) == Table(t3.named, [input, output]);
  }
}
