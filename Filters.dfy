/** The filter pipeline: hooks run before and after the token pass, in
    registration order. Every engine registers the default-value filter and
    the required filter first.

    The bodies of the two default filters are not part of this model's
    source; their behaviour here (both act after the pass) is inferred from
    what the tests observe: a declared default fills an absent value and
    never replaces a supplied one, and a missing required positional value
    makes the high-level entry point yield no object. */
module Filters {
  import opened Arguments

  datatype Phase = BeforeParsing | AfterParsing

  /** A filter is a pair of hooks over the parser's accumulated state. */
  datatype Filter =
    | DefaultValueFilter
    | RequiredFilter
    | CustomFilter(beforeParsing: State -> State, afterParsing: State -> State)

  /** The filters every engine registers in its constructor, in this order. */
  const DefaultFilters: seq<Filter> := [DefaultValueFilter, RequiredFilter]

  function MissingNamedMessage(longName: string): string {
    "Missing required argument: " + longName
  }

  function MissingPositionalMessage(index: nat): string {
    "Missing required positional argument at index " + NatToString(index)
  }

  /** Sets every declared default whose long name has no value yet; an
      earlier declaration wins over a later one with the same long name. */
  function FillDefaults(infos: seq<ArgInfo>, st: State): (r: State)
    ensures r.unnamed == st.unnamed && r.errors == st.errors
    ensures st.named.Keys <= r.named.Keys
    ensures forall k :: k in st.named ==> r.named[k] == st.named[k]
    decreases |infos|
  {
    if infos == [] then st
    else
      var st1 :=
        match infos[0]
        case NamedInfo(longName, _, _, Some(v), _) =>
          if longName in st.named then st else st.(named := st.named[longName := v])
        case _ => st;
      FillDefaults(infos[1..], st1)
  }

  /** The error a required argument contributes: none when it is present. */
  function RequiredMessage(info: ArgInfo, st: State): seq<string> {
    match info
    case NamedInfo(longName, _, _, _, true) =>
      if longName in st.named then [] else [MissingNamedMessage(longName)]
    case UnnamedInfo(index, true) =>
      if index < |st.unnamed| then [] else [MissingPositionalMessage(index)]
    case _ => []
  }

  predicate Satisfied(info: ArgInfo, st: State) {
    RequiredMessage(info, st) == []
  }

  /** Appends one error per required argument that is absent, in the order
      of the registrations. */
  function CheckRequired(infos: seq<ArgInfo>, st: State): (r: State)
    ensures r.named == st.named && r.unnamed == st.unnamed
    ensures ErrorsExtend(st, r)
    decreases |infos|
  {
    if infos == [] then st
    else CheckRequired(infos[1..], st.(errors := st.errors + RequiredMessage(infos[0], st)))
  }

  /** Only the two built-in filters, no hooks of the caller's. */
  predicate BuiltIn(fs: seq<Filter>) {
    forall i :: 0 <= i < |fs| ==> !fs[i].CustomFilter?
  }

  /** One hook of one filter. The built-in filters do nothing before the
      pass; after it they only add: no error, no name and no positional
      value is lost, and no recorded value is replaced. */
  function Apply(f: Filter, phase: Phase, infos: seq<ArgInfo>, st: State): (r: State)
    ensures !f.CustomFilter? && phase == BeforeParsing ==> r == st
    ensures !f.CustomFilter? ==>
      r.unnamed == st.unnamed && ErrorsExtend(st, r) && st.named.Keys <= r.named.Keys
      && forall k :: k in st.named ==> r.named[k] == st.named[k]
  {
    match f
    case DefaultValueFilter => if phase == AfterParsing then FillDefaults(infos, st) else st
    case RequiredFilter => if phase == AfterParsing then CheckRequired(infos, st) else st
    case CustomFilter(before, after) => if phase == BeforeParsing then before(st) else after(st)
  }

  /** Runs one hook of every filter, fs[0] first. */
  function Run(fs: seq<Filter>, phase: Phase, infos: seq<ArgInfo>, st: State): State
    decreases |fs|
  {
    if fs == [] then st
    else Apply(fs[|fs| - 1], phase, infos, Run(fs[..|fs| - 1], phase, infos, st))
  }

  /** A list of built-in filters does nothing before the pass and only
      adds after it. */
  lemma {:induction false} RunBuiltIn(fs: seq<Filter>, phase: Phase, infos: seq<ArgInfo>, st: State)
    requires BuiltIn(fs)
    ensures phase == BeforeParsing ==> Run(fs, phase, infos, st) == st
    ensures var r := Run(fs, phase, infos, st);
      r.unnamed == st.unnamed && ErrorsExtend(st, r) && st.named.Keys <= r.named.Keys
    decreases |fs|
  {
    if fs != [] {
      assert BuiltIn(fs[..|fs| - 1]) && !fs[|fs| - 1].CustomFilter?;
      RunBuiltIn(fs[..|fs| - 1], phase, infos, st);
    }
  }

  /** A hook run on the legacy evaluator, which keeps no error list: the
      hook sees no errors and whatever it reports is lost. */
  function ApplyToTable(f: Filter, phase: Phase, infos: seq<ArgInfo>, t: Table): (r: Table)
    ensures !f.CustomFilter? && phase == BeforeParsing ==> r == t
    ensures !f.CustomFilter? ==>
      r.unnamed == t.unnamed && t.named.Keys <= r.named.Keys
      && forall k :: k in t.named ==> r.named[k] == t.named[k]
  {
    var r := Apply(f, phase, infos, State(t.named, t.unnamed, []));
    Table(r.named, r.unnamed)
  }

  /** Runs one hook of every filter on the legacy evaluator, fs[0] first. */
  function RunOnTable(fs: seq<Filter>, phase: Phase, infos: seq<ArgInfo>, t: Table): Table
    decreases |fs|
  {
    if fs == [] then t
    else ApplyToTable(fs[|fs| - 1], phase, infos, RunOnTable(fs[..|fs| - 1], phase, infos, t))
  }

  /** On the legacy evaluator too, built-in filters do nothing before the
      pass and only add after it. */
  lemma {:induction false} RunOnTableBuiltIn(fs: seq<Filter>, phase: Phase, infos: seq<ArgInfo>, t: Table)
    requires BuiltIn(fs)
    ensures phase == BeforeParsing ==> RunOnTable(fs, phase, infos, t) == t
    ensures var r := RunOnTable(fs, phase, infos, t);
      r.unnamed == t.unnamed && t.named.Keys <= r.named.Keys
    decreases |fs|
  {
    if fs != [] {
      assert BuiltIn(fs[..|fs| - 1]) && !fs[|fs| - 1].CustomFilter?;
      RunOnTableBuiltIn(fs[..|fs| - 1], phase, infos, t);
    }
  }

  /** Built-in filters never replace a recorded value. */
  lemma {:induction false} RunKeepsValues(fs: seq<Filter>, phase: Phase, infos: seq<ArgInfo>, st: State, k: string)
    requires BuiltIn(fs) && k in st.named
    ensures k in Run(fs, phase, infos, st).named && Run(fs, phase, infos, st).named[k] == st.named[k]
    decreases |fs|
  {
    if fs != [] {
      assert BuiltIn(fs[..|fs| - 1]) && !fs[|fs| - 1].CustomFilter?;
      RunKeepsValues(fs[..|fs| - 1], phase, infos, st, k);
    }
  }

  /** Built-in filters never replace a value recorded by the legacy pass. */
  lemma {:induction false} RunOnTableKeepsValues(fs: seq<Filter>, phase: Phase, infos: seq<ArgInfo>, t: Table, k: string)
    requires BuiltIn(fs) && k in t.named
    ensures k in RunOnTable(fs, phase, infos, t).named && RunOnTable(fs, phase, infos, t).named[k] == t.named[k]
    decreases |fs|
  {
    if fs != [] {
      assert BuiltIn(fs[..|fs| - 1]) && !fs[|fs| - 1].CustomFilter?;
      RunOnTableKeepsValues(fs[..|fs| - 1], phase, infos, t, k);
    }
  }

  /** Running a list of filters is running its first part, then its second:
      hooks run strictly in list order. */
  lemma {:induction false} RunConcat(fs1: seq<Filter>, fs2: seq<Filter>, phase: Phase,
                                     infos: seq<ArgInfo>, st: State)
    ensures Run(fs1 + fs2, phase, infos, st) == Run(fs2, phase, infos, Run(fs1, phase, infos, st))
    decreases |fs2|
  {
    if fs2 != [] {
      var fs2' := fs2[..|fs2| - 1];
      assert (fs1 + fs2)[..|fs1 + fs2| - 1] == fs1 + fs2';
      RunConcat(fs1, fs2', phase, infos, st);
    } else {
      assert fs1 + fs2 == fs1;
    }
  }

  /** The first registered filter's hook is the first to see the state. */
  lemma RunFirst(f: Filter, fs: seq<Filter>, phase: Phase, infos: seq<ArgInfo>, st: State)
    ensures Run([f] + fs, phase, infos, st) == Run(fs, phase, infos, Apply(f, phase, infos, st))
  {
    RunConcat([f], fs, phase, infos, st);
    assert [f][..0] == [];
  }

  lemma {:induction false} RunOnTableConcat(fs1: seq<Filter>, fs2: seq<Filter>, phase: Phase,
                                            infos: seq<ArgInfo>, t: Table)
    ensures RunOnTable(fs1 + fs2, phase, infos, t)
         == RunOnTable(fs2, phase, infos, RunOnTable(fs1, phase, infos, t))
    decreases |fs2|
  {
    if fs2 != [] {
      var fs2' := fs2[..|fs2| - 1];
      assert (fs1 + fs2)[..|fs1 + fs2| - 1] == fs1 + fs2';
      RunOnTableConcat(fs1, fs2', phase, infos, t);
    } else {
      assert fs1 + fs2 == fs1;
    }
  }

  /** The default pipeline does nothing before the pass; after it, it keeps
      every reported error and every recorded name, and leaves the
      positional values alone. */
  lemma DefaultPipelinePreserves(infos: seq<ArgInfo>, st: State)
    ensures Run(DefaultFilters, BeforeParsing, infos, st) == st
    ensures var r := Run(DefaultFilters, AfterParsing, infos, st);
      ErrorsExtend(st, r) && st.named.Keys <= r.named.Keys && r.unnamed == st.unnamed
  {
    DefaultBeforeIdentity(infos, st);
    assert DefaultFilters[..1] == [DefaultValueFilter];
    assert DefaultFilters[..1][..0] == [];
  }

  /** Neither default filter does anything before the pass. */
  lemma DefaultBeforeIdentity(infos: seq<ArgInfo>, st: State)
    ensures Run(DefaultFilters, BeforeParsing, infos, st) == st
  {
    assert DefaultFilters[..1] == [DefaultValueFilter];
    assert DefaultFilters[..1][..0] == [];
  }

  /** Declares neither a default nor a requirement. */
  predicate Plain(info: ArgInfo) {
    match info
    case NamedInfo(_, _, _, defaultValue, isRequired) => defaultValue.None? && !isRequired
    case UnnamedInfo(_, isRequired) => !isRequired
  }

  /** When no registration declares a default or a requirement, the default
      pipeline leaves the state as the pass left it. */
  lemma PlainPipelineIdentity(infos: seq<ArgInfo>, st: State)
    requires forall i :: 0 <= i < |infos| ==> Plain(infos[i])
    ensures Run(DefaultFilters, AfterParsing, infos, st) == st
  {
    PlainFillDefaults(infos, st);
    PlainCheckRequired(infos, st);
    assert DefaultFilters[..1] == [DefaultValueFilter];
    assert DefaultFilters[..1][..0] == [];
  }

  lemma {:induction false} PlainFillDefaults(infos: seq<ArgInfo>, st: State)
    requires forall i :: 0 <= i < |infos| ==> Plain(infos[i])
    ensures FillDefaults(infos, st) == st
    decreases |infos|
  {
    if infos != [] {
      assert Plain(infos[0]);
      PlainFillDefaults(infos[1..], st);
    }
  }

  /** Without a required registration the required filter does nothing. */
  lemma {:induction false} PlainCheckRequired(infos: seq<ArgInfo>, st: State)
    requires forall i :: 0 <= i < |infos| ==> !infos[i].isRequired
    ensures CheckRequired(infos, st) == st
    decreases |infos|
  {
    if infos != [] {
      assert !infos[0].isRequired;
      assert st.errors + RequiredMessage(infos[0], st) == st.errors;
      PlainCheckRequired(infos[1..], st);
    }
  }

  /** After the pass the default filters fill the defaults, then check the
      requirements against the filled state. */
  lemma DefaultAfter(infos: seq<ArgInfo>, st: State)
    ensures Run(DefaultFilters, AfterParsing, infos, st) == CheckRequired(infos, FillDefaults(infos, st))
  {
    assert DefaultFilters[..1] == [DefaultValueFilter];
    assert DefaultFilters[..1][..0] == [];
  }

  /** A declared default is always present after the default-value filter;
      when the name had no value and no earlier registration declares a
      default for it, the value is this declaration's default. */
  lemma {:induction false} DefaultFillsAbsent(infos: seq<ArgInfo>, st: State, i: nat)
    requires i < |infos| && infos[i].NamedInfo? && infos[i].defaultValue.Some?
    ensures infos[i].longName in FillDefaults(infos, st).named
    ensures infos[i].longName !in st.named
         && (forall j :: 0 <= j < i && infos[j].NamedInfo? && infos[j].defaultValue.Some?
               ==> infos[j].longName != infos[i].longName)
        ==> FillDefaults(infos, st).named[infos[i].longName] == infos[i].defaultValue.value
    decreases i
  {
    var st1 :=
      match infos[0]
      case NamedInfo(longName, _, _, Some(v), _) =>
        if longName in st.named then st else st.(named := st.named[longName := v])
      case _ => st;
    assert FillDefaults(infos, st) == FillDefaults(infos[1..], st1);
    if i > 0 {
      DefaultFillsAbsent(infos[1..], st1, i - 1);
      assert infos[1..][i - 1] == infos[i];
      if infos[i].longName !in st.named
         && (forall j :: 0 <= j < i && infos[j].NamedInfo? && infos[j].defaultValue.Some?
               ==> infos[j].longName != infos[i].longName) {
        assert infos[i].longName !in st1.named;
        forall j | 0 <= j < i - 1 && infos[1..][j].NamedInfo? && infos[1..][j].defaultValue.Some?
          ensures infos[1..][j].longName != infos[1..][i - 1].longName
        {
          assert infos[1..][j] == infos[j + 1];
        }
      }
    }
  }

  /** The required filter reports nothing exactly when every required
      argument is present. */
  lemma {:induction false} RequiredSilentIff(infos: seq<ArgInfo>, st: State)
    ensures CheckRequired(infos, st).errors == st.errors
        <==> forall i :: 0 <= i < |infos| ==> Satisfied(infos[i], st)
    decreases |infos|
  {
    if infos != [] {
      var st1 := st.(errors := st.errors + RequiredMessage(infos[0], st));
      RequiredSilentIff(infos[1..], st1);
      var r := CheckRequired(infos[1..], st1);
      assert |r.errors| >= |st1.errors|;
      if Satisfied(infos[0], st) {
        assert st1 == st;
        forall i | 0 <= i < |infos[1..]| ensures Satisfied(infos[1..][i], st) <==> Satisfied(infos[i + 1], st) {
        }
      } else {
        assert |st1.errors| > |st.errors|;
      }
    }
  }

  /** A required argument that is absent is reported by its message. */
  lemma {:induction false} MissingRequiredReported(infos: seq<ArgInfo>, st: State, i: nat)
    requires i < |infos| && !Satisfied(infos[i], st)
    ensures RequiredMessage(infos[i], st)[0] in CheckRequired(infos, st).errors
    decreases i
  {
    var st1 := st.(errors := st.errors + RequiredMessage(infos[0], st));
    var r := CheckRequired(infos[1..], st1);
    if i == 0 {
      assert st1.errors[|st.errors|] == RequiredMessage(infos[0], st)[0];
      assert r.errors[..|st1.errors|] == st1.errors;
      assert r.errors[|st.errors|] == RequiredMessage(infos[0], st)[0];
    } else {
      assert infos[1..][i - 1] == infos[i];
      assert RequiredMessage(infos[i], st1) == RequiredMessage(infos[i], st);
      MissingRequiredReported(infos[1..], st1, i - 1);
    }
  }
}
