# BurnSystems.CommandLine token classifiers in Dafny

A verified model of the two command-line classifiers of BurnSystems.CommandLine.
Each is a one-pass loop over an argument vector that fills a dictionary of named
values, a list of positional values and, in the main engine, a list of error
messages.

- **`Parser`** is the main engine. Its constructor registers the default-value filter and the
  required filter. Parsing happens once: a second parse fails.
  - The named and positional accessors parse lazily.
  - Before-hooks and after-hooks of all filters run around the token pass, in registration order.
  - Empty tokens are skipped, `--name` is looked up by long name ignoring case, `-chars` is a
    bundle of short options, and anything else is positional.
  - A value-taking option moves the cursor onto the next token and records that token as its
    value, whatever it looks like. When no token is left, the error
    `Value missing for parameter: <name>` is reported.
  - Flags record the value `"1"`.
  - Inside a bundle, an unknown character records the whole bundle as a name. A value-taking
    character in a bundle longer than one character reports
    `Shortname <c> has a value and is used with other options` and still takes the next token.
  - Usage is due when errors were reported or `help`, `h` or `?` was given. The high-level entry
    point then yields no object.
- **`CommandLineEvaluator`** is the legacy classifier. It has the same life cycle, but its pass
  looks at one token at a time and never at the registrations, and it keeps no error list.
  - `--x` records `x = "1"`, with no splitting at `=`.
  - `-name=value` splits at the first `=`.
  - `-name` records `name = "1"`.

Layout:

- `Arguments.dfy`: registrations (`ArgInfo`), the accumulated state, and the string helpers the
  passes use (ASCII lower-casing, `IndexOf`).
- `Filters.dfy`: the filter pipeline and the two default filters.
- `ParserSpec.dfy`: the main engine's pass as functions: name lookup (`FindLong`, `FindShort`),
  one named option (`AddValue`), one bundle (`BundleChar`, `Bundle`), one token (`Step`), the whole
  pass (`Scan`, `Visits`) and the parse with hooks (`ParseAll`).
- `ParserEngine.dfy`: class `Parser`. Every method is proved to leave its fields exactly as the
  corresponding `ParserSpec` function says.
- `ParserProperties.dfy`: what the main pass promises, proved over `ParserSpec`.
- `EvaluatorSpec.dfy`: the legacy pass as functions (`FlatEntry`, `FlatScan`) and its properties.
- `LegacyEvaluator.dfy`: class `CommandLineEvaluator`, proved against `EvaluatorSpec`.
- `Scenarios.dfy`: runs taken from the repository's tests, stated as lemmas over the model.

Notes on what the code does, which the model follows:

- A value-taking `--name` with no token left does advance the cursor to the end of the vector.
  The loop ends there.
- The messages are spelled `Value missing for parameter: ` and `Shortname <c> has a value ...`,
  as in the code.
- Distinct long and short names are not enforced by the code. Registrations with clashing names
  are modelled as the code treats them: first match wins. Only the lemmas that need distinct
  names require `WellFormed`.
- The documentation comment of `ShowUsageIfNecessary` says it returns true when no usage was
  shown. The code returns true when usage is due, and `ParseOrShowUsage` negates it. The model
  follows the code.

## Model

| member | source | states |
|---|---|---|
| Arguments.ToLower | src/BurnSystems.CommandLine/Parser.cs:367 | the lowered name has the same length as the name and each character is lowered in place |
| Arguments.IndexOf | src/BurnSystems.CommandLine/CommandLineEvaluator.cs:142 | the result is -1 exactly when the character is absent, and otherwise is the position of its first occurrence |
| ParserSpec.NamedInfos | src/BurnSystems.CommandLine/Parser.cs:81-89 | the named registrations are exactly the registrations that describe named options, and there are no more of them than registrations |
| ParserSpec.NamedInfosConcat | src/BurnSystems.CommandLine/Parser.cs:85-87 | the named registrations of a concatenation are those of its first part followed by those of its second, so the selection is an order-preserving filter |
| ParserSpec.FindLong | src/BurnSystems.CommandLine/Parser.cs:366-367 | the lookup finds the first named registration whose long name equals the name ignoring case, or reports that none matches |
| ParserSpec.FindShort | src/BurnSystems.CommandLine/Parser.cs:331 | the lookup finds the first named registration with that short character, or reports that none has it |
| ParserSpec.FirstLongMatch | src/BurnSystems.CommandLine/Parser.cs:366-367 | the first named registration whose long name equals the name ignoring case, taken from the named registrations themselves; absent exactly when none matches |
| ParserSpec.FirstShortMatch | src/BurnSystems.CommandLine/Parser.cs:331 | the first named registration with that short character, taken from the named registrations themselves; absent exactly when none has it |
| ParserSpec.FindLongIsFirstNamed | src/BurnSystems.CommandLine/Parser.cs:366-367 | the index lookup by long name agrees with taking the first match among the named registrations, both when one exists and when none does |
| ParserSpec.FindShortIsFirstNamed | src/BurnSystems.CommandLine/Parser.cs:331 | the index lookup by short character agrees with taking the first match among the named registrations, both when one exists and when none does |
| ParserSpec.AddValue | src/BurnSystems.CommandLine/Parser.cs:363-390 | a named option moves the cursor by at most one, never touches the positional list and only appends errors |
| ParserSpec.BundleChar | src/BurnSystems.CommandLine/Parser.cs:330-351 | one bundle character moves the cursor by at most one, never touches the positional list and only appends errors |
| ParserSpec.Bundle | src/BurnSystems.CommandLine/Parser.cs:328-352 | a bundle never moves the cursor back, never touches the positional list and only appends errors |
| ParserSpec.Step | src/BurnSystems.CommandLine/Parser.cs:287-311 | one token never moves the cursor back, appends itself to the positional list exactly when it is positional, and only appends errors |
| ParserSpec.Scan | src/BurnSystems.CommandLine/Parser.cs:285-312 | the pass keeps every error reported before it, in place |
| ParserSpec.ParseAllBuiltIn | src/BurnSystems.CommandLine/Parser.cs:277-317 | with built-in filters only, a parse keeps the pass's positional list, every error it reported, in place, every name it recorded and every value it recorded |
| ParserSpec.HasHelpKey | src/BurnSystems.CommandLine/Parser.cs:239-241 | a help request is present exactly when `help`, `h` or `?` is among the named keys |
| ParserSpec.ShowsUsage | src/BurnSystems.CommandLine/Parser.cs:233-247 | usage is due exactly when errors were reported or a help key is present |
| ParserSpec.Visits | src/BurnSystems.CommandLine/Parser.cs:285-287 | the positions the pass classifies start at the cursor, lie inside the vector and strictly increase, so each index is classified at most once and the pass ends |
| ParserProperties.LookupFindsDeclared | src/BurnSystems.CommandLine/Parser.cs:331 | with distinct names, looking a registration up by its own long name or its own short name finds that registration |
| ParserProperties.EmptyTokenSkipped | src/BurnSystems.CommandLine/Parser.cs:288-292 | an empty token leaves the state unchanged and the pass moves to the next token |
| ParserProperties.ScanPositionals | src/BurnSystems.CommandLine/Parser.cs:307-311 | the positional list grows by exactly the positional tokens at the classified positions, in encounter order |
| ParserProperties.LongFlagRecorded | src/BurnSystems.CommandLine/Parser.cs:369-376 | `--name` for a flag records `"1"` under the declared spelling, and for an undeclared name under the typed spelling; no token is consumed |
| ParserProperties.LongValueConsumed | src/BurnSystems.CommandLine/Parser.cs:377-388 | `--name` for a value-taking option records the next token verbatim under the declared spelling and resumes after it, so that token is never classified |
| ParserProperties.LongValueMissing | src/BurnSystems.CommandLine/Parser.cs:379-384 | a value-taking `--name` as the last token appends exactly one `Value missing` error naming it as typed, records nothing, and ends the pass |
| ParserProperties.BundleFlagsOnly | src/BurnSystems.CommandLine/Parser.cs:328-341 | a bundle of flags and unknown characters records `"1"` under each character's key (declared long name, or the whole bundle when unknown), keeps every other value, consumes nothing and reports nothing |
| ParserProperties.FlagCharStep | src/BurnSystems.CommandLine/Parser.cs:331-341 | a bundle character that takes no value records `"1"` under its key and leaves the cursor |
| ParserProperties.ValueCharStep | src/BurnSystems.CommandLine/Parser.cs:342-350 | a value-taking bundle character reports the bundling error when the bundle is longer than one character, then takes the next token as the value of its long name |
| ParserProperties.BundleTakesValues | src/BurnSystems.CommandLine/Parser.cs:342-350 | with tokens left, each value-taking character consumes exactly one token, and a bundle longer than one character reports one bundling error per value-taking character, in order, and nothing else |
| ParserProperties.LongBundleTakesValues | src/BurnSystems.CommandLine/Parser.cs:345-350 | the same cursor and error count for a bundle longer than one character, from any character on |
| ParserProperties.LongBundleValueChar | src/BurnSystems.CommandLine/Parser.cs:345-350 | the same, from a value-taking character of a bundle longer than one character |
| ParserProperties.BundleValueNext | src/BurnSystems.CommandLine/Parser.cs:345-350 | a value-taking character of a bundle longer than one character appends exactly its bundling error and moves the cursor by one |
| ParserProperties.BundledValueOneError | src/BurnSystems.CommandLine/Parser.cs:345-350 | a bundle with one value-taking character among others appends exactly one bundling error and still consumes the next token |
| ParserProperties.BundleCursor | src/BurnSystems.CommandLine/Parser.cs:328-352 | with distinct names, a bundle moves the cursor by exactly one per value-taking character, whether or not tokens are left |
| ParserProperties.ValueCharAtEnd | src/BurnSystems.CommandLine/Parser.cs:342-350 | a value-taking bundle character with no token left reports the bundling error when the bundle is longer than one character, then `Value missing` for its long name, records nothing, and moves the cursor past the end |
| ParserProperties.OneValueCharAtEnd | src/BurnSystems.CommandLine/Parser.cs:328-352 | a bundle with one value-taking character among others and no token left ends past the end of the vector and reports exactly its bundling error and then `Value missing` for its long name |
| ParserProperties.BundledValueAtEnd | src/BurnSystems.CommandLine/Parser.cs:285-312 | such a bundle as the last token ends the pass with exactly those two errors appended |
| ParserProperties.PlainParseIsScan | src/BurnSystems.CommandLine/Parser.cs:279-317 | without declared defaults or requirements, parsing with the default filters yields exactly the pass |
| ParserProperties.RequiredPositionalMissing | src/BurnSystems.CommandLine.Test/ByReflectionTests.cs:129-131 | a required positional index the pass did not reach is reported after parsing, so usage is due |
| ParserProperties.PassUsageSurvivesDefaults | src/BurnSystems.CommandLine/Parser.cs:231-248 | when the pass alone makes usage due, it is still due after the default filters |
| Filters.FillDefaults | src/BurnSystems.CommandLine.Test/ByReflectionTests.cs:83-99 | the default-value filter changes neither positionals nor errors, only adds names and never replaces a value already present |
| Filters.CheckRequired | src/BurnSystems.CommandLine.Test/ByReflectionTests.cs:129-131 | the required filter changes neither names nor positionals and only appends errors |
| Filters.Apply | src/BurnSystems.CommandLine/Parser.cs:281 | a built-in filter's hook does nothing before the pass; after it the hook keeps the positional list, every error, in place, and every recorded name with its value |
| Filters.RunBuiltIn | src/BurnSystems.CommandLine/Parser.cs:279-282 | a list of built-in filters does nothing before the pass and after it keeps the positional list, every error, in place, and every recorded name |
| Filters.RunKeepsValues | src/BurnSystems.CommandLine/Parser.cs:314-317 | the hooks of a list of built-in filters never replace a recorded value |
| Filters.ApplyToTable | src/BurnSystems.CommandLine/CommandLineEvaluator.cs:121-124 | on the legacy evaluator, a built-in filter's hook does nothing before the pass; after it the hook keeps the positional list and every recorded name with its value |
| Filters.RunOnTableBuiltIn | src/BurnSystems.CommandLine/CommandLineEvaluator.cs:161-164 | on the legacy evaluator, a list of built-in filters does nothing before the pass and after it keeps the positional list and every recorded name |
| Filters.RunOnTableKeepsValues | src/BurnSystems.CommandLine/CommandLineEvaluator.cs:161-164 | on the legacy evaluator, the hooks of a list of built-in filters never replace a recorded value |
| Filters.RunConcat | src/BurnSystems.CommandLine/Parser.cs:279-282 | running a concatenated filter list runs the first part's hooks, then the second part's |
| Filters.RunFirst | src/BurnSystems.CommandLine/Parser.cs:314-317 | the first registered filter's hook is the first to see the state |
| Filters.RunOnTableConcat | src/BurnSystems.CommandLine/CommandLineEvaluator.cs:121-124 | on the legacy evaluator too, a concatenated filter list runs part by part, in order |
| Filters.DefaultPipelinePreserves | src/BurnSystems.CommandLine/Parser.cs:177-178 | the default filters do nothing before the pass, and after it keep every error, every name and the positional list |
| Filters.DefaultBeforeIdentity | src/BurnSystems.CommandLine/Parser.cs:279-282 | the default filters' before-hooks leave the state unchanged |
| Filters.DefaultAfter | src/BurnSystems.CommandLine/Parser.cs:314-317 | the default after-hooks fill defaults first and then check requirements against the filled state |
| Filters.PlainPipelineIdentity | src/BurnSystems.CommandLine/Parser.cs:314-317 | without declared defaults or requirements, the default after-hooks leave the state unchanged |
| Filters.PlainFillDefaults | src/BurnSystems.CommandLine.Test/ByReflectionTests.cs:17-24 | without declared defaults, the default-value filter leaves the state unchanged |
| Filters.PlainCheckRequired | src/BurnSystems.CommandLine.Test/ByReflectionTests.cs:17-24 | without required registrations, the required filter leaves the state unchanged |
| Filters.DefaultFillsAbsent | src/BurnSystems.CommandLine.Test/ByReflectionTests.cs:90 | a declared default is always present afterwards, and it is the value of a name that had none |
| Filters.RequiredSilentIff | src/BurnSystems.CommandLine.Test/ByReflectionTests.cs:113-131 | the required filter reports nothing exactly when every required argument is present |
| Filters.MissingRequiredReported | src/BurnSystems.CommandLine.Test/ByReflectionTests.cs:129-131 | an absent required argument is reported by its message |
| ParserEngine.Parser.constructor | src/BurnSystems.CommandLine/Parser.cs:168-179 | a new engine holds the vector, no registrations, the two default filters in order, empty state, and is not parsed |
| ParserEngine.Parser.WithFilters | src/BurnSystems.CommandLine/Parser.cs:186-193 | given filters follow the two default filters; an absent list adds nothing |
| ParserEngine.Parser.AddArgumentInfo | src/BurnSystems.CommandLine/Parser.cs:199-202 | the registration is appended and nothing else changes |
| ParserEngine.Parser.AddFilter | src/BurnSystems.CommandLine/Parser.cs:209-212 | the filter is appended after every filter registered before it |
| ParserEngine.Parser.AddError | src/BurnSystems.CommandLine/Parser.cs:396-399 | the error is appended; errors are never removed |
| ParserEngine.Parser.RunHook | src/BurnSystems.CommandLine/Parser.cs:281 | one hook maps the engine's state as the filter says |
| ParserEngine.Parser.RunHooks | src/BurnSystems.CommandLine/Parser.cs:279-282 | every filter's hook runs once, in registration order |
| ParserEngine.Parser.Parse | src/BurnSystems.CommandLine/Parser.cs:270-318 | a second parse fails with `The arguments have been parsed already` and changes nothing; the first marks the engine parsed and leaves the state `ParseAll` describes |
| ParserEngine.Parser.ClassifyToken | src/BurnSystems.CommandLine/Parser.cs:287-311 | one token moves the cursor and changes the state as `Step` describes |
| ParserEngine.Parser.ParseSingleDashOption | src/BurnSystems.CommandLine/Parser.cs:326-355 | the bundle loop, with writes through the lazy accessor, ends in the cursor and state `Bundle` describes |
| ParserEngine.Parser.ParseBundleChar | src/BurnSystems.CommandLine/Parser.cs:330-351 | one pass of the bundle loop moves the cursor and changes the state as `BundleChar` describes, and the engine stays parsed |
| ParserEngine.Parser.AddValueToNamedArgument | src/BurnSystems.CommandLine/Parser.cs:363-390 | a named option moves the cursor and changes the state as `AddValue` describes |
| ParserEngine.Parser.NamedArguments | src/BurnSystems.CommandLine/Parser.cs:123-134 | reading the named values parses exactly when that has not happened yet, and otherwise changes nothing |
| ParserEngine.Parser.UnnamedArguments | src/BurnSystems.CommandLine/Parser.cs:107-118 | reading the positional values parses exactly when that has not happened yet, and otherwise changes nothing |
| ParserEngine.Parser.ShowUsageIfNecessary | src/BurnSystems.CommandLine/Parser.cs:231-248 | usage is due exactly when errors exist or a help key is present; the errors are checked before the lazy read |
| ParserEngine.Parser.ParseOrShowUsage | src/BurnSystems.CommandLine/Parser.cs:219-224 | the engine is parsed afterwards; after a first parse, the answer is true exactly when usage is not due; a second parse fails and changes nothing |
| ParserEngine.Parser.ParseIntoOrShowUsage | src/BurnSystems.CommandLine/Parser.cs:144-162 | the result is absent exactly when usage is due after parsing, or when filling reports errors; otherwise it is the filled object |
| ParserEngine.Parser.PrepareParser | src/BurnSystems.CommandLine/Parser.cs:146-147 | the prepared engine is fresh, holds the vector and the registrations in order, and is not parsed |
| EvaluatorSpec.FlatEntry | src/BurnSystems.CommandLine/CommandLineEvaluator.cs:129-154 | a token writes a named entry exactly when it is non-empty and starts with a dash |
| EvaluatorSpec.FlatStep | src/BurnSystems.CommandLine/CommandLineEvaluator.cs:129-158 | an empty token changes nothing; a named token adds exactly its name with its value, keeps every other name's value and leaves the positional list alone; any other token is appended to the positional list and leaves the names alone |
| EvaluatorSpec.FlatParseAllBuiltIn | src/BurnSystems.CommandLine/CommandLineEvaluator.cs:119-164 | with built-in filters only, a parse leaves the positional tokens in order, and every name a token writes is present |
| EvaluatorSpec.FlatParseAllLastWrite | src/BurnSystems.CommandLine/CommandLineEvaluator.cs:134-164 | with built-in filters only, a name ends a parse with the value of the last token that writes it |
| EvaluatorSpec.Positionals | src/BurnSystems.CommandLine/CommandLineEvaluator.cs:155-158 | the positional tokens are exactly the tokens that are non-empty and do not start with a dash |
| EvaluatorSpec.FlatScanAppend | src/BurnSystems.CommandLine/CommandLineEvaluator.cs:127-159 | there is no lookahead: the pass over a + b is the pass over b from where the pass over a stopped |
| EvaluatorSpec.FlatPositionals | src/BurnSystems.CommandLine/CommandLineEvaluator.cs:155-158 | the positional list grows by exactly the positional tokens, in order |
| EvaluatorSpec.FlatNamedKeys | src/BurnSystems.CommandLine/CommandLineEvaluator.cs:134-154 | a name is present afterwards exactly when it was before or some token writes it; a name no token writes keeps its value |
| EvaluatorSpec.FlatLastWriteWins | src/BurnSystems.CommandLine/CommandLineEvaluator.cs:134-154 | a name ends with the value of the last token that writes it |
| EvaluatorSpec.SingleDashSplit | src/BurnSystems.CommandLine/CommandLineEvaluator.cs:142-151 | `-name=value` splits at the first `=`: the name has no `=`, and name and value joined by `=` give the token back |
| EvaluatorSpec.SingleDashFlag | src/BurnSystems.CommandLine/CommandLineEvaluator.cs:143-146 | `-name` without `=` records `name = "1"` |
| EvaluatorSpec.LongDashNoSplit | src/BurnSystems.CommandLine/CommandLineEvaluator.cs:134-139 | `--x` records `x = "1"` even when x holds `=` |
| LegacyEvaluator.CommandLineEvaluator.constructor | src/BurnSystems.CommandLine/CommandLineEvaluator.cs:59-68 | a new evaluator holds the vector, no registrations, the two default filters in order, empty values, and is not parsed |
| LegacyEvaluator.CommandLineEvaluator.WithFilters | src/BurnSystems.CommandLine/CommandLineEvaluator.cs:75-79 | given filters follow the two default filters |
| LegacyEvaluator.CommandLineEvaluator.Add | src/BurnSystems.CommandLine/CommandLineEvaluator.cs:85-88 | the registration is appended |
| LegacyEvaluator.CommandLineEvaluator.AddFilter | src/BurnSystems.CommandLine/CommandLineEvaluator.cs:95-98 | the filter is appended |
| LegacyEvaluator.CommandLineEvaluator.RunHooks | src/BurnSystems.CommandLine/CommandLineEvaluator.cs:121-124 | every filter's hook runs once, in registration order |
| LegacyEvaluator.CommandLineEvaluator.Parse | src/BurnSystems.CommandLine/CommandLineEvaluator.cs:112-165 | a second parse fails and changes nothing; the first marks the evaluator parsed and leaves the values `FlatParseAll` describes |
| LegacyEvaluator.CommandLineEvaluator.ParseIfNotParsed | src/BurnSystems.CommandLine/CommandLineEvaluator.cs:100-106 | parsing happens at most once: afterwards the evaluator is parsed, and an already parsed one is unchanged |
| LegacyEvaluator.CommandLineEvaluator.UnnamedArguments | src/BurnSystems.CommandLine/CommandLineEvaluator.cs:170-177 | reading the positional values parses at most once |
| LegacyEvaluator.CommandLineEvaluator.NamedArguments | src/BurnSystems.CommandLine/CommandLineEvaluator.cs:182-189 | reading the named values parses at most once |
| Scenarios.InputFound | src/BurnSystems.CommandLine.Test/ByReflectionTests.cs:39-45 | `input` finds the registration `Input` |
| Scenarios.LowerCaseInputBinds | src/BurnSystems.CommandLine.Test/ByReflectionTests.cs:39-45 | `--input value` binds `Input` to the value and skips the value token |
| Scenarios.ShortFlagsBundle | src/BurnSystems.CommandLine.Test/ByReflectionTests.cs:61-67 | `-vf` with short names v and f sets both flags |
| Scenarios.UnknownShortRecordsBundle | src/BurnSystems.CommandLine.Test/ByReflectionTests.cs:83-89 | `--Input x -vf` where only f is declared records `Input`, the name `vf` and `FullDetail` |
| Scenarios.UnknownShortStep | src/BurnSystems.CommandLine.Test/ByReflectionTests.cs:83-89 | `-vf` where only f is declared records `vf` and `FullDetail` |
| Scenarios.MissingInputShowsUsage | src/BurnSystems.CommandLine.Test/ByReflectionTests.cs:129-131 | `-f` alone, without the required first positional value, makes usage due |
| Scenarios.FlatIgnoresValues | src/BurnSystems.CommandLine/CommandLineEvaluator.cs:127-159 | the legacy pass over `--input a --output b` records both options as flags and keeps both values as positionals |

## Left out

- Usage output: the console output of the usage writer is not modelled. Only the boolean
  decision of `ShowUsageIfNecessary` is modelled.
- Reflection binding: building the registrations from a type's attributes is not part of this
  model, and neither is filling an object. `ParseIntoOrShowUsage` takes the registrations and a
  fill function as parameters; the fill function returns the object and the errors it reports.
  `PrepareParser` stands in for the binder's preparation.
- Default filter bodies: the bodies of `DefaultValueFilter` and `RequiredFilter` are not part of
  this model. Their behaviour is inferred from what the tests observe: defaults fill only absent
  names after the pass, and absent required arguments are reported after the pass. Their message
  texts are inferred too.
- Filters: a filter is a pair of pure functions on the engine's state. A hook that calls back
  into the engine object (reading the lazy accessors, adding filters during a run) is not
  modelled.
- Legacy hooks: on the legacy evaluator the hooks see an empty error list, and any error they
  report is lost, since that class keeps none.
- Null values: null tokens, a null argument vector and a null definitions list are not modelled.
  For the main engine, an absent definitions list is modelled as `None`. The legacy
  constructor's failure on a null list is not modelled.
- Aliasing: the argument vector belongs to the caller, and `NamedArguments` and `UnnamedArguments`
  hand out the engine's live dictionary and list. The model holds the vector as an immutable
  sequence and returns copies of the map and the list, so changes by the caller after
  construction or through a returned collection are not modelled.
- `CheckForErrors`: it is a private helper that nothing calls, so it is not modelled.
- Arguments.ToLower: lowers ASCII letters only, not culture-sensitive casing, because the
  culture tables are outside the program.
- ParserEngine.Parser.ParseSingleDashOption: the returned cursor and the `ref` cursor are the
  same value, modelled as one out-parameter.
- ParserProperties.ValueCharStep: requires `WellFormed`, because the code looks the option up again by its long name
  ignoring case, and with clashing names that lookup can find another registration.
- ParserProperties.BundleTakesValues: requires `WellFormed`, for the same reason.
- ParserProperties.LongBundleTakesValues: requires `WellFormed`, for the same reason.
- ParserProperties.LongBundleValueChar: requires `WellFormed`, for the same reason.
- ParserProperties.BundleValueNext: requires `WellFormed`, for the same reason.
- ParserProperties.BundledValueOneError: requires `WellFormed`, for the same reason.
- ParserProperties.BundleCursor: requires `WellFormed`, for the same reason.
- ParserProperties.ValueCharAtEnd: requires `WellFormed`, for the same reason.
- ParserProperties.OneValueCharAtEnd: requires `WellFormed`, for the same reason.
- ParserProperties.BundledValueAtEnd: requires `WellFormed`, for the same reason.
- Concrete test runs: `Scenarios` restates only the steps of the tests that matter, not whole
  runs through object filling. The test expecting the legacy evaluator to take values
  (src/BurnSystems.CommandLine.Test/ArgumentTests.cs:16-25) relies on a registration helper
  that is not part of this model. The legacy pass as written never reads registrations; see
  `Scenarios.FlatIgnoresValues`.
