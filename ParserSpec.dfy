/** The main engine's token pass as functions of the argument vector, the
    registrations, the cursor and the accumulated state. The class Parser
    (module ParserEngine) is proved to compute exactly these. */
module ParserSpec {
  import opened Arguments
  import opened Filters

  const ValueMissingPrefix := "Value missing for parameter: "

  function BundleMessage(c: char): string {
    "Shortname " + [c] + " has a value and is used with other options"
  }

  predicate LongMatches(info: ArgInfo, name: string) {
    info.NamedInfo? && SameName(info.longName, name)
  }

  predicate ShortMatches(info: ArgInfo, c: char) {
    info.NamedInfo? && info.shortName == Some(c)
  }

  /** The registrations that describe named options, in registration order. */
  function NamedInfos(infos: seq<ArgInfo>): (r: seq<ArgInfo>)
    ensures forall x :: x in r <==> x in infos && x.NamedInfo?
    ensures |r| <= |infos|
  {
    if infos == [] then []
    else (if infos[0].NamedInfo? then [infos[0]] else []) + NamedInfos(infos[1..])
  }

  /** Index of the first named registration whose long name equals name,
      ignoring case. */
  function FindLong(infos: seq<ArgInfo>, name: string): (r: Option<nat>)
    ensures r.Some? ==> r.value < |infos| && LongMatches(infos[r.value], name)
    ensures r.Some? ==> forall j :: 0 <= j < r.value ==> !LongMatches(infos[j], name)
    ensures r.None? ==> forall j :: 0 <= j < |infos| ==> !LongMatches(infos[j], name)
  {
    if infos == [] then None
    else if LongMatches(infos[0], name) then Some(0)
    else
      match FindLong(infos[1..], name)
      case None => None
      case Some(k) => Some(k + 1)
  }

  /** Index of the first named registration whose short name is c. */
  function FindShort(infos: seq<ArgInfo>, c: char): (r: Option<nat>)
    ensures r.Some? ==> r.value < |infos| && ShortMatches(infos[r.value], c)
    ensures r.Some? ==> forall j :: 0 <= j < r.value ==> !ShortMatches(infos[j], c)
    ensures r.None? ==> forall j :: 0 <= j < |infos| ==> !ShortMatches(infos[j], c)
  {
    if infos == [] then None
    else if ShortMatches(infos[0], c) then Some(0)
    else
      match FindShort(infos[1..], c)
      case None => None
      case Some(k) => Some(k + 1)
  }

  /** Long names are distinct ignoring case, short names are distinct. */
  predicate WellFormed(infos: seq<ArgInfo>) {
    forall i, j :: 0 <= i < j < |infos| && infos[i].NamedInfo? && infos[j].NamedInfo? ==>
      !SameName(infos[i].longName, infos[j].longName)
      && (infos[i].shortName.None? || infos[i].shortName != infos[j].shortName)
  }

  /** A named option met at cursor n. A value-taking option moves the cursor
      onto its value; a missing value is reported under the name as used. */
  function AddValue(args: seq<string>, infos: seq<ArgInfo>, n: nat, name: string, st: State)
    : (r: (nat, State))
    ensures n <= r.0 <= n + 1
    ensures r.1.unnamed == st.unnamed && ErrorsExtend(st, r.1)
  {
    match FindLong(infos, name)
    case None => (n, st.(named := st.named[name := FlagValue]))
    case Some(k) =>
      if !infos[k].hasValue then (n, st.(named := st.named[infos[k].longName := FlagValue]))
      else if |args| <= n + 1 then (n + 1, st.(errors := st.errors + [ValueMissingPrefix + name]))
      else (n + 1, st.(named := st.named[infos[k].longName := args[n + 1]]))
  }

  /** One character rest[i] of a single-dash token: an unknown character
      records the whole token remainder, a flag records its long name, and a
      value-taking character takes the next token (reporting an error first
      when it shares the token with other characters). */
  function BundleChar(args: seq<string>, infos: seq<ArgInfo>, n: nat, rest: string, i: nat, st: State)
    : (r: (nat, State))
    requires i < |rest|
    ensures n <= r.0 <= n + 1
    ensures r.1.unnamed == st.unnamed && ErrorsExtend(st, r.1)
  {
    var c := rest[i];
    match FindShort(infos, c)
    case None => (n, st.(named := st.named[rest := FlagValue]))
    case Some(k) =>
      if !infos[k].hasValue then (n, st.(named := st.named[infos[k].longName := FlagValue]))
      else
        var st1 := if |rest| > 1 then st.(errors := st.errors + [BundleMessage(c)]) else st;
        AddValue(args, infos, n, infos[k].longName, st1)
  }

  /** The characters rest[i..] of a single-dash token, one at a time. */
  function Bundle(args: seq<string>, infos: seq<ArgInfo>, n: nat, rest: string, i: nat, st: State)
    : (r: (nat, State))
    requires i <= |rest|
    ensures n <= r.0
    ensures r.1.unnamed == st.unnamed && ErrorsExtend(st, r.1)
    decreases |rest| - i
  {
    if i == |rest| then (n, st)
    else
      var r1 := BundleChar(args, infos, n, rest, i, st);
      Bundle(args, infos, r1.0, rest, i + 1, r1.1)
  }

  /** Classifies the token at cursor n; returns the cursor of the last token
      it used. Only a positional token changes the positional list. */
  function Step(args: seq<string>, infos: seq<ArgInfo>, n: nat, st: State): (r: (nat, State))
    requires n < |args|
    ensures n <= r.0
    ensures r.1.unnamed == st.unnamed + (if IsPositional(args[n]) then [args[n]] else [])
    ensures ErrorsExtend(st, r.1)
  {
    var a := args[n];
    if a == "" then (n, st)
    else if "--" <= a then AddValue(args, infos, n, a[2..], st)
    else if a[0] == '-' then Bundle(args, infos, n, a[1..], 0, st)
    else (n, st.(unnamed := st.unnamed + [a]))
  }

  /** The pass from cursor n to the end of the argument vector. */
  function Scan(args: seq<string>, infos: seq<ArgInfo>, n: nat, st: State): (r: State)
    ensures ErrorsExtend(st, r)
    decreases |args| - n
  {
    if n >= |args| then st
    else
      var r1 := Step(args, infos, n, st);
      Scan(args, infos, r1.0 + 1, r1.1)
  }

  /** The cursor positions the pass classifies, in order. */
  function Visits(args: seq<string>, infos: seq<ArgInfo>, n: nat, st: State): (v: seq<nat>)
    ensures forall j :: 0 <= j < |v| ==> n <= v[j] < |args|
    ensures forall j, k :: 0 <= j < k < |v| ==> v[j] < v[k]
    ensures (v != []) == (n < |args|)
    ensures v != [] ==> v[0] == n
    decreases |args| - n
  {
    if n >= |args| then []
    else
      var r1 := Step(args, infos, n, st);
      [n] + Visits(args, infos, r1.0 + 1, r1.1)
  }

  /** The positional tokens among the positions v, in order; a position
      outside args contributes nothing. */
  function PositionalsAt(args: seq<string>, v: seq<nat>): seq<string> {
    if v == [] then []
    else (if v[0] < |args| && IsPositional(args[v[0]]) then [args[v[0]]] else []) + PositionalsAt(args, v[1..])
  }

  /** Parse: the before-hooks, the pass, the after-hooks. With only the
      built-in filters, the pass starts from the given state and the
      after-hooks keep every error, name and positional value it produced. */
  function ParseAll(args: seq<string>, infos: seq<ArgInfo>, filters: seq<Filter>, st: State): State {
    Run(filters, AfterParsing, infos, Scan(args, infos, 0, Run(filters, BeforeParsing, infos, st)))
  }

  /** With built-in filters only, a whole parse is the pass over the tokens
      plus what the filters add: no positional value, error or name that
      the pass recorded is lost, and no value it recorded is replaced. */
  lemma ParseAllBuiltIn(args: seq<string>, infos: seq<ArgInfo>, filters: seq<Filter>, st: State, k: string)
    requires BuiltIn(filters)
    ensures var s, r := Scan(args, infos, 0, st), ParseAll(args, infos, filters, st);
      r.unnamed == s.unnamed && ErrorsExtend(s, r) && s.named.Keys <= r.named.Keys
      && (k in s.named ==> r.named[k] == s.named[k])
  {
    RunBuiltIn(filters, BeforeParsing, infos, st);
    var s := Scan(args, infos, 0, st);
    RunBuiltIn(filters, AfterParsing, infos, s);
    if k in s.named {
      RunKeepsValues(filters, AfterParsing, infos, s, k);
    }
  }

  /** The named keys that ask for help. */
  const HelpKeys: set<string> := {"help", "h", "?"}

  /** A help request among the named values. */
  predicate HasHelpKey(named: map<string, string>)
    ensures HasHelpKey(named) <==> named.Keys * HelpKeys != {}
  {
    if "help" in named || "h" in named || "?" in named then
      assert "help" in named ==> "help" in named.Keys * HelpKeys;
      assert "h" in named ==> "h" in named.Keys * HelpKeys;
      assert "?" in named ==> "?" in named.Keys * HelpKeys;
      true
    else false
  }

  /** The decision ShowUsageIfNecessary takes: errors, or a help key. */
  predicate ShowsUsage(st: State)
    ensures ShowsUsage(st) <==> st.errors != [] || st.named.Keys * HelpKeys != {}
  {
    |st.errors| > 0 || HasHelpKey(st.named)
  }

  /** The first of the named registrations whose long name matches,
      ignoring case, as the query over the named registrations takes it. */
  function FirstLongMatch(named: seq<ArgInfo>, name: string): (r: Option<ArgInfo>)
    ensures r.Some? ==> r.value in named && LongMatches(r.value, name)
    ensures r.None? ==> forall x :: x in named ==> !LongMatches(x, name)
  {
    if named == [] then None
    else if LongMatches(named[0], name) then Some(named[0])
    else FirstLongMatch(named[1..], name)
  }

  /** The first of the named registrations with short name c. */
  function FirstShortMatch(named: seq<ArgInfo>, c: char): (r: Option<ArgInfo>)
    ensures r.Some? ==> r.value in named && ShortMatches(r.value, c)
    ensures r.None? ==> forall x :: x in named ==> !ShortMatches(x, c)
  {
    if named == [] then None
    else if ShortMatches(named[0], c) then Some(named[0])
    else FirstShortMatch(named[1..], c)
  }

  /** The named registrations of a + b are those of a, then those of b: the
      filter keeps registration order and duplicates. */
  lemma {:induction false} NamedInfosConcat(a: seq<ArgInfo>, b: seq<ArgInfo>)
    ensures NamedInfos(a + b) == NamedInfos(a) + NamedInfos(b)
    decreases |a|
  {
    if a == [] {
      assert a + b == b;
    } else {
      assert (a + b)[0] == a[0] && (a + b)[1..] == a[1..] + b;
      NamedInfosConcat(a[1..], b);
    }
  }

  /** The index lookup by long name finds exactly the registration the
      first-match query over the named registrations returns. */
  lemma {:induction false} FindLongIsFirstNamed(infos: seq<ArgInfo>, name: string)
    ensures FirstLongMatch(NamedInfos(infos), name)
         == if FindLong(infos, name).None? then None else Some(infos[FindLong(infos, name).value])
    decreases |infos|
  {
    if infos != [] {
      var tail := NamedInfos(infos[1..]);
      assert NamedInfos(infos) == (if infos[0].NamedInfo? then [infos[0]] else []) + tail;
      if LongMatches(infos[0], name) {
        assert FindLong(infos, name) == Some(0);
        assert NamedInfos(infos)[0] == infos[0];
      } else {
        FindLongIsFirstNamed(infos[1..], name);
        FirstLongMatchSkip(infos[0], tail, name);
        match FindLong(infos[1..], name)
        case None =>
        case Some(k) => assert infos[1..][k] == infos[k + 1];
      }
    }
  }

  lemma FirstLongMatchSkip(x: ArgInfo, tail: seq<ArgInfo>, name: string)
    requires !LongMatches(x, name)
    ensures FirstLongMatch((if x.NamedInfo? then [x] else []) + tail, name) == FirstLongMatch(tail, name)
  {
    if x.NamedInfo? {
      assert ([x] + tail)[0] == x && ([x] + tail)[1..] == tail;
    } else {
      assert [] + tail == tail;
    }
  }

  /** The index lookup by short name finds exactly the registration the
      first-match query over the named registrations returns. */
  lemma {:induction false} FindShortIsFirstNamed(infos: seq<ArgInfo>, c: char)
    ensures FirstShortMatch(NamedInfos(infos), c)
         == if FindShort(infos, c).None? then None else Some(infos[FindShort(infos, c).value])
    decreases |infos|
  {
    if infos != [] {
      var tail := NamedInfos(infos[1..]);
      assert NamedInfos(infos) == (if infos[0].NamedInfo? then [infos[0]] else []) + tail;
      if ShortMatches(infos[0], c) {
        assert FindShort(infos, c) == Some(0);
        assert NamedInfos(infos)[0] == infos[0];
      } else {
        FindShortIsFirstNamed(infos[1..], c);
        FirstShortMatchSkip(infos[0], tail, c);
        match FindShort(infos[1..], c)
        case None =>
        case Some(k) => assert infos[1..][k] == infos[k + 1];
      }
    }
  }

  lemma FirstShortMatchSkip(x: ArgInfo, tail: seq<ArgInfo>, c: char)
    requires !ShortMatches(x, c)
    ensures FirstShortMatch((if x.NamedInfo? then [x] else []) + tail, c) == FirstShortMatch(tail, c)
  {
    if x.NamedInfo? {
      assert ([x] + tail)[0] == x && ([x] + tail)[1..] == tail;
    } else {
      assert [] + tail == tail;
    }
  }
}
