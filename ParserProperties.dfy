/** What the main engine's pass guarantees, stated over ParserSpec. */
module ParserProperties {
  import opened Arguments
  import opened Filters
  import opened ParserSpec

  /** With distinct names, looking a registration up by its own long name,
      or by its own short name, finds that registration. */
  lemma LookupFindsDeclared(infos: seq<ArgInfo>, k: nat)
    requires WellFormed(infos) && k < |infos| && infos[k].NamedInfo?
    ensures FindLong(infos, infos[k].longName) == Some(k)
    ensures infos[k].shortName.Some? ==> FindShort(infos, infos[k].shortName.value) == Some(k)
  {
    assert LongMatches(infos[k], infos[k].longName);
    if infos[k].shortName.Some? {
      assert ShortMatches(infos[k], infos[k].shortName.value);
    }
  }

  /** An empty token changes nothing and the pass moves on. */
  lemma EmptyTokenSkipped(args: seq<string>, infos: seq<ArgInfo>, n: nat, st: State)
    requires n < |args| && args[n] == ""
    ensures Scan(args, infos, n, st) == Scan(args, infos, n + 1, st)
  {
  }

  /** The positional values the pass appends are exactly the positional
      tokens at the positions it classifies, in encounter order; since those
      positions strictly increase (Visits), the positional list grows by a
      subsequence of the argument vector. */
  lemma {:induction false} ScanPositionals(args: seq<string>, infos: seq<ArgInfo>, n: nat, st: State)
    ensures Scan(args, infos, n, st).unnamed == st.unnamed + PositionalsAt(args, Visits(args, infos, n, st))
    decreases |args| - n
  {
    if n < |args| {
      var r1 := Step(args, infos, n, st);
      var v := Visits(args, infos, n, st);
      ScanPositionals(args, infos, r1.0 + 1, r1.1);
      assert v[1..] == Visits(args, infos, r1.0 + 1, r1.1);
    }
  }

  /** --name for a declared flag, or an undeclared name: the flag value is
      recorded, under the declared spelling when declared and under the
      typed spelling otherwise; no token is consumed. */
  lemma LongFlagRecorded(args: seq<string>, infos: seq<ArgInfo>, n: nat, name: string, st: State)
    requires n < |args| && args[n] == "--" + name
    requires FindLong(infos, name).None? || !infos[FindLong(infos, name).value].hasValue
    ensures var key := if FindLong(infos, name).None? then name
                       else infos[FindLong(infos, name).value].longName;
      Scan(args, infos, n, st) == Scan(args, infos, n + 1, st.(named := st.named[key := FlagValue]))
  {
    assert "--" <= args[n] && args[n][2..] == name;
  }

  /** --name for a declared value-taking option followed by a token: that
      token, whatever it looks like, becomes the value under the declared
      spelling, and the pass resumes after it without classifying it. */
  lemma LongValueConsumed(args: seq<string>, infos: seq<ArgInfo>, n: nat, name: string, st: State)
    requires n + 1 < |args| && args[n] == "--" + name
    requires FindLong(infos, name).Some? && infos[FindLong(infos, name).value].hasValue
    ensures var st' := st.(named := st.named[infos[FindLong(infos, name).value].longName := args[n + 1]]);
      Scan(args, infos, n, st) == Scan(args, infos, n + 2, st')
      && Visits(args, infos, n, st) == [n] + Visits(args, infos, n + 2, st')
    ensures n + 1 !in Visits(args, infos, n, st)
  {
    assert "--" <= args[n] && args[n][2..] == name;
  }

  /** --name for a declared value-taking option as the last token: exactly one
      error naming the option as typed, no value recorded, and the pass ends. */
  lemma LongValueMissing(args: seq<string>, infos: seq<ArgInfo>, name: string, st: State)
    requires |args| > 0 && args[|args| - 1] == "--" + name
    requires FindLong(infos, name).Some? && infos[FindLong(infos, name).value].hasValue
    ensures Scan(args, infos, |args| - 1, st) == st.(errors := st.errors + [ValueMissingPrefix + name])
  {
    assert "--" <= args[|args| - 1] && args[|args| - 1][2..] == name;
  }

  /** The name a character of a bundle records when it takes no value: its
      declared long name, or for an unknown character the whole bundle. */
  function FlagKey(infos: seq<ArgInfo>, rest: string, j: nat): string
    requires j < |rest|
  {
    match FindShort(infos, rest[j])
    case None => rest
    case Some(k) => infos[k].longName
  }

  predicate IsValueChar(infos: seq<ArgInfo>, c: char) {
    FindShort(infos, c).Some? && infos[FindShort(infos, c).value].hasValue
  }

  function FlagKeys(infos: seq<ArgInfo>, rest: string, i: nat): set<string>
    requires i <= |rest|
    decreases |rest| - i
  {
    if i == |rest| then {} else {FlagKey(infos, rest, i)} + FlagKeys(infos, rest, i + 1)
  }

  /** A bundle of flags and unknown characters records the flag value under
      each character's key, changes no other name, consumes no token and
      reports nothing. */
  lemma {:induction false} BundleFlagsOnly(args: seq<string>, infos: seq<ArgInfo>, n: nat,
                                           rest: string, i: nat, st: State)
    requires i <= |rest|
    requires forall j :: i <= j < |rest| ==> !IsValueChar(infos, rest[j])
    ensures var r := Bundle(args, infos, n, rest, i, st);
      && r.0 == n && r.1.errors == st.errors && r.1.unnamed == st.unnamed
      && r.1.named.Keys == st.named.Keys + FlagKeys(infos, rest, i)
      && forall key :: key in r.1.named ==>
           r.1.named[key] == if key in FlagKeys(infos, rest, i) then FlagValue else st.named[key]
    decreases |rest| - i
  {
    if i < |rest| {
      var st1 := st.(named := st.named[FlagKey(infos, rest, i) := FlagValue]);
      FlagCharStep(args, infos, n, rest, i, st);
      BundleFlagsOnly(args, infos, n, rest, i + 1, st1);
      var r := Bundle(args, infos, n, rest, i + 1, st1);
      assert Bundle(args, infos, n, rest, i, st) == r;
      forall key | key in r.1.named
        ensures r.1.named[key] == if key in FlagKeys(infos, rest, i) then FlagValue else st.named[key]
      {
      }
    }
  }

  /** One bundling error per value-taking character of rest[i..], in order. */
  function BundleMessages(infos: seq<ArgInfo>, rest: string, i: nat): (r: seq<string>)
    requires i <= |rest|
    decreases |rest| - i
  {
    if i == |rest| then []
    else (if IsValueChar(infos, rest[i]) then [BundleMessage(rest[i])] else [])
         + BundleMessages(infos, rest, i + 1)
  }

  /** One character of a bundle that takes no value. */
  lemma FlagCharStep(args: seq<string>, infos: seq<ArgInfo>, n: nat, rest: string, i: nat, st: State)
    requires i < |rest| && !IsValueChar(infos, rest[i])
    ensures BundleChar(args, infos, n, rest, i, st) == (n, st.(named := st.named[FlagKey(infos, rest, i) := FlagValue]))
  {
  }

  /** One value-taking character of a bundle, with a token left to take. */
  lemma ValueCharStep(args: seq<string>, infos: seq<ArgInfo>, n: nat, rest: string, i: nat, st: State)
    requires WellFormed(infos) && i < |rest| && IsValueChar(infos, rest[i]) && n + 1 < |args|
    ensures var longName := infos[FindShort(infos, rest[i]).value].longName;
      BundleChar(args, infos, n, rest, i, st)
        == (n + 1, st.(errors := st.errors + (if |rest| > 1 then [BundleMessage(rest[i])] else []),
                       named := st.named[longName := args[n + 1]]))
  {
    var k := FindShort(infos, rest[i]).value;
    LookupFindsDeclared(infos, k);
    var st1 := if |rest| > 1 then st.(errors := st.errors + [BundleMessage(rest[i])]) else st;
    assert st1.errors == st.errors + (if |rest| > 1 then [BundleMessage(rest[i])] else []);
    assert AddValue(args, infos, n, infos[k].longName, st1) == (n + 1, st1.(named := st1.named[infos[k].longName := args[n + 1]]));
  }

  /** With distinct names and enough tokens left, each value-taking character
      of a bundle consumes exactly one following token, and a bundle of more
      than one character reports one bundling error per value-taking
      character and nothing else. */
  lemma BundleTakesValues(args: seq<string>, infos: seq<ArgInfo>, n: nat, rest: string, i: nat, st: State)
    requires WellFormed(infos) && i <= |rest|
    requires n + |BundleMessages(infos, rest, i)| < |args|
    ensures var r := Bundle(args, infos, n, rest, i, st);
      && r.0 == n + |BundleMessages(infos, rest, i)|
      && r.1.errors == st.errors + (if |rest| > 1 then BundleMessages(infos, rest, i) else [])
  {
    if |rest| > 1 {
      LongBundleTakesValues(args, infos, n, rest, i, st);
    } else if i < |rest| {
      if IsValueChar(infos, rest[i]) {
        ValueCharStep(args, infos, n, rest, i, st);
      } else {
        FlagCharStep(args, infos, n, rest, i, st);
      }
    }
  }

  lemma {:induction false} LongBundleTakesValues(args: seq<string>, infos: seq<ArgInfo>, n: nat,
                                                 rest: string, i: nat, st: State)
    requires WellFormed(infos) && 1 < |rest| && i <= |rest|
    requires n + |BundleMessages(infos, rest, i)| < |args|
    ensures var r := Bundle(args, infos, n, rest, i, st);
      r.0 == n + |BundleMessages(infos, rest, i)| && r.1.errors == st.errors + BundleMessages(infos, rest, i)
    decreases |rest| - i, 1
  {
    if i < |rest| {
      if IsValueChar(infos, rest[i]) {
        LongBundleValueChar(args, infos, n, rest, i, st);
      } else {
        FlagCharStep(args, infos, n, rest, i, st);
        assert BundleMessages(infos, rest, i) == BundleMessages(infos, rest, i + 1);
        LongBundleTakesValues(args, infos, n, rest, i + 1, st.(named := st.named[FlagKey(infos, rest, i) := FlagValue]));
      }
    }
  }

  lemma {:induction false} LongBundleValueChar(args: seq<string>, infos: seq<ArgInfo>, n: nat,
                                               rest: string, i: nat, st: State)
    requires WellFormed(infos) && 1 < |rest| && i < |rest| && IsValueChar(infos, rest[i])
    requires n + |BundleMessages(infos, rest, i)| < |args|
    ensures var r := Bundle(args, infos, n, rest, i, st);
      r.0 == n + |BundleMessages(infos, rest, i)| && r.1.errors == st.errors + BundleMessages(infos, rest, i)
    decreases |rest| - i, 0
  {
    ValueCharMessages(infos, rest, i);
    var st2 := BundleValueNext(args, infos, n, rest, i, st);
    LongBundleTakesValues(args, infos, n + 1, rest, i + 1, st2);
    assert st2.errors + BundleMessages(infos, rest, i + 1) == st.errors + BundleMessages(infos, rest, i);
  }

  /** A value-taking character contributes its own bundling error first. */
  lemma ValueCharMessages(infos: seq<ArgInfo>, rest: string, i: nat)
    requires i < |rest| && IsValueChar(infos, rest[i])
    ensures BundleMessages(infos, rest, i) == [BundleMessage(rest[i])] + BundleMessages(infos, rest, i + 1)
    ensures |BundleMessages(infos, rest, i)| == 1 + |BundleMessages(infos, rest, i + 1)|
  {
  }

  /** The state after a value-taking character of a bundle longer than one. */
  lemma BundleValueNext(args: seq<string>, infos: seq<ArgInfo>, n: nat, rest: string, i: nat, st: State)
    returns (st2: State)
    requires WellFormed(infos) && 1 < |rest| && i < |rest| && IsValueChar(infos, rest[i]) && n + 1 < |args|
    ensures st2.errors == st.errors + [BundleMessage(rest[i])]
    ensures Bundle(args, infos, n, rest, i, st) == Bundle(args, infos, n + 1, rest, i + 1, st2)
  {
    ValueCharStep(args, infos, n, rest, i, st);
    st2 := BundleChar(args, infos, n, rest, i, st).1;
  }

  lemma {:induction false} SingleValueChar(infos: seq<ArgInfo>, rest: string, i: nat, j: nat)
    requires i <= j < |rest| && IsValueChar(infos, rest[j])
    requires forall m :: i <= m < |rest| && m != j ==> !IsValueChar(infos, rest[m])
    ensures |BundleMessages(infos, rest, i)| == 1
    ensures BundleMessages(infos, rest, i) == [BundleMessage(rest[j])]
    decreases |rest| - i
  {
    if i < j {
      SingleValueChar(infos, rest, i + 1, j);
    } else {
      NoValueChars(infos, rest, i + 1);
    }
  }

  lemma {:induction false} NoValueChars(infos: seq<ArgInfo>, rest: string, i: nat)
    requires i <= |rest|
    requires forall m :: i <= m < |rest| ==> !IsValueChar(infos, rest[m])
    ensures |BundleMessages(infos, rest, i)| == 0
    decreases |rest| - i
  {
    if i < |rest| {
      NoValueChars(infos, rest, i + 1);
    }
  }

  /** A value-taking short option bundled with other characters, followed by
      a token, appends exactly one bundling error and still consumes that
      token. */
  lemma BundledValueOneError(args: seq<string>, infos: seq<ArgInfo>, n: nat, rest: string,
                             j: nat, st: State)
    requires WellFormed(infos) && n + 1 < |args| && args[n] == "-" + rest
    requires 1 < |rest| && rest[0] != '-' && j < |rest| && IsValueChar(infos, rest[j])
    requires forall m :: 0 <= m < |rest| && m != j ==> !IsValueChar(infos, rest[m])
    ensures var r := Step(args, infos, n, st);
      r.0 == n + 1 && r.1.errors == st.errors + [BundleMessage(rest[j])]
  {
    SingleValueChar(infos, rest, 0, j);
    BundleTakesValues(args, infos, n, rest, 0, st);
    assert args[n][1] == rest[0] && args[n][1..] == rest;
  }

  /** With distinct names, each value-taking character of a bundle moves the
      cursor by exactly one, whether or not a token is left to take. */
  lemma {:induction false} BundleCursor(args: seq<string>, infos: seq<ArgInfo>, n: nat, rest: string, i: nat, st: State)
    requires WellFormed(infos) && i <= |rest|
    ensures Bundle(args, infos, n, rest, i, st).0 == n + |BundleMessages(infos, rest, i)|
    decreases |rest| - i
  {
    if i < |rest| {
      var r1 := BundleChar(args, infos, n, rest, i, st);
      if IsValueChar(infos, rest[i]) {
        LookupFindsDeclared(infos, FindShort(infos, rest[i]).value);
        assert r1.0 == n + 1;
        assert |BundleMessages(infos, rest, i)| == 1 + |BundleMessages(infos, rest, i + 1)|;
      } else {
        FlagCharStep(args, infos, n, rest, i, st);
        assert BundleMessages(infos, rest, i) == BundleMessages(infos, rest, i + 1);
      }
      BundleCursor(args, infos, r1.0, rest, i + 1, r1.1);
    }
  }

  /** A value-taking character of a bundle with no token left: the bundling
      error when the bundle is longer than one character, then the
      missing-value error naming the option's declared long name; no name is
      recorded and the cursor passes the end of the vector. */
  lemma ValueCharAtEnd(args: seq<string>, infos: seq<ArgInfo>, n: nat, rest: string, i: nat, st: State)
    requires WellFormed(infos) && i < |rest| && IsValueChar(infos, rest[i]) && |args| <= n + 1
    ensures var longName := infos[FindShort(infos, rest[i]).value].longName;
      BundleChar(args, infos, n, rest, i, st)
        == (n + 1, st.(errors := st.errors + (if |rest| > 1 then [BundleMessage(rest[i])] else [])
                                           + [ValueMissingPrefix + longName]))
  {
    var k := FindShort(infos, rest[i]).value;
    LookupFindsDeclared(infos, k);
    var st1 := if |rest| > 1 then st.(errors := st.errors + [BundleMessage(rest[i])]) else st;
    assert st1.errors == st.errors + (if |rest| > 1 then [BundleMessage(rest[i])] else []);
    assert AddValue(args, infos, n, infos[k].longName, st1)
        == (n + 1, st1.(errors := st1.errors + [ValueMissingPrefix + infos[k].longName]));
  }

  lemma {:induction false} OneValueCharAtEnd(args: seq<string>, infos: seq<ArgInfo>, n: nat, rest: string,
                                             i: nat, j: nat, st: State)
    requires WellFormed(infos) && 1 < |rest| && i <= j < |rest| && IsValueChar(infos, rest[j]) && |args| <= n + 1
    requires forall m :: i <= m < |rest| && m != j ==> !IsValueChar(infos, rest[m])
    ensures var r := Bundle(args, infos, n, rest, i, st);
      && r.0 == n + 1
      && r.1.errors == st.errors + [BundleMessage(rest[j]), ValueMissingPrefix + infos[FindShort(infos, rest[j]).value].longName]
    decreases j - i
  {
    if i < j {
      FlagCharStep(args, infos, n, rest, i, st);
      OneValueCharAtEnd(args, infos, n, rest, i + 1, j, st.(named := st.named[FlagKey(infos, rest, i) := FlagValue]));
    } else {
      ValueCharAtEnd(args, infos, n, rest, i, st);
      var st2 := BundleChar(args, infos, n, rest, i, st).1;
      BundleFlagsOnly(args, infos, n + 1, rest, i + 1, st2);
    }
  }

  /** A value-taking short option bundled with other characters in the last
      token: the bundling error, then the missing-value error naming the
      option's declared long name (not the token as typed); the cursor passes
      the end of the vector and the pass ends. */
  lemma BundledValueAtEnd(args: seq<string>, infos: seq<ArgInfo>, rest: string, j: nat, st: State)
    requires WellFormed(infos) && |args| > 0 && args[|args| - 1] == "-" + rest
    requires 1 < |rest| && rest[0] != '-' && j < |rest| && IsValueChar(infos, rest[j])
    requires forall m :: 0 <= m < |rest| && m != j ==> !IsValueChar(infos, rest[m])
    ensures var r := Step(args, infos, |args| - 1, st);
      && r.0 == |args|
      && r.1.errors == st.errors + [BundleMessage(rest[j]), ValueMissingPrefix + infos[FindShort(infos, rest[j]).value].longName]
      && Scan(args, infos, |args| - 1, st) == r.1
  {
    var n := |args| - 1;
    OneValueCharAtEnd(args, infos, n, rest, 0, j, st);
    assert args[n][1] == rest[0] && args[n][1..] == rest;
  }

  /** When no registration declares a default or a requirement, parsing with
      the default filters is the pass alone. */
  lemma PlainParseIsScan(args: seq<string>, infos: seq<ArgInfo>, st: State)
    requires forall i :: 0 <= i < |infos| ==> Plain(infos[i])
    ensures ParseAll(args, infos, DefaultFilters, st) == Scan(args, infos, 0, st)
  {
    DefaultBeforeIdentity(infos, st);
    PlainPipelineIdentity(infos, Scan(args, infos, 0, st));
  }

  /** A required positional argument the pass did not supply is reported by
      the default filters, so usage is due. */
  lemma RequiredPositionalMissing(args: seq<string>, infos: seq<ArgInfo>, st: State, i: nat)
    requires i < |infos| && infos[i].UnnamedInfo? && infos[i].isRequired
    requires infos[i].index >= |Scan(args, infos, 0, st).unnamed|
    ensures MissingPositionalMessage(infos[i].index) in ParseAll(args, infos, DefaultFilters, st).errors
    ensures ShowsUsage(ParseAll(args, infos, DefaultFilters, st))
  {
    DefaultBeforeIdentity(infos, st);
    var s1 := Scan(args, infos, 0, st);
    var s2 := FillDefaults(infos, s1);
    assert DefaultFilters[..1] == [DefaultValueFilter] && DefaultFilters[..1][..0] == [];
    assert Run(DefaultFilters, AfterParsing, infos, s1) == CheckRequired(infos, s2);
    assert RequiredMessage(infos[i], s2) == [MissingPositionalMessage(infos[i].index)];
    MissingRequiredReported(infos, s2, i);
  }

  /** Usage decided by the pass survives the default filters: errors are
      never removed and recorded names never disappear. */
  lemma PassUsageSurvivesDefaults(args: seq<string>, infos: seq<ArgInfo>, st: State)
    requires ShowsUsage(Scan(args, infos, 0, st))
    ensures ShowsUsage(ParseAll(args, infos, DefaultFilters, st))
  {
    DefaultPipelinePreserves(infos, st);
    DefaultPipelinePreserves(infos, Scan(args, infos, 0, st));
  }
}
