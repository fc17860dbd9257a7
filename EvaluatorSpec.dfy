/** The legacy evaluator's token pass as functions. Unlike the main engine
    it looks at one token at a time, never at the next one, and never at the
    registered metadata: what a token does depends on its text alone. */
module EvaluatorSpec {
  import opened Arguments
  import opened Filters

  /** The named entry a token writes, if any. A double-dash token names its
      rest with the flag value, an equals sign included; a single-dash token
      is split at its first equals sign into name and value, or names its
      rest with the flag value when it has none. */
  function FlatEntry(token: string): (r: Option<(string, string)>)
    ensures r.Some? <==> token != "" && token[0] == '-'
  {
    if token == "" then None
    else if "--" <= token then Some((token[2..], FlagValue))
    else if token[0] == '-' then
      var pos := IndexOf(token, '=');
      if pos == -1 then Some((token[1..], FlagValue)) else Some((token[1..pos], token[pos + 1..]))
    else None
  }

  /** One token: a named entry is written, a positional token is appended,
      an empty token changes nothing. A token is never both: a named token
      leaves the positional list alone and a positional one the names. */
  function FlatStep(token: string, t: Table): (r: Table)
    ensures token == "" ==> r == t
    ensures FlatEntry(token).Some? ==>
      r.unnamed == t.unnamed && r.named.Keys == t.named.Keys + {FlatEntry(token).value.0}
      && r.named[FlatEntry(token).value.0] == FlatEntry(token).value.1
      && forall k :: k in t.named && k != FlatEntry(token).value.0 ==> r.named[k] == t.named[k]
    ensures FlatEntry(token).None? && token != "" ==> r.named == t.named && r.unnamed == t.unnamed + [token]
  {
    match FlatEntry(token)
    case Some((key, value)) => t.(named := t.named[key := value])
    case None => if IsPositional(token) then t.(unnamed := t.unnamed + [token]) else t
  }

  /** The tokens of args, first to last. */
  function FlatScan(args: seq<string>, t: Table): Table
    decreases |args|
  {
    if args == [] then t else FlatStep(args[|args| - 1], FlatScan(args[..|args| - 1], t))
  }

  /** The positional tokens of args, in order. */
  function Positionals(args: seq<string>): (r: seq<string>)
    ensures forall x :: x in r <==> x in args && IsPositional(x)
    ensures |r| <= |args|
    decreases |args|
  {
    if args == [] then []
    else
      var last := args[|args| - 1];
      assert args == args[..|args| - 1] + [last];
      Positionals(args[..|args| - 1]) + (if IsPositional(last) then [last] else [])
  }

  /** Parse: the before-hooks, the pass, the after-hooks. */
  function FlatParseAll(args: seq<string>, infos: seq<ArgInfo>, filters: seq<Filter>, t: Table): Table {
    RunOnTable(filters, AfterParsing, infos, FlatScan(args, RunOnTable(filters, BeforeParsing, infos, t)))
  }

  /** With built-in filters only, a parse keeps what the pass gives: the
      positional list is the positional tokens in order, and every name a
      token writes is present afterwards. */
  lemma FlatParseAllBuiltIn(args: seq<string>, infos: seq<ArgInfo>, filters: seq<Filter>, t: Table, key: string)
    requires BuiltIn(filters)
    ensures var r := FlatParseAll(args, infos, filters, t);
      r.unnamed == t.unnamed + Positionals(args) && (key in t.named || Writes(args, key) ==> key in r.named)
  {
    RunOnTableBuiltIn(filters, BeforeParsing, infos, t);
    FlatPositionals(args, t);
    FlatNamedKeys(args, t, key);
    RunOnTableBuiltIn(filters, AfterParsing, infos, FlatScan(args, t));
  }

  /** With built-in filters only, the after-hooks never replace a value the
      pass wrote: a name keeps the value of the last token that writes it. */
  lemma FlatParseAllLastWrite(args: seq<string>, infos: seq<ArgInfo>, filters: seq<Filter>, t: Table,
                              i: nat, key: string, value: string)
    requires BuiltIn(filters)
    requires i < |args| && FlatEntry(args[i]) == Some((key, value))
    requires forall j :: i < j < |args| ==> FlatEntry(args[j]).None? || FlatEntry(args[j]).value.0 != key
    ensures key in FlatParseAll(args, infos, filters, t).named
    ensures FlatParseAll(args, infos, filters, t).named[key] == value
  {
    RunOnTableBuiltIn(filters, BeforeParsing, infos, t);
    FlatLastWriteWins(args, t, i, key, value);
    RunOnTableKeepsValues(filters, AfterParsing, infos, FlatScan(args, t), key);
  }

  /** Some token of args writes key. */
  predicate Writes(args: seq<string>, key: string) {
    exists i :: 0 <= i < |args| && FlatEntry(args[i]).Some? && FlatEntry(args[i]).value.0 == key
  }

  /** No lookahead: the pass over a + b is the pass over b from where the pass
      over a stopped. */
  lemma {:induction false} FlatScanAppend(a: seq<string>, b: seq<string>, t: Table)
    ensures FlatScan(a + b, t) == FlatScan(b, FlatScan(a, t))
    decreases |b|
  {
    if b == [] {
      assert a + b == a;
    } else {
      var b' := b[..|b| - 1];
      assert (a + b)[..|a + b| - 1] == a + b';
      FlatScanAppend(a, b', t);
    }
  }

  /** The positional list grows by exactly the positional tokens, in order. */
  lemma {:induction false} FlatPositionals(args: seq<string>, t: Table)
    ensures FlatScan(args, t).unnamed == t.unnamed + Positionals(args)
    decreases |args|
  {
    if args != [] {
      FlatPositionals(args[..|args| - 1], t);
    }
  }

  /** A key is present after the pass exactly when it was present before or
      some token writes it; a key no token writes keeps its value. */
  lemma {:induction false} FlatNamedKeys(args: seq<string>, t: Table, key: string)
    ensures key in FlatScan(args, t).named <==> key in t.named || Writes(args, key)
    ensures !Writes(args, key) && key in t.named ==> FlatScan(args, t).named[key] == t.named[key]
    decreases |args|
  {
    if args != [] {
      var init := args[..|args| - 1];
      FlatNamedKeys(init, t, key);
      if Writes(init, key) {
        var i :| 0 <= i < |init| && FlatEntry(init[i]).Some? && FlatEntry(init[i]).value.0 == key;
        assert args[i] == init[i];
      }
    }
  }

  /** The value a key ends with is the one written by the last token that
      writes it. */
  lemma FlatLastWriteWins(args: seq<string>, t: Table, i: nat, key: string, value: string)
    requires i < |args| && FlatEntry(args[i]) == Some((key, value))
    requires forall j :: i < j < |args| ==> FlatEntry(args[j]).None? || FlatEntry(args[j]).value.0 != key
    ensures key in FlatScan(args, t).named && FlatScan(args, t).named[key] == value
  {
    var a, b := args[..i + 1], args[i + 1..];
    assert args == a + b;
    FlatScanAppend(a, b, t);
    assert a == a[..i] + [args[i]];
    var mid := FlatScan(a, t);
    assert mid.named[key] == value;
    forall j | 0 <= j < |b| ensures FlatEntry(b[j]).None? || FlatEntry(b[j]).value.0 != key {
      assert b[j] == args[i + 1 + j];
    }
    FlatNamedKeys(b, mid, key);
  }

  /** A single-dash token with an equals sign splits at the first one: the
      name has no equals sign, the value may have some, and putting them back
      together with the sign gives the token. */
  lemma SingleDashSplit(token: string)
    requires |token| >= 1 && token[0] == '-' && !("--" <= token) && '=' in token
    ensures var e := FlatEntry(token);
      e.Some? && token == "-" + e.value.0 + "=" + e.value.1 && '=' !in e.value.0
  {
    var pos := IndexOf(token, '=');
    assert token == token[..1] + token[1..pos] + [token[pos]] + token[pos + 1..];
    assert token[1..pos] == token[..pos][1..];
  }

  /** A single-dash token without an equals sign names its rest as a flag. */
  lemma SingleDashFlag(token: string)
    requires |token| >= 1 && token[0] == '-' && !("--" <= token) && '=' !in token
    ensures FlatEntry(token) == Some((token[1..], FlagValue))
  {
  }

  /** A double-dash token always names its whole rest as a flag, even when
      the rest holds an equals sign. */
  lemma LongDashNoSplit(name: string)
    ensures FlatEntry("--" + name) == Some((name, FlagValue))
  {
    assert "--" <= "--" + name;
    assert ("--" + name)[2..] == name;
  }
}
