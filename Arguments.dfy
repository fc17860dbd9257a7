/** Values shared by both command-line classifiers: argument metadata, the
    accumulated parse state and the small string helpers both passes use. */
module Arguments {

  datatype Option<T> = None | Some(value: T)

  /** The result of an operation that can fail; a failure carries the
      message of the InvalidOperationException the source throws. A parse,
      which yields nothing, succeeds with the unit value. */
  datatype Result<T> = Success(value: T) | Failure(message: string)

  /** Registered metadata for one argument: a named option (long name,
      optional short character, whether it takes a value, optional default,
      required flag) or a positional argument (index, required flag). */
  datatype ArgInfo =
    | NamedInfo(longName: string, shortName: Option<char>, hasValue: bool,
                defaultValue: Option<string>, isRequired: bool)
    | UnnamedInfo(index: nat, isRequired: bool)

  /** What a parser accumulates: named values, positional values in
      encounter order, and error messages in the order they were reported. */
  datatype State = State(named: map<string, string>, unnamed: seq<string>, errors: seq<string>)

  /** What the legacy evaluator accumulates: it keeps no error list. */
  datatype Table = Table(named: map<string, string>, unnamed: seq<string>)

  const EmptyState := State(map[], [], [])
  const EmptyTable := Table(map[], [])

  /** The value recorded for a flag that carries no value of its own. */
  const FlagValue := "1"

  const AlreadyParsedMessage := "The arguments have been parsed already"

  /** r extends st's error list: every error already reported is kept, in place. */
  predicate ErrorsExtend(st: State, r: State) {
    |st.errors| <= |r.errors| && r.errors[..|st.errors|] == st.errors
  }

  /** A token that is classified as a positional value: not empty and not
      starting with a dash. */
  predicate IsPositional(token: string) {
    token != "" && token[0] != '-'
  }

  /** Lower-casing of one character; only ASCII letters change. */
  function LowerChar(c: char): char {
    if 'A' <= c <= 'Z' then (c as int + 32) as char else c
  }

  function ToLower(s: string): (r: string)
    ensures |r| == |s|
    ensures forall i :: 0 <= i < |s| ==> r[i] == LowerChar(s[i])
  {
    if s == [] then [] else [LowerChar(s[0])] + ToLower(s[1..])
  }

  /** Case-insensitive equality of two names. */
  predicate SameName(a: string, b: string) {
    ToLower(a) == ToLower(b)
  }

  /** Position of the first occurrence of c in s, or -1 when there is none. */
  function IndexOf(s: string, c: char): (r: int)
    ensures -1 <= r < |s|
    ensures r == -1 <==> c !in s
    ensures 0 <= r ==> s[r] == c && c !in s[..r]
  {
    if s == [] then -1
    else if s[0] == c then 0
    else
      var k := IndexOf(s[1..], c);
      if k == -1 then -1 else k + 1
  }

  function DigitChar(d: nat): (c: char)
    requires d < 10
    ensures '0' <= c <= '9' && c as int - '0' as int == d
  {
    "0123456789"[d]
  }

  /** The number a string of decimal digits stands for. */
  function DigitsValue(s: string): nat
    requires forall i :: 0 <= i < |s| ==> '0' <= s[i] <= '9'
  {
    if s == [] then 0 else 10 * DigitsValue(s[..|s| - 1]) + (s[|s| - 1] as int - '0' as int)
  }

  /** Decimal notation of a natural number: digits only, no leading zero,
      and standing for the number itself. */
  function NatToString(n: nat): (r: string)
    ensures r != []
    ensures forall i :: 0 <= i < |r| ==> '0' <= r[i] <= '9'
    ensures r[0] == '0' ==> r == "0"
    ensures DigitsValue(r) == n
  {
    if n < 10 then [DigitChar(n)]
    else
      var p, d := NatToString(n / 10), DigitChar(n % 10);
      assert (p + [d])[..|p|] == p;
      assert n == 10 * (n / 10) + n % 10;
      p + [d]
  }
}
