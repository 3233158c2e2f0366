/** The request handed to a command: its accessors and its format validators. */
module Request {
  import opened Base
  import opened Errors

  /** The validators that are pure string or integer checks. */
  datatype CliFormat =
    | Any
    | Integer
    | Boolean
    | Email
    | StringRange(startLen: nat, endLen: nat)     // half-open range of UTF-8 byte lengths
    | IntegerRange(start: int, end: int)          // half-open range of i64 values
    | OneOf(options: seq<string>)

  /** `Result<(), CliError>`. */
  datatype Outcome = Pass | Fail(error: CliError)

  const MinI64: int := -0x8000_0000_0000_0000
  const MaxI64: int := 0x7FFF_FFFF_FFFF_FFFF

  const BooleanWords: seq<string> := ["true", "false", "1", "0", "yes", "no"]

  /** Rust's `str::parse::<i64>`: an optional `+` or `-`, then one or more ASCII digits,
      and a value that fits in 64 signed bits. */
  function ParseI64(s: string): (r: Option<int>)
    ensures r.Some? ==> MinI64 <= r.value <= MaxI64
    ensures r.Some? ==> exists k :: 0 <= k < |s| && IsDigit(s[k])
    ensures r.Some? ==> forall k :: 1 <= k < |s| ==> IsDigit(s[k])
  {
    var negative := |s| > 0 && s[0] == '-';
    var digits := if |s| > 0 && (s[0] == '-' || s[0] == '+') then s[1..] else s;
    if |digits| == 0 || !AllDigits(digits) then None
    else
      assert IsDigit(s[|s| - 1]) by { assert s[|s| - 1] == digits[|digits| - 1]; }
      var v := if negative then -(DigitsValue(digits) as int) else DigitsValue(digits);
      if MinI64 <= v <= MaxI64 then Some(v) else None
  }

  /** Every 64-bit integer parses back from its decimal rendering. */
  lemma ParseI64RoundTrip(n: int)
    requires MinI64 <= n <= MaxI64
    ensures ParseI64(IntToString(n)) == Some(n)
  {
    var s := IntToString(n);
    if n < 0 {
      var d := NatToString(-n);
      NatToStringRoundTrip(-n);
      assert s == "-" + d;
      assert s[0] == '-' && s[1..] == d;
      assert -(DigitsValue(d) as int) == n;
    } else {
      var d := NatToString(n);
      NatToStringRoundTrip(n);
      assert s == d;
      assert IsDigit(s[0]);
      assert DigitsValue(d) == n;
    }
  }

  /** The number of bytes a character takes in UTF-8. */
  function Utf8Width(c: char): (n: nat)
    ensures 1 <= n <= 4
  {
    if c as int < 0x80 then 1 else if c as int < 0x800 then 2 else if c as int < 0x1_0000 then 3 else 4
  }

  /** `str::len`: the length of the UTF-8 encoding, in bytes. */
  function Utf8Len(s: string): (n: nat)
    ensures |s| <= n <= 4 * |s|
  {
    if s == [] then 0 else Utf8Width(s[0]) + Utf8Len(s[1..])
  }

  /** On ASCII text, the byte length is the character count. */
  lemma {:induction false} Utf8LenAscii(s: string)
    requires forall k :: 0 <= k < |s| ==> s[k] as int < 0x80
    ensures Utf8Len(s) == |s|
  {
    if s != [] {
      Utf8LenAscii(s[1..]);
    }
  }

  function ExpectedParamText(pos: nat): string
  {
    "Expected parameter at position " + NatToString(pos)
  }

  function ExpectedIntegerText(arg: string): string
  {
    "Expected integer, got '" + arg + "'"
  }

  datatype CliRequest = CliRequest(
    cmdAlias: string,
    isHelp: bool,
    args: seq<string>,
    flags: seq<string>,
    flagValues: map<string, string>,
    shortcuts: seq<string>)
  {
    /** `require_params`: at least `num` positional arguments. */
    function RequireParams(num: nat): (r: Outcome)
      ensures r.Pass? <==> |args| >= num
      ensures r.Fail? ==> r.error == MissingParams
    {
      if |args| >= num then Pass else Fail(MissingParams)
    }

    /** `has_flag`: the flag was given as a boolean flag or with a value. */
    predicate HasFlag(flag: string): (r: bool)
      ensures r <==> flag in flags || GetFlag(flag).Some?
    {
      flag in flags || flag in flagValues
    }

    /** `require_flag`. */
    function RequireFlag(flag: string): (r: Outcome)
      ensures r.Pass? <==> (exists k :: 0 <= k < |flags| && flags[k] == flag) || flag in flagValues
      ensures r.Fail? ==> r.error == MissingFlag(flag)
    {
      if HasFlag(flag) then Pass else Fail(MissingFlag(flag))
    }

    /** `get_flag`: the value given with a flag. */
    function GetFlag(flag: string): (r: Option<string>)
      ensures r.Some? <==> flag in flagValues
      ensures r.Some? ==> r.value == flagValues[flag]
    {
      if flag in flagValues then Some(flagValues[flag]) else None
    }

    /** `validate_flag`: the flag's value, checked as the parameter at position 0. */
    function ValidateFlag(flag: string, format: CliFormat): (r: Outcome)
      ensures flag !in flagValues ==> r == Fail(MissingFlag(flag))
      ensures flag in flagValues ==> r == Validate(0, flagValues[flag], format)
    {
      match GetFlag(flag)
      case None => Fail(MissingFlag(flag))
      case Some(value) => Validate(0, value, format)
    }

    /** `validate`: one value against one format; a failure names the position. */
    function Validate(pos: nat, arg: string, format: CliFormat): (r: Outcome)
      ensures r.Fail? ==> r.error.InvalidParam? && r.error.pos == pos
      ensures format.Any? ==> r.Pass?
      ensures format.Integer? ==> (r.Pass? <==> ParseI64(arg).Some?)
      ensures format.Boolean? ==> (r.Pass? <==> Lower(arg) in BooleanWords)
      ensures format.Email? ==> (r.Pass? <==> '@' in arg && '.' in arg)
      ensures format.StringRange? ==> (r.Pass? <==> format.startLen <= Utf8Len(arg) < format.endLen)
      ensures format.IntegerRange? ==>
        (r.Pass? <==> ParseI64(arg).Some? && format.start <= ParseI64(arg).value < format.end)
      ensures (format.Integer? || format.IntegerRange?) && ParseI64(arg).None? ==>
        r == Fail(InvalidParam(pos, ExpectedIntegerText(arg)))
      ensures format.OneOf? ==> (r.Pass? <==> arg in format.options)
    {
      match format
      case Any => Pass
      case Integer =>
        if ParseI64(arg).None? then Fail(InvalidParam(pos, ExpectedIntegerText(arg))) else Pass
      case Boolean =>
        if Lower(arg) !in BooleanWords then
          Fail(InvalidParam(pos, "Expected boolean (true/false/yes/no/1/0), got '" + arg + "'"))
        else Pass
      case Email =>
        if '@' !in arg || '.' !in arg then Fail(InvalidParam(pos, "Expected valid email, got '" + arg + "'"))
        else Pass
      case StringRange(startLen, endLen) =>
        var len := Utf8Len(arg);
        if !(startLen <= len < endLen) then
          Fail(InvalidParam(pos, "String length must be between " + NatToString(startLen) + " and "
            + NatToString(endLen) + ", got length " + NatToString(len)))
        else Pass
      case IntegerRange(start, end) =>
        var parsed := ParseI64(arg);
        if parsed.None? then Fail(InvalidParam(pos, ExpectedIntegerText(arg)))
        else if !(start <= parsed.value < end) then
          Fail(InvalidParam(pos, "Integer must be between " + IntToString(start) + " and "
            + IntToString(end) + ", got " + IntToString(parsed.value)))
        else Pass
      case OneOf(options) =>
        if arg !in options then
          Fail(InvalidParam(pos, "Expected one of (" + Join(options, " / ") + "), got '" + arg + "'"))
        else Pass
    }

    /** What `validate_params` checks at position `i`: the argument there, or its absence. */
    function ParamCheck(formats: seq<CliFormat>, i: nat): Outcome
      requires i < |formats|
    {
      if i < |args| then Validate(i, args[i], formats[i])
      else Fail(InvalidParam(i, ExpectedParamText(i)))
    }

    /** `validate_params`: the formats in index order, stopping at the first failure. */
    method ValidateParams(formats: seq<CliFormat>) returns (r: Outcome)
      ensures r.Pass? <==> forall i :: 0 <= i < |formats| ==> ParamCheck(formats, i).Pass?
      ensures r.Pass? ==> |args| >= |formats|
      ensures r.Fail? ==> exists k :: 0 <= k < |formats| && r == ParamCheck(formats, k)
                                     && forall i :: 0 <= i < k ==> ParamCheck(formats, i).Pass?
      ensures r.Fail? ==> r.error.InvalidParam?
      ensures |args| < |formats| && (forall i :: 0 <= i < |args| ==> ParamCheck(formats, i).Pass?) ==>
                r == Fail(InvalidParam(|args|, ExpectedParamText(|args|)))
    {
      for pos := 0 to |formats|
        invariant pos <= |args|
        invariant forall i :: 0 <= i < pos ==> ParamCheck(formats, i).Pass?
      {
        if pos >= |args| {
          assert ParamCheck(formats, pos) == Fail(InvalidParam(pos, ExpectedParamText(pos)));
          return Fail(InvalidParam(pos, ExpectedParamText(pos)));
        }
        var checked := Validate(pos, args[pos], formats[pos]);
        if checked.Fail? {
          assert ParamCheck(formats, pos) == checked;
          return checked;
        }
      }
      return Pass;
    }
  }

  /** The boolean check ignores letter case. */
  lemma BooleanIgnoresCase(req: CliRequest, pos: nat, arg: string)
    ensures req.Validate(pos, arg, Boolean).Pass? <==> req.Validate(pos, Lower(arg), Boolean).Pass?
  {
    LowerIsLower(arg);
  }

  /** Every 64-bit integer, written in decimal, passes the integer check, and the range
      check exactly when it lies in the range. */
  lemma IntegerAcceptsRendering(req: CliRequest, pos: nat, n: int, start: int, end: int)
    requires MinI64 <= n <= MaxI64
    ensures req.Validate(pos, IntToString(n), Integer).Pass?
    ensures req.Validate(pos, IntToString(n), IntegerRange(start, end)).Pass? <==> start <= n < end
  {
    ParseI64RoundTrip(n);
  }
}
