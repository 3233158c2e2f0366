/** The error type returned by the request validators, and its user-visible text. */
module Errors {
  import opened Base

  datatype CliError =
    | MissingParams
    | MissingFlag(flag: string)
    | InvalidParam(pos: nat, msg: string)
    | Generic(msg: string)

  const MissingParamsText: string := "Missing / invalid parameters.."
  const MissingFlagPrefix: string := "Missing required flag, "
  const InvalidParamPrefix: string := "Invalid parameter at position "

  /** The `Display` text of an error. */
  function Display(e: CliError): (s: string)
    ensures e.MissingParams? ==> s == MissingParamsText
    ensures e.MissingFlag? ==> StartsWith(s, MissingFlagPrefix) && s[|MissingFlagPrefix|..] == e.flag
    ensures e.InvalidParam? ==>
      StartsWith(s, InvalidParamPrefix) && s[|InvalidParamPrefix|..] == NatToString(e.pos) + ": " + e.msg
    ensures e.Generic? ==> s == e.msg
  {
    match e
    case MissingParams => MissingParamsText
    case MissingFlag(flag) => MissingFlagPrefix + flag
    case InvalidParam(pos, msg) => InvalidParamPrefix + NatToString(pos) + ": " + msg
    case Generic(msg) => msg
  }

  /** `From<io::Error>`; an I/O error is represented by its `to_string()` text. */
  function FromIo(ioMessage: string): (e: CliError)
    ensures e.Generic? && Display(e) == ioMessage
  {
    Generic(ioMessage)
  }

  /** The text of a missing-flag error names the flag unambiguously. */
  lemma DisplayMissingFlagInjective(a: string, b: string)
    requires Display(MissingFlag(a)) == Display(MissingFlag(b))
    ensures a == b
  {
    assert a == Display(MissingFlag(a))[|MissingFlagPrefix|..];
  }

  /** The text of an invalid-parameter error determines both its position and its message. */
  lemma DisplayInvalidParamInjective(p1: nat, m1: string, p2: nat, m2: string)
    requires Display(InvalidParam(p1, m1)) == Display(InvalidParam(p2, m2))
    ensures p1 == p2 && m1 == m2
  {
    var s1 := Display(InvalidParam(p1, m1));
    var s2 := Display(InvalidParam(p2, m2));
    assert s1[|InvalidParamPrefix|..] == NatToString(p1) + (": " + m1);
    assert s2[|InvalidParamPrefix|..] == NatToString(p2) + (": " + m2);
    DigitPrefixUnique(NatToString(p1), ": " + m1, NatToString(p2), ": " + m2);
    NatToStringInjective(p1, p2);
    assert m1 == (": " + m1)[2..];
    assert m2 == (": " + m2)[2..];
  }
}
