/**
 * The protocol's value types: the command codes, a parsed command and the
 * parser's result record.
 */
module Commands {
  import opened Wrappers
  import opened Text
  import opened Numerals

  /** CommandCodeEnum, in declaration order. */
  datatype CommandCode = BC | AC | AD | AW | AB | AR | BA | BN | Unknown

  /** The member name of a code. */
  function CodeName(code: CommandCode): string {
    match code
    case BC => "BC"
    case AC => "AC"
    case AD => "AD"
    case AW => "AW"
    case AB => "AB"
    case AR => "AR"
    case BA => "BA"
    case BN => "BN"
    case Unknown => "Unknown"
  }

  /** Enum.TryParse<CommandCodeEnum>(name, out code), on member names: a
      case-sensitive match against the names of the nine members. */
  function LookupCode(name: string): (r: Option<CommandCode>)
    ensures r.Some? ==> CodeName(r.value) == name
    ensures r.None? ==> forall code: CommandCode :: CodeName(code) != name
  {
    if name == "BC" then Some(BC)
    else if name == "AC" then Some(AC)
    else if name == "AD" then Some(AD)
    else if name == "AW" then Some(AW)
    else if name == "AB" then Some(AB)
    else if name == "AR" then Some(AR)
    else if name == "BA" then Some(BA)
    else if name == "BN" then Some(BN)
    else if name == "Unknown" then Some(Unknown)
    else None
  }

  /** Enum.TryParse<CommandCodeEnum>(value, out code) for a value that names a
      member: white space around the name is ignored, the rest must match a
      member name exactly. */
  function ParseCode(value: string): (r: Option<CommandCode>)
    ensures r.Some? ==> CodeName(r.value) == Trim(value)
    ensures r.None? ==> forall code: CommandCode :: CodeName(code) != Trim(value)
  {
    LookupCode(Trim(value))
  }

  /** Every code is found under its own name. */
  lemma LookupCodeName(code: CommandCode)
    ensures LookupCode(CodeName(code)) == Some(code)
  {
  }

  /** A member name has no white space at either end. */
  lemma CodeNameUnpadded(code: CommandCode)
    ensures CodeName(code) != []
    ensures !IsWhiteSpace(CodeName(code)[0]) && !IsWhiteSpace(CodeName(code)[|CodeName(code)| - 1])
  {
  }

  /** Every code is parsed from its own name. */
  lemma ParseCodeName(code: CommandCode)
    ensures ParseCode(CodeName(code)) == Some(code)
  {
    CodeNameUnpadded(code);
    TrimIdentity(CodeName(code));
    LookupCodeName(code);
  }

  /** White space around a member name does not change the code it names. */
  lemma ParseCodePadded(w1: string, code: CommandCode, w2: string)
    requires IsBlank(w1) && IsBlank(w2)
    ensures ParseCode(w1 + CodeName(code) + w2) == Some(code)
  {
    CodeNameUnpadded(code);
    TrimPadded(w1, CodeName(code), w2);
    LookupCodeName(code);
  }

  /** ParsedCommand: the code, the trimmed line as received (for forwarding),
      and the account, bank address and amount where the code takes them. */
  datatype ParsedCommand = ParsedCommand(
    code: CommandCode,
    rawLine: string,
    account: Option<string>,
    bankIp: Option<string>,
    amount: Option<Int64>)

  /** ParseResult: Ok, the command (null on failure) and the error (null on success). */
  datatype ParseResult = ParseResult(ok: bool, command: Option<ParsedCommand>, error: Option<string>)

  function Succeed(command: ParsedCommand): ParseResult {
    ParseResult(true, Some(command), None)
  }

  function Fail(error: string): ParseResult {
    ParseResult(false, None, Some(error))
  }
}
