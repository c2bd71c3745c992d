/**
 * CommandHandler.Execute: one parsed command to one response line.
 *
 * The bank behind IBankService is an object whose every answer may depend on
 * all the calls made to it before (any sequential implementation); the proxy
 * to other nodes is a function from (ip, raw line) to the reply line, which
 * may be one of the proxy's own "ER Proxy ..." lines. The dispatcher is split
 * into Decide, which says what a command leads to (a fixed reply, one bank
 * call, or forwarding), Render, which turns a bank outcome into the reply,
 * and Execute, which carries the decision out.
 */
module CommandHandler {
  import opened Wrappers
  import opened Text
  import opened Numerals
  import opened Commands
  import opened CommandParser

  /** The IBankService methods the dispatcher calls, with their arguments. */
  datatype BankCall =
    | CreateAccount
    | Deposit(account: Int32, bankIp: string, amount: Int64)
    | Withdraw(account: Int32, bankIp: string, amount: Int64)
    | GetAccountBalance(account: Int32, bankIp: string)
    | RemoveAccount(account: Int32, bankIp: string)
    | GetTotalBalance
    | GetAccountCount

  /** What a bank method returns when it returns normally. */
  datatype BankValue =
    | Done
    | Number(n: int)
    | NewAccount(account: Int32, bankIp: string)

  /** How a bank method ends: a value, or one of the exception families the
      dispatcher tells apart (ArgumentException and its subclasses,
      InvalidOperationException, anything else). */
  datatype BankOutcome =
    | Ok(value: BankValue)
    | ArgumentError(message: string)
    | InvalidOperation(message: string)
    | OtherFailure

  /** A normal return has the shape of the method's return type in IBankService. */
  predicate Fits(call: BankCall, outcome: BankOutcome) {
    outcome.Ok? ==>
      match call
      case CreateAccount => outcome.value.NewAccount?
      case GetAccountBalance(_, _) =>
        outcome.value.Number? && Int64Min <= outcome.value.n <= Int64Max
      case GetTotalBalance =>
        outcome.value.Number? && Int64Min <= outcome.value.n <= Int64Max
      case GetAccountCount =>
        outcome.value.Number? && Int32Min <= outcome.value.n <= Int32Max
      case _ => outcome.value.Done?
  }

  /** The bank that fails every call. */
  function Unavailable(history: seq<BankCall>, call: BankCall): BankOutcome {
    OtherFailure
  }

  /** A bank's behaviour: its outcome for a call, given the calls made before. */
  type Answer = f: (seq<BankCall>, BankCall) -> BankOutcome | forall h, c :: Fits(c, f(h, c))
    witness Unavailable

  /** The IBankService instance: the calls made to it so far, and how it answers. */
  class Bank {
    var history: seq<BankCall>
    const answer: Answer

    constructor(answer: Answer)
      ensures this.answer == answer && history == []
    {
      this.answer := answer;
      history := [];
    }

    /** One call: the outcome depends on the history, and the call joins it. */
    method Call(call: BankCall) returns (outcome: BankOutcome)
      modifies this
      ensures outcome == answer(old(history), call) && Fits(call, outcome)
      ensures history == old(history) + [call]
    {
      outcome := answer(history, call);
      history := history + [call];
    }
  }

  /** RequireAccIp: account and address present and not blank, and the account
      an int; otherwise the ArgumentException message. */
  function RequireAccIp(cmd: ParsedCommand): (r: Result<(Int32, string), string>)
    ensures r.Success? <==>
      && cmd.account.Some? && !IsBlank(cmd.account.value)
      && cmd.bankIp.Some? && !IsBlank(cmd.bankIp.value)
      && TryParseInt32(cmd.account.value).Some?
    ensures r.Success? ==>
      r.value == (TryParseInt32(cmd.account.value).value, cmd.bankIp.value)
    ensures r.Failure? ==>
      (r.error == "Invalid parameters" <==>
        cmd.account.None? || IsBlank(cmd.account.value) || cmd.bankIp.None? || IsBlank(cmd.bankIp.value))
    ensures r.Failure? ==> r.error in {"Invalid parameters", "Invalid account number"}
  {
    if cmd.account.None? || IsBlank(cmd.account.value) || cmd.bankIp.None? || IsBlank(cmd.bankIp.value) then
      Failure("Invalid parameters")
    else match TryParseInt32(cmd.account.value)
      case None => Failure("Invalid account number")
      case Some(acc) => Success((acc, cmd.bankIp.value))
  }

  /** RequireAccIpAmount: RequireAccIp, then an amount must be present. */
  function RequireAccIpAmount(cmd: ParsedCommand): (r: Result<(Int32, string, Int64), string>)
    ensures r.Success? <==> RequireAccIp(cmd).Success? && cmd.amount.Some?
    ensures r.Success? ==>
      r.value == (RequireAccIp(cmd).value.0, RequireAccIp(cmd).value.1, cmd.amount.value)
    ensures r.Failure? ==>
      r.error == if RequireAccIp(cmd).Failure? then RequireAccIp(cmd).error else "Missing amount"
  {
    match RequireAccIp(cmd)
    case Failure(e) => Failure(e)
    case Success((acc, ip)) =>
      if cmd.amount.None? then Failure("Missing amount") else Success((acc, ip, cmd.amount.value))
  }

  /** What a command leads to: a reply with no bank call, one bank call, or
      the raw line forwarded to another node. */
  datatype Plan =
    | Reply(line: string)
    | Call(call: BankCall)
    | Forward(ip: string, rawLine: string)

  /** The codes HandleLocalOrProxy routes by address. */
  predicate IsRoutedCode(code: CommandCode) {
    code == AD || code == AW || code == AB
  }

  /** The bank method each code calls. */
  predicate CallOf(code: CommandCode, call: BankCall) {
    match code
    case AC => call.CreateAccount?
    case AD => call.Deposit?
    case AW => call.Withdraw?
    case AB => call.GetAccountBalance?
    case AR => call.RemoveAccount?
    case BA => call.GetTotalBalance?
    case BN => call.GetAccountCount?
    case _ => false
  }

  /** The code whose command makes the call. */
  function CodeOf(call: BankCall): (code: CommandCode)
    ensures CallOf(code, call)
    ensures code != BC && code != Unknown
  {
    match call
    case CreateAccount => AC
    case Deposit(_, _, _) => AD
    case Withdraw(_, _, _) => AW
    case GetAccountBalance(_, _) => AB
    case RemoveAccount(_, _) => AR
    case GetTotalBalance => BA
    case GetAccountCount => BN
  }

  /** HandleLocalOrProxy: the address is validated first; the local plan runs
      only for the node's own address, any other address gets the raw line. */
  function HandleLocalOrProxy(cmd: ParsedCommand, localIp: string, local: Plan): (p: Plan)
    ensures RequireAccIp(cmd).Failure? ==> p == Reply("ER " + RequireAccIp(cmd).error)
    ensures RequireAccIp(cmd).Success? && cmd.bankIp.value == localIp ==> p == local
    ensures RequireAccIp(cmd).Success? && cmd.bankIp.value != localIp ==>
      p == Forward(cmd.bankIp.value, cmd.rawLine)
  {
    match RequireAccIp(cmd)
    case Failure(e) => Reply("ER " + e)
    case Success((_, ip)) => if ip == localIp then local else Forward(ip, cmd.rawLine)
  }

  /** The local branch of AD and AW. */
  function AmountPlan(cmd: ParsedCommand): (p: Plan)
    requires cmd.code == AD || cmd.code == AW
    ensures p.Call? <==> RequireAccIpAmount(cmd).Success?
    ensures p.Call? ==> CallOf(cmd.code, p.call)
    ensures !p.Call? ==> p == Reply("ER " + RequireAccIpAmount(cmd).error)
  {
    match RequireAccIpAmount(cmd)
    case Failure(e) => Reply("ER " + e)
    case Success((a, ip, amount)) =>
      if cmd.code == AD then Call(Deposit(a, ip, amount)) else Call(Withdraw(a, ip, amount))
  }

  /** The branch of AB and AR that reaches the bank. */
  function AccountPlan(cmd: ParsedCommand): (p: Plan)
    requires cmd.code == AB || cmd.code == AR
    ensures p.Call? <==> RequireAccIp(cmd).Success?
    ensures p.Call? ==> CallOf(cmd.code, p.call)
    ensures !p.Call? ==> p == Reply("ER " + RequireAccIp(cmd).error)
  {
    match RequireAccIp(cmd)
    case Failure(e) => Reply("ER " + e)
    case Success((a, ip)) =>
      if cmd.code == AB then Call(GetAccountBalance(a, ip)) else Call(RemoveAccount(a, ip))
  }

  /** The switch of Execute, up to the bank call. */
  function Decide(cmd: ParsedCommand, localIp: string): (p: Plan)
    ensures p.Call? ==> CallOf(cmd.code, p.call)
    ensures p.Forward? <==>
      IsRoutedCode(cmd.code) && RequireAccIp(cmd).Success? && cmd.bankIp.value != localIp
    ensures p.Forward? ==> p == Forward(cmd.bankIp.value, cmd.rawLine)
    ensures cmd.code == AC || cmd.code == BA || cmd.code == BN ==> p.Call?
  {
    match cmd.code
    case BC => Reply("BC " + localIp)
    case AC => Call(CreateAccount)
    case AD => HandleLocalOrProxy(cmd, localIp, AmountPlan(cmd))
    case AW => HandleLocalOrProxy(cmd, localIp, AmountPlan(cmd))
    case AB => HandleLocalOrProxy(cmd, localIp, AccountPlan(cmd))
    case AR => AccountPlan(cmd)
    case BA => Call(GetTotalBalance)
    case BN => Call(GetAccountCount)
    case Unknown => Reply("ER Unknown command")
  }

  /** The reply for a bank call's outcome: the code's success line, or the
      exception caught by Execute. */
  function Render(call: BankCall, outcome: BankOutcome): (line: string)
    requires Fits(call, outcome)
    ensures outcome.ArgumentError? ==> line == "ER " + outcome.message
    ensures outcome.InvalidOperation? ==> line == "ER " + outcome.message
    ensures outcome.OtherFailure? ==> line == "ER Internal error"
  {
    match outcome
    case ArgumentError(m) => "ER " + m
    case InvalidOperation(m) => "ER " + m
    case OtherFailure => "ER Internal error"
    case Ok(v) =>
      match call
      case CreateAccount => "AC " + (DecimalString(v.account) + "/" + v.bankIp)
      case Deposit(_, _, _) => "AD"
      case Withdraw(_, _, _) => "AW"
      case GetAccountBalance(_, _) => "AB " + DecimalString(v.n)
      case RemoveAccount(_, _) => "AR"
      case GetTotalBalance => "BA " + DecimalString(v.n)
      case GetAccountCount => "BN " + DecimalString(v.n)
  }

  /** Execute: carries out the decision; nothing escapes as a failure. */
  method Execute(cmd: ParsedCommand, localIp: string, bank: Bank, forward: (string, string) -> string)
    returns (reply: string)
    modifies bank
    ensures match Decide(cmd, localIp)
      case Reply(line) => reply == line && bank.history == old(bank.history)
      case Call(call) =>
        && bank.history == old(bank.history) + [call]
        && reply == Render(call, bank.answer(old(bank.history), call))
      case Forward(ip, rawLine) => reply == forward(ip, rawLine) && bank.history == old(bank.history)
  {
    var plan := Decide(cmd, localIp);
    match plan
    case Reply(line) =>
      reply := line;
    case Call(call) =>
      var outcome := bank.Call(call);
      reply := Render(call, outcome);
    case Forward(ip, rawLine) =>
      reply := forward(ip, rawLine);
  }
}

/** What the dispatcher promises, stated over commands and over whole lines. */
module CommandHandlerProperties {
  import opened Wrappers
  import opened Text
  import opened Numerals
  import opened Commands
  import opened CommandParser
  import opened CommandParserProperties
  import opened CommandHandler

  /** A reply line that reports an error. */
  predicate IsErrorLine(line: string) {
    |line| >= 3 && line[0] == 'E' && line[1] == 'R' && line[2] == ' '
  }

  /** A call is made by one code only. */
  lemma CallOfUnique(code: CommandCode, call: BankCall)
    ensures CallOf(code, call) <==> code == CodeOf(call)
  {
  }

  /** BC answers with this node's address, without the bank or another node. */
  lemma BroadcastReply(cmd: ParsedCommand, localIp: string)
    requires cmd.code == BC
    ensures Decide(cmd, localIp) == Reply("BC " + localIp)
  {
  }

  /** The default branch refuses the command, without the bank or another node. */
  lemma UnknownReply(cmd: ParsedCommand, localIp: string)
    requires cmd.code == Unknown
    ensures Decide(cmd, localIp) == Reply("ER Unknown command")
  {
  }

  /** A normal return is answered by the name of the code that made the call:
      alone for AD, AW and AR, followed by a space and the value otherwise. */
  lemma RenderOkCode(call: BankCall, outcome: BankOutcome)
    requires Fits(call, outcome) && outcome.Ok?
    ensures call.Deposit? || call.Withdraw? || call.RemoveAccount? ==>
      Render(call, outcome) == CodeName(CodeOf(call))
    ensures !(call.Deposit? || call.Withdraw? || call.RemoveAccount?) ==>
      |Render(call, outcome)| > 3 && Render(call, outcome) == CodeName(CodeOf(call)) + " " + Render(call, outcome)[3..]
  {
  }

  /** The number in an AB, BA or BN reply reads back as the value the bank returned. */
  lemma RenderNumberReadsBack(call: BankCall, outcome: BankOutcome)
    requires Fits(call, outcome) && outcome.Ok?
    requires call.GetAccountBalance? || call.GetTotalBalance? || call.GetAccountCount?
    ensures |Render(call, outcome)| > 3
    ensures call.GetAccountCount? ==> TryParseInt32(Render(call, outcome)[3..]) == Some(outcome.value.n)
    ensures !call.GetAccountCount? ==> TryParseInt64(Render(call, outcome)[3..]) == Some(outcome.value.n)
  {
    var line := Render(call, outcome);
    assert line[3..] == DecimalString(outcome.value.n);
    if call.GetAccountCount? {
      ParseInt32DecimalString(outcome.value.n);
    } else {
      ParseInt64DecimalString(outcome.value.n);
    }
  }

  /** The AC reply splits at its first '/' into the new account, which reads
      back as that int, and the bank address. */
  lemma RenderCreatedReadsBack(n: Int32, ip: string)
    requires ip != [] && ip[0] != '/'
    ensures |Render(CreateAccount, Ok(NewAccount(n, ip)))| > 3
    ensures SplitPair(Render(CreateAccount, Ok(NewAccount(n, ip)))[3..], '/') == [DecimalString(n), ip]
    ensures TryParseInt32(DecimalString(n)) == Some(n)
  {
    var line := Render(CreateAccount, Ok(NewAccount(n, ip)));
    assert line[3..] == DecimalString(n) + "/" + ip;
    DecimalStringPlain(n);
    SplitAccountPair(DecimalString(n), ip);
    ParseInt32DecimalString(n);
  }

  /** A bank call's reply is an error line exactly when the call did not return normally. */
  lemma RenderErrorIff(call: BankCall, outcome: BankOutcome)
    requires Fits(call, outcome)
    ensures IsErrorLine(Render(call, outcome)) <==> !outcome.Ok?
  {
  }

  /** A reply decided without the bank or another node is an error line,
      unless the command is BC. */
  lemma RepliesAreErrors(cmd: ParsedCommand, localIp: string)
    requires Decide(cmd, localIp).Reply?
    ensures IsErrorLine(Decide(cmd, localIp).line) <==> cmd.code != BC
  {
  }

  /** For AD, AW, AB and AR the account and address are checked before the
      address is looked at: a bad pair is refused whatever the address. */
  lemma ValidatedBeforeRouting(cmd: ParsedCommand, localIp: string)
    requires IsRoutedCode(cmd.code) || cmd.code == AR
    requires RequireAccIp(cmd).Failure?
    ensures Decide(cmd, localIp) == Reply("ER " + RequireAccIp(cmd).error)
  {
  }

  /** AR runs on this node's bank whatever the address. */
  lemma RemoveIsLocal(cmd: ParsedCommand, localIp: string)
    requires cmd.code == AR && RequireAccIp(cmd).Success?
    ensures Decide(cmd, localIp)
         == Call(RemoveAccount(RequireAccIp(cmd).value.0, RequireAccIp(cmd).value.1))
  {
  }

  /** A local AD or AW without an amount is refused before the bank is called. */
  lemma MissingAmountLocal(cmd: ParsedCommand, acc: Int32, ip: string)
    requires cmd.code == AD || cmd.code == AW
    requires RequireAccIp(cmd) == Success((acc, ip)) && cmd.amount.None?
    ensures Decide(cmd, ip) == Reply("ER Missing amount")
  {
    LocalRoute(cmd, acc, ip);
    MissingAmountPlan(cmd);
  }

  /** A valid pair for this node's own address takes AD and AW to their local branch. */
  lemma LocalRoute(cmd: ParsedCommand, acc: Int32, ip: string)
    requires cmd.code == AD || cmd.code == AW
    requires RequireAccIp(cmd) == Success((acc, ip))
    ensures Decide(cmd, ip) == AmountPlan(cmd)
  {
  }

  lemma MissingAmountPlan(cmd: ParsedCommand)
    requires cmd.code == AD || cmd.code == AW
    requires RequireAccIp(cmd).Success? && cmd.amount.None?
    ensures AmountPlan(cmd) == Reply("ER Missing amount")
  {
    assert RequireAccIpAmount(cmd) == Failure("Missing amount");
    MissingAmountLine();
  }

  lemma MissingAmountLine()
    ensures "ER " + "Missing amount" == "ER Missing amount"
  {
  }

  /** A command the parser produced never lacks its amount at the bank. */
  lemma ParsedNeverMissingAmount(line: Option<string>, localIp: string)
    requires Parse(line).ok
    ensures Decide(Parse(line).command.value, localIp) != Reply("ER Missing amount")
  {
    var r := Parse(line);
    assert WellFormed(r, Trim(line.value));
    NoMissingAmount(r.command.value, localIp);
  }

  /** Only an AD or AW without an amount is refused for a missing amount. */
  lemma NoMissingAmount(cmd: ParsedCommand, localIp: string)
    requires IsAmountCode(cmd.code) ==> cmd.amount.Some?
    ensures Decide(cmd, localIp) != Reply("ER Missing amount")
  {
    if IsRoutedCode(cmd.code) || cmd.code == AR {
      if RequireAccIp(cmd).Failure? {
        ValidatedBeforeRouting(cmd, localIp);
        ValidationLineNotMissing(RequireAccIp(cmd).error);
      } else {
        ValidRoutedNotReply(cmd, localIp);
      }
    } else if cmd.code == BC {
      BroadcastReply(cmd, localIp);
      assert ("BC " + localIp)[0] == 'B';
    }
  }

  lemma ValidationLineNotMissing(e: string)
    requires e in {"Invalid parameters", "Invalid account number"}
    ensures "ER " + e != "ER Missing amount"
  {
    assert ("ER " + e)[3..] == e;
  }

  /** A validated AD, AW, AB or AR with its amount reaches the bank or another node. */
  lemma ValidRoutedNotReply(cmd: ParsedCommand, localIp: string)
    requires IsRoutedCode(cmd.code) || cmd.code == AR
    requires IsAmountCode(cmd.code) ==> cmd.amount.Some?
    requires RequireAccIp(cmd).Success?
    ensures !Decide(cmd, localIp).Reply?
  {
    if cmd.code == AD || cmd.code == AW {
      assert RequireAccIpAmount(cmd).Success?;
    }
  }

  /** The account text of a rendered number is a valid account token. */
  lemma AccountText(n: Int32, ip: string)
    requires ip != [] && ip[0] != '/' && forall i | 0 <= i < |ip| :: !IsWhiteSpace(ip[i])
    ensures AccountPairShape(DecimalString(n), ip)
    ensures !IsBlank(DecimalString(n)) && !IsBlank(ip)
    ensures TryParseInt32(DecimalString(n)) == Some(n)
  {
    var d := DecimalString(n);
    DecimalStringPlain(n);
    SpaceFree(d);
    SpaceFree(ip);
    assert !IsWhiteSpace(d[0]) && !IsWhiteSpace(ip[0]);
    ParseInt32DecimalString(n);
  }

  /** A deposit or withdrawal line, end to end: "AD <n>/<ip> <amount>", with
      the code in any letter case, is parsed, and the node's own address
      reaches the bank with exactly those values while any other address
      forwards the line unchanged. */
  lemma AmountLineRouting(word: string, code: CommandCode, n: Int32, ip: string, amount: Int64, localIp: string, line: string)
    requires (code == AD || code == AW) && ToUpper(word) == CodeName(code)
    requires ip != [] && ip[0] != '/' && forall i | 0 <= i < |ip| :: !IsWhiteSpace(ip[i])
    requires line == word + " " + (DecimalString(n) + "/" + ip) + " " + DecimalString(amount)
    ensures Parse(Some(line)).ok
    ensures Decide(Parse(Some(line)).command.value, localIp)
         == if ip != localIp then Forward(ip, line)
            else if code == AD then Call(Deposit(n, ip, amount))
            else Call(Withdraw(n, ip, amount))
  {
    AccountText(n, ip);
    CodeWord(word, code);
    ParseAmountCommand(word, code, DecimalString(n), ip, amount);
    var cmd := ParsedCommand(code, line, Some(DecimalString(n)), Some(ip), Some(amount));
    assert Parse(Some(line)) == Succeed(cmd);
    ValidPair(cmd, n, ip);
    DecideAmount(cmd, n, ip, amount, localIp);
  }

  /** An account and address that pass RequireAccIp. */
  lemma ValidPair(cmd: ParsedCommand, n: Int32, ip: string)
    requires cmd.account == Some(DecimalString(n)) && cmd.bankIp == Some(ip)
    requires !IsBlank(DecimalString(n)) && !IsBlank(ip) && TryParseInt32(DecimalString(n)) == Some(n)
    ensures RequireAccIp(cmd) == Success((n, ip))
  {
  }

  lemma DecideAmount(cmd: ParsedCommand, n: Int32, ip: string, amount: Int64, localIp: string)
    requires (cmd.code == AD || cmd.code == AW) && cmd.amount == Some(amount)
    requires RequireAccIp(cmd) == Success((n, ip)) && cmd.bankIp == Some(ip)
    ensures Decide(cmd, localIp)
         == if ip != localIp then Forward(ip, cmd.rawLine)
            else if cmd.code == AD then Call(Deposit(n, ip, amount))
            else Call(Withdraw(n, ip, amount))
  {
  }

  lemma DecideAccount(cmd: ParsedCommand, n: Int32, ip: string, localIp: string)
    requires (cmd.code == AB || cmd.code == AR)
    requires RequireAccIp(cmd) == Success((n, ip)) && cmd.bankIp == Some(ip)
    ensures Decide(cmd, localIp)
         == if cmd.code == AR then Call(RemoveAccount(n, ip))
            else if ip != localIp then Forward(ip, cmd.rawLine)
            else Call(GetAccountBalance(n, ip))
  {
  }

  /** A balance or removal line, end to end: AB is answered here only for the
      node's own address, AR always reaches this node's bank. */
  lemma AccountLineRouting(word: string, code: CommandCode, n: Int32, ip: string, localIp: string, line: string)
    requires (code == AB || code == AR) && ToUpper(word) == CodeName(code)
    requires ip != [] && ip[0] != '/' && forall i | 0 <= i < |ip| :: !IsWhiteSpace(ip[i])
    requires line == word + " " + (DecimalString(n) + "/" + ip)
    ensures Parse(Some(line)).ok
    ensures Decide(Parse(Some(line)).command.value, localIp)
         == if code == AR then Call(RemoveAccount(n, ip))
            else if ip != localIp then Forward(ip, line)
            else Call(GetAccountBalance(n, ip))
  {
    AccountText(n, ip);
    CodeWord(word, code);
    assert !IsWhiteSpace(ip[|ip| - 1]);
    ParseAccountCommand(word, code, DecimalString(n), ip);
    var cmd := ParsedCommand(code, line, Some(DecimalString(n)), Some(ip), None);
    assert Parse(Some(line)) == Succeed(cmd);
    ValidPair(cmd, n, ip);
    DecideAccount(cmd, n, ip, localIp);
  }

  /** The account an AC reply names can be used as it stands: "AB" followed by
      the reply's token asks this node's bank for that very account. */
  lemma CreatedAccountUsable(n: Int32, ip: string)
    requires ip != [] && ip[0] != '/' && forall i | 0 <= i < |ip| :: !IsWhiteSpace(ip[i])
    ensures Render(CreateAccount, Ok(NewAccount(n, ip))) == "AC " + (DecimalString(n) + "/" + ip)
    ensures Parse(Some("AB " + (DecimalString(n) + "/" + ip))).ok
    ensures Decide(Parse(Some("AB " + (DecimalString(n) + "/" + ip))).command.value, ip)
         == Call(GetAccountBalance(n, ip))
  {
    assert ToUpper("AB") == CodeName(AB);
    AccountLineRouting("AB", AB, n, ip, ip, "AB " + (DecimalString(n) + "/" + ip));
  }
}
