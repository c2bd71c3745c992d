# BankNodeP2P protocol core, in Dafny

BankNodeP2P is a peer-to-peer bank node. Clients send it one text command per
line: `BC`, `AC`, `AD`, `AW`, `AB`, `AR`, `BA` or `BN`, followed by an
`<account>/<ip>` pair and an amount where the command takes them. The node
answers each line with one line. Commands about an account held by another
node are forwarded to that node verbatim.

This project models three pieces of that engine and proves what they promise.

- **The command parser** (`CommandParser.Parse`). It turns one line into a
  parsed command or an error message.
  - It trims the line, splits it on spaces and upper-cases the first token.
  - It looks that token up as a command code and checks the token count for the code.
  - It splits the `<account>/<ip>` token and reads the amount as a signed 64-bit integer.
  - It is modelled as pure functions (module `CommandParser`), with lemmas about
    whole lines (module `CommandParserProperties`).
  - The .NET string operations it uses are written out in module `Text`:
    `char.IsWhiteSpace`, `Trim`, `Split` with `RemoveEmptyEntries` and `ToUpperInvariant`.
  - The integer conversions are in module `Numerals`: `int.TryParse`,
    `long.TryParse` and `ToString`.
- **The dispatcher** (`CommandHandler.Execute`). It maps a parsed command to
  its reply (module `CommandHandler`).
  - The bank behind `IBankService` is a class `Bank`. It records the calls made
    to it, and its answer to a call may be any function of the calls before it,
    which covers every sequential implementation.
  - The proxy to other nodes is a function from (address, raw line) to the reply.
    That reply may be one of the proxy's own error lines.
  - `Decide` says what a command leads to: a fixed reply, one bank call, or
    forwarding. `Render` turns a bank outcome into the reply line, including
    the translation of exceptions into `ER` lines. The method `Execute` carries
    the decision out against the bank object.
  - Lemmas in `CommandHandlerProperties` follow whole lines from the parser
    through the dispatcher.
- **The account store** (`Domain/BankService.cs`). It is a class `BankService`
  (module `Domain`) with these fields:
  - the table of accounts, a map from number to balance;
  - the allocation cursor;
  - a ghost copy of the last saved state;
  - a ghost record of the numbers handed out so far.

  `CreateAccount`, the balance lookup, the total and the count are methods
  over those fields. The total is computed by a loop with its invariant.

## Model

| member | source | states |
|---|---|---|
| Text.WhiteSpaceClass | BankNodeP2P/Protocol/CommandHandler.cs:121 | The space and the ASCII controls U+0009..U+000D are white space. No ASCII digit or letter, '/', '+' or '-' is. |
| Text.BlankCons | BankNodeP2P/Protocol/CommandParser.cs:14 | The empty string is blank. A non-empty string is blank exactly when its first character is white space and the rest is blank. |
| Text.TrimPadded | BankNodeP2P/Protocol/CommandParser.cs:17 | White space added around a text that neither starts nor ends with white space is removed again by the trim. |
| Text.Trim | BankNodeP2P/Protocol/CommandParser.cs:17 | The trim is empty exactly when the line is null-or-white-space. A non-empty trim starts and ends with a character that is not white space. |
| Text.TrimIdentity | BankNodeP2P/Protocol/CommandParser.cs:17 | A line already starting and ending with non-white-space is its own trim. |
| Text.Tokens | BankNodeP2P/Protocol/CommandParser.cs:18 | Splitting on spaces with empty entries removed yields only non-empty tokens without spaces. |
| Text.TokensJoin | BankNodeP2P/Protocol/CommandParser.cs:18 | Splitting a single-space join of such tokens gives the tokens back. |
| Text.TokensSpaceRun | BankNodeP2P/Protocol/CommandParser.cs:18 | A run of two spaces separates tokens exactly as one space does. |
| Text.TokensCons | BankNodeP2P/Protocol/CommandParser.cs:18 | A space-free leading word followed by a space is the first token. |
| Text.SegmentsJoin | BankNodeP2P/Protocol/CommandParser.cs:18 | Splitting a join of separator-free parts gives the parts back. |
| Text.JoinSegments | BankNodeP2P/Protocol/CommandParser.cs:18 | Joining the pieces of a split restores the string. |
| Text.SegmentsAppend | BankNodeP2P/Protocol/CommandParser.cs:18 | A separator splits the pieces of its two sides apart. |
| Text.SplitPair | BankNodeP2P/Protocol/CommandParser.cs:40 | `Split('/', 2, RemoveEmptyEntries)` gives at most two non-empty entries. The first entry holds no separator. The second does not start with one. |
| Text.SplitPairOf | BankNodeP2P/Protocol/CommandParser.cs:40 | Any leading separators, a separator-free account, one or more separators, then an address not starting with a separator: this splits into exactly [account, address]. The address keeps later separators. |
| Text.SplitPairShape | BankNodeP2P/Protocol/CommandParser.cs:53 | Two entries come only from that shape, so the split has no other way to succeed. |
| Text.SplitFirstUnique | BankNodeP2P/Protocol/CommandParser.cs:40 | The split is at the first separator. |
| Text.ToUpper | BankNodeP2P/Protocol/CommandParser.cs:22 | Upper-casing keeps the length and maps each character on its own. |
| Text.ToUpperIdempotent | BankNodeP2P/Protocol/CommandParser.cs:22 | Upper-casing twice is upper-casing once. |
| Numerals.TryParseInteger | BankNodeP2P/Protocol/CommandParser.cs:57 | An accepted numeral's value lies in the type's range. |
| Numerals.TryParseInt64 | BankNodeP2P/Protocol/CommandParser.cs:57 | `long.TryParse` accepts a text exactly when the integer reading gives a value in the 64-bit range, and returns that value. |
| Numerals.TryParseInt32 | BankNodeP2P/Protocol/CommandHandler.cs:124 | `int.TryParse` accepts a text exactly when the integer reading gives a value in the 32-bit range, and returns that value. |
| Numerals.ParseSignedDigits | BankNodeP2P/Protocol/CommandParser.cs:57 | ASCII white space, an optional '+' or '-', at least one digit and more white space are read as the signed value of the digits, exactly when that value is in range; otherwise the reading fails. |
| Numerals.ReadSignedDigits | BankNodeP2P/Protocol/CommandParser.cs:57 | The same for an unpadded sign and digits. |
| Numerals.AcceptedShape | BankNodeP2P/Protocol/CommandParser.cs:57 | Conversely, every accepted text has that shape, and the value returned is the signed value of its digits. |
| Numerals.NumeralShape | BankNodeP2P/Protocol/CommandParser.cs:57 | Once trimmed, an accepted text is an optional sign followed by at least one digit. |
| Numerals.PaddingAround | BankNodeP2P/Protocol/CommandParser.cs:57 | Trimming splits a text into leading white space, the trimmed part and trailing white space. |
| Numerals.AcceptedChars | BankNodeP2P/Protocol/CommandParser.cs:57 | Every character of an accepted text is a digit, ASCII white space, '+' or '-'. |
| Numerals.ForeignCharRefused | BankNodeP2P/Protocol/CommandParser.cs:57-58 | Any other character anywhere in the text makes the reading fail. |
| Numerals.LeadingZeros | BankNodeP2P/Protocol/CommandParser.cs:57 | Leading zeros do not change a digit string's value. |
| Numerals.ZerosValue | BankNodeP2P/Protocol/CommandParser.cs:57 | A run of zeros is worth 0. |
| Numerals.PaddedDecimalString | BankNodeP2P/Protocol/CommandParser.cs:57 | The rendering of an in-range n, padded with white space and leading zeros and given an explicit sign, still reads back as n. |
| Numerals.ParseInt64DecimalString | BankNodeP2P/Protocol/CommandParser.cs:57 | `long.TryParse` reads back the decimal rendering of every 64-bit value, negative ones included. |
| Numerals.ParseInt32DecimalString | BankNodeP2P/Protocol/CommandHandler.cs:124 | `int.TryParse` reads back the decimal rendering of every 32-bit value. |
| Numerals.DecimalString | BankNodeP2P/Protocol/CommandHandler.cs:72 | The rendering is a non-empty run of digits with a leading '-' exactly for negative values. There is no leading zero: a '-' is never followed by '0', and a text starting with '0' is "0" itself. |
| Numerals.Digits | BankNodeP2P/Protocol/CommandHandler.cs:72 | The digits of n, worth n, start with '0' only for n = 0. |
| Numerals.CanonicalDigits | BankNodeP2P/Protocol/CommandHandler.cs:72 | Every digit string without a leading zero is the rendering of its own value, so the rendering is the only such string for each value. |
| Numerals.LeadingDigitPositive | BankNodeP2P/Protocol/CommandHandler.cs:72 | A digit string starting with a non-zero digit is worth at least 1. |
| Numerals.CanonicalDecimalString | BankNodeP2P/Protocol/CommandHandler.cs:72-86 | An optional '-' and digits without a leading zero, other than "-0", are exactly the rendering of the value they denote. With the read-back lemmas, this fixes the text `ToString` puts into the AC, AB, BA and BN replies. |
| Commands.ParseCode | BankNodeP2P/Protocol/CommandParser.cs:23 | A text parses to a code exactly when its trim is that member's name. It fails exactly when its trim is no member's name. |
| Commands.ParseCodeName | BankNodeP2P/Protocol/CommandCodeEnum.cs:12-23 | Every member is parsed from its own name. |
| Commands.ParseCodePadded | BankNodeP2P/Protocol/CommandParser.cs:23 | White space around a member's name does not change the member it parses to. |
| Commands.LookupCode | BankNodeP2P/Protocol/CommandParser.cs:23 | After the trim, a name is found exactly when it is the name of an enum member, and it is found as that member. |
| Commands.LookupCodeName | BankNodeP2P/Protocol/CommandCodeEnum.cs:12-23 | Every member is found under its own name. |
| CommandParser.Parse | BankNodeP2P/Protocol/CommandParser.cs:12-64 | Exactly one of command and error is present. A command keeps the trimmed line as its raw line and is never `Unknown`. It has an account and address exactly when its code takes them, in the shape the split allows. It has an amount exactly for AD and AW. |
| CommandParser.ParseParts | BankNodeP2P/Protocol/CommandParser.cs:19-24 | The same well-formedness for the step after the split. |
| CommandParser.ParseArguments | BankNodeP2P/Protocol/CommandParser.cs:26-61 | The same well-formedness for the arity and format checks. |
| CommandParser.ParseTarget | BankNodeP2P/Protocol/CommandParser.cs:39-44 | The same for the `<account>/<ip>` step. The account and address carry no space. |
| CommandParser.UpperIsNotUnknown | BankNodeP2P/Protocol/CommandParser.cs:22-23 | An upper-cased token, trimmed or not, never names the `Unknown` member. |
| CommandParser.ParseAmountArguments | BankNodeP2P/Protocol/CommandParser.cs:52-60 | The same well-formedness for the AD and AW step. A success carries the split account and address and an amount. |
| CommandParserProperties.EmptyCommandIffBlank | BankNodeP2P/Protocol/CommandParser.cs:14-20 | "Empty command" comes exactly from a null, empty or white-space line, and then there is no command. |
| CommandParserProperties.NeverEmptyCommand | BankNodeP2P/Protocol/CommandParser.cs:19-20 | Once a token exists, "Empty command" never results. |
| CommandParserProperties.UnknownCommandIff | BankNodeP2P/Protocol/CommandParser.cs:22-24 | For a non-blank line, "Unknown command" results exactly when the upper-cased first token names no code. |
| CommandParserProperties.PartsUnknownIff | BankNodeP2P/Protocol/CommandParser.cs:22-24 | After the split, "Unknown command" results exactly when the upper-cased first token names no code. |
| CommandParserProperties.ArgumentsNotUnknown | BankNodeP2P/Protocol/CommandParser.cs:63 | The argument checks never answer "Unknown command" or "Empty command". |
| CommandParserProperties.ParseCaseInsensitive | BankNodeP2P/Protocol/CommandParser.cs:22 | A line and the same line with its first word upper-cased give the same result, apart from the raw line. |
| CommandParserProperties.ParseSpaceRun | BankNodeP2P/Protocol/CommandParser.cs:17-18 | A run of two spaces between parts of a line gives the same result as one space, apart from the raw line. |
| CommandParserProperties.TrimAround | BankNodeP2P/Protocol/CommandParser.cs:17 | Trimming a line trims only its two ends. |
| CommandParserProperties.ParseWords | BankNodeP2P/Protocol/CommandParser.cs:17-18 | A line made of words is parsed from exactly those words, with the line as raw line. |
| CommandParserProperties.LeadingWord | BankNodeP2P/Protocol/CommandParser.cs:17-22 | A white-space-free first word survives the trim and becomes the first token. |
| CommandParserProperties.ParseUnfold | BankNodeP2P/Protocol/CommandParser.cs:14-18 | A non-blank line is parsed from the tokens of its trim. |
| CommandParserProperties.ArgumentsMeaning | BankNodeP2P/Protocol/CommandParser.cs:31 | The raw line affects the result only as its raw line. |
| CommandParserProperties.TargetFacts | BankNodeP2P/Protocol/CommandParser.cs:39-44 | The pair step uses the raw line only as the raw line. Its only error is "Invalid <account>/<ip> format", which it gives whenever the split has other than two entries. |
| CommandParserProperties.AmountFacts | BankNodeP2P/Protocol/CommandParser.cs:52-60 | The AD and AW step uses the raw line only as the raw line. Its only errors are the pair format, checked first, and "Invalid amount". |
| CommandParserProperties.PartsMeaning | BankNodeP2P/Protocol/CommandParser.cs:22 | Tokens whose first entries agree once upper-cased give the same result. |
| CommandParserProperties.WordsOfCode | BankNodeP2P/Protocol/CommandParser.cs:22-26 | A line whose first word names a code, in any case, is handled by that code's argument rules. |
| CommandParserProperties.ParseNodeCommand | BankNodeP2P/Protocol/CommandParser.cs:26-31 | BC, AC, BA and BN succeed exactly when alone on the line, with no account, address or amount. Otherwise the error is "<CODE> takes no parameters". |
| CommandParserProperties.AccountCodeArity | BankNodeP2P/Protocol/CommandParser.cs:36-37 | AB and AR with other than two tokens give "<CODE> expects <account>/<ip>". |
| CommandParserProperties.AmountCodeArity | BankNodeP2P/Protocol/CommandParser.cs:49-50 | AD and AW with other than three tokens give "<CODE> expects <account>/<ip> <amount>". |
| CommandParserProperties.AccountArity | BankNodeP2P/Protocol/CommandParser.cs:36-37 | The same arity rule at the argument step. |
| CommandParserProperties.AmountArity | BankNodeP2P/Protocol/CommandParser.cs:49-50 | The same arity rule at the argument step. |
| CommandParserProperties.BadAccountPair | BankNodeP2P/Protocol/CommandParser.cs:40-42 | A pair token that does not split into two entries gives "Invalid <account>/<ip> format", whether or not an amount follows. |
| CommandParserProperties.BadAccountPairArguments | BankNodeP2P/Protocol/CommandParser.cs:39-42 | The same for AB and AR at the argument step. |
| CommandParserProperties.BadAmountPairArguments | BankNodeP2P/Protocol/CommandParser.cs:52-55 | The same for AD and AW at the argument step. The pair is checked before the amount. |
| CommandParserProperties.BadAmount | BankNodeP2P/Protocol/CommandParser.cs:57-58 | An amount token that is not a 64-bit integer gives "Invalid amount". |
| CommandParserProperties.BadAmountArguments | BankNodeP2P/Protocol/CommandParser.cs:57-58 | The same at the argument step. |
| CommandParserProperties.SplitAccountPair | BankNodeP2P/Protocol/CommandParser.cs:40 | "account/ip" splits back into account and address. |
| CommandParserProperties.SlashRunsDropped | BankNodeP2P/Protocol/CommandParser.cs:40 | Leading and doubled slashes are dropped by the split. |
| CommandParserProperties.AccountArguments | BankNodeP2P/Protocol/CommandParser.cs:39-44 | A well-formed pair argument succeeds with that account and address. |
| CommandParserProperties.AmountArguments | BankNodeP2P/Protocol/CommandParser.cs:52-60 | A well-formed pair and a rendered amount succeed with those values. |
| CommandParserProperties.ParseAccountCommand | BankNodeP2P/Protocol/CommandParser.cs:34-45 | "AB account/ip" and "AR account/ip", in any case, parse to exactly that account and address, with no amount. The line is the raw line. |
| CommandParserProperties.ParseAmountCommand | BankNodeP2P/Protocol/CommandParser.cs:47-61 | "AD account/ip n" and "AW account/ip n", in any case and for every 64-bit n including negative ones, parse to exactly those values. |
| CommandHandler.Bank.constructor | BankNodeP2P/Protocol/IBankService.cs:14-26 | A bank starts with no calls made. |
| CommandHandler.Bank.Call | BankNodeP2P/Protocol/IBankService.cs:17-25 | Each call's outcome has the method's return type and may depend on all earlier calls. The call is recorded. |
| CommandHandler.RequireAccIp | BankNodeP2P/Protocol/CommandHandler.cs:119-128 | Success exactly when account and address are present and non-blank and the account is an int, returning those values. "Invalid parameters" comes exactly from a missing or blank field. Otherwise the error is "Invalid account number". |
| CommandHandler.RequireAccIpAmount | BankNodeP2P/Protocol/CommandHandler.cs:130-138 | Success exactly when RequireAccIp succeeds and an amount is present. Its errors come first. The other error is "Missing amount". |
| CommandHandler.HandleLocalOrProxy | BankNodeP2P/Protocol/CommandHandler.cs:107-117 | A bad pair is refused before routing. The node's own address runs the local branch. Any other address forwards the raw line. |
| CommandHandler.AmountPlan | BankNodeP2P/Protocol/CommandHandler.cs:48-53 | A local AD or AW calls Deposit or Withdraw exactly when RequireAccIpAmount succeeds. Otherwise the reply is "ER " + its error. |
| CommandHandler.AccountPlan | BankNodeP2P/Protocol/CommandHandler.cs:68-80 | AB or AR calls GetAccountBalance or RemoveAccount exactly when RequireAccIp succeeds. Otherwise the reply is "ER " + its error. |
| CommandHandler.Decide | BankNodeP2P/Protocol/CommandHandler.cs:34-90 | Each bank call is the code's own method. AC, BA and BN always call the bank. A command is forwarded exactly when it is AD, AW or AB, passes validation and names another address. It is then forwarded verbatim to that address. |
| CommandHandler.CodeOf | BankNodeP2P/Protocol/CommandHandler.cs:39-86 | Each bank method is called by a code's branch, never by BC or the default branch. |
| CommandHandler.Render | BankNodeP2P/Protocol/CommandHandler.cs:92-103 | ArgumentException and InvalidOperationException become "ER " + message. Any other failure becomes "ER Internal error". |
| CommandHandler.Execute | BankNodeP2P/Protocol/CommandHandler.cs:30-104 | A decided reply touches neither bank nor proxy. A bank call makes exactly that one call and replies with its rendered outcome. A forward returns the proxy's reply verbatim without calling the bank. |
| CommandHandlerProperties.CallOfUnique | BankNodeP2P/Protocol/CommandHandler.cs:39-86 | Each bank method is called by exactly one code. |
| CommandHandlerProperties.BroadcastReply | BankNodeP2P/Protocol/CommandHandler.cs:36-37 | BC replies "BC " + the node's address, with no bank call and no forwarding. |
| CommandHandlerProperties.UnknownReply | BankNodeP2P/Protocol/CommandHandler.cs:88-89 | The default branch replies "ER Unknown command", with no bank call and no forwarding. |
| CommandHandlerProperties.RenderOkCode | BankNodeP2P/Protocol/CommandHandler.cs:39-86 | A normal return is answered by the name of the code that made the call. AD, AW and AR send the name alone. AC, AB, BA and BN send it followed by a space and the value. |
| CommandHandlerProperties.RenderNumberReadsBack | BankNodeP2P/Protocol/CommandHandler.cs:72-86 | The number after "AB ", "BA " or "BN " reads back through `long.TryParse` or `int.TryParse` as the value the bank returned. |
| CommandHandlerProperties.RenderCreatedReadsBack | BankNodeP2P/Protocol/CommandHandler.cs:39-43 | The text after "AC " splits at '/' into the new account and the address, and the account reads back through `int.TryParse` as the new number. |
| CommandHandlerProperties.RenderErrorIff | BankNodeP2P/Protocol/CommandHandler.cs:39-103 | A bank call's reply is an `ER` line exactly when the call did not return normally. |
| CommandHandlerProperties.RepliesAreErrors | BankNodeP2P/Protocol/CommandHandler.cs:36-37 | A reply decided without bank or proxy is an `ER` line exactly when the code is not BC. |
| CommandHandlerProperties.ValidatedBeforeRouting | BankNodeP2P/Protocol/CommandHandler.cs:109 | For AD, AW, AB and AR a bad pair gives "ER " + the validation error, whatever the address. |
| CommandHandlerProperties.RemoveIsLocal | BankNodeP2P/Protocol/CommandHandler.cs:75-80 | A valid AR always calls this node's RemoveAccount, whatever the address. |
| CommandHandlerProperties.MissingAmountLocal | BankNodeP2P/Protocol/CommandHandler.cs:134-135 | A local AD or AW without an amount replies "ER Missing amount" without a bank call. |
| CommandHandlerProperties.LocalRoute | BankNodeP2P/Protocol/CommandHandler.cs:111-113 | A valid pair naming this node takes AD and AW to their local branch. |
| CommandHandlerProperties.MissingAmountPlan | BankNodeP2P/Protocol/CommandHandler.cs:134-135 | The local branch without an amount replies "ER Missing amount". |
| CommandHandlerProperties.ParsedNeverMissingAmount | BankNodeP2P/Protocol/CommandHandler.cs:134-135 | A command that came from the parser never gets "ER Missing amount". |
| CommandHandlerProperties.NoMissingAmount | BankNodeP2P/Protocol/CommandHandler.cs:130-138 | Only an AD or AW lacking its amount can get "ER Missing amount". |
| CommandHandlerProperties.AccountText | BankNodeP2P/Protocol/CommandHandler.cs:121-127 | A rendered account number with a white-space-free address passes RequireAccIp and reads back as the same number. |
| CommandHandlerProperties.ValidPair | BankNodeP2P/Protocol/CommandHandler.cs:119-128 | Such a pair validates to exactly that number and address. |
| CommandHandlerProperties.DecideAmount | BankNodeP2P/Protocol/CommandHandler.cs:45-63 | A valid AD or AW with an amount is forwarded for another address. For this node it calls Deposit or Withdraw with exactly those values. |
| CommandHandlerProperties.DecideAccount | BankNodeP2P/Protocol/CommandHandler.cs:65-80 | A valid AR calls RemoveAccount. A valid AB is forwarded for another address, and otherwise calls GetAccountBalance. |
| CommandHandlerProperties.AmountLineRouting | BankNodeP2P/Protocol/CommandHandler.cs:45-63 | End to end, "AD n/ip amount" or "AW n/ip amount" in any case parses. It is forwarded verbatim for another address. For this node it reaches Deposit or Withdraw with n, ip and amount. |
| CommandHandlerProperties.AccountLineRouting | BankNodeP2P/Protocol/CommandHandler.cs:65-80 | End to end, "AR n/ip" always reaches RemoveAccount here. "AB n/ip" is forwarded verbatim unless ip is this node's. |
| CommandHandlerProperties.CreatedAccountUsable | BankNodeP2P/Protocol/CommandHandler.cs:39-43 | The AC reply is "AC n/ip". "AB" followed by that token parses and asks this node's bank for account n at ip. |
| Domain.AddAll | BankNodeP2P/Domain/BankService.cs:28-32 | Building the table succeeds exactly when no number repeats, including numbers already in the table. The result holds each listed number with its balance and nothing else. A failure names a number met a second time. |
| Domain.ToTable | BankNodeP2P/Domain/BankService.cs:28-32 | The table built from a state succeeds exactly when its numbers are distinct. It then has exactly those keys, each with its listed balance. |
| Domain.PrependAccount | BankNodeP2P/Domain/BankService.cs:107-109 | Listing a new number in front keeps the numbers distinct. |
| Domain.Entries | BankNodeP2P/Domain/BankService.cs:107-109 | Listing a table's values gives each of its numbers once, with its balance. |
| Domain.ListingLoads | BankNodeP2P/Domain/BankService.cs:28-32 | A list holding each account of a table once loads back into exactly that table. |
| Domain.SavedTableLoads | BankNodeP2P/Domain/BankService.cs:101-111 | The accounts saved from a table load back into that same table. |
| Domain.SumRemove | BankNodeP2P/Domain/BankService.cs:74-75 | The total does not depend on the order in which the balances are added. |
| Domain.SumSameKeys | BankNodeP2P/Domain/BankService.cs:74-75 | Tables that agree on some keys have the same sum over them. |
| Domain.TotalAddZero | BankNodeP2P/Domain/BankService.cs:48-49 | Adding a new account with balance 0, as a create does, leaves the total unchanged. |
| Domain.AdvanceAsWritten | BankNodeP2P/Domain/BankService.cs:40-43 | The cursor as written: 10000 below 10000, otherwise plus one, wrapping from int.MaxValue to int.MinValue. |
| Domain.CursorWrapCreatesNegativeAccount | BankNodeP2P/Domain/BankService.cs:40-46 | The wrapped cursor passes the `> 99999` check, although it is negative and outside 10000..99999. |
| Domain.Advance | BankNodeP2P/Domain/BankService.cs:40-43 | The corrected cursor is at least 10000. It never moves backwards. It moves strictly forwards below int.MaxValue. Once past 99999 it stays past 99999. |
| Domain.AdvanceAgreesBelowMax | BankNodeP2P/Domain/BankService.cs:40-43 | Below int.MaxValue the corrected cursor is the one written. |
| Domain.AdvanceKeepsConsistent | BankNodeP2P/Domain/BankService.cs:40-46 | Advancing the cursor keeps the issued numbers below it. It keeps every key at or below it. Under that invariant a cursor still in range is a free number. |
| Domain.IssueKeepsConsistent | BankNodeP2P/Domain/BankService.cs:45-49 | Issuing the advanced cursor keeps the issued numbers increasing, in range and held. It adds exactly one account. It keeps every key at or below the cursor. |
| Domain.BankService.constructor | BankNodeP2P/Domain/BankService.cs:16-33 | The cursor is the state's last number. The table holds exactly the state's numbers, each with its balance. Nothing has been saved or issued yet. |
| Domain.BankService.Open | BankNodeP2P/Domain/BankService.cs:26-32 | Opening fails exactly when the state repeats a number. Otherwise it gives a new service with that table and cursor. |
| Domain.BankService.SaveLocked | BankNodeP2P/Domain/BankService.cs:101-111 | The snapshot holds the bank address, the cursor and each account once with its balance. It loads back into the current table. |
| Domain.BankService.CreateAccount | BankNodeP2P/Domain/BankService.cs:36-56 | The cursor moves by the corrected `Advance` in every case. That is the source's advance except at int.MaxValue, where it stays put instead of wrapping, so the create is refused with Exhausted. Success happens exactly when the new cursor is in 10000..99999 and not already a key. It then adds exactly that account with balance 0, records it as issued (issued numbers stay strictly increasing and are never reused) and saves. Past 99999 the error is Exhausted and the table, snapshot and issued numbers are untouched; a taken number is a duplicate-key error. If every key is at or below the cursor, that stays true and the only possible error is Exhausted. |
| Domain.BankService.GetAccountLocked | BankNodeP2P/Domain/BankService.cs:90-99 | A number outside 10000..99999 is OutOfRange, checked first. Otherwise an absent number is NotFound. Otherwise the result is the account with its stored balance. |
| Domain.BankService.GetBalance | BankNodeP2P/Domain/BankService.cs:59-66 | The stored balance, or OutOfRange before NotFound. Nothing changes. |
| Domain.BankService.GetTotalAmount | BankNodeP2P/Domain/BankService.cs:69-78 | The loop's result is the sum of all balances in the table. Nothing changes. |
| Domain.BankService.GetNumberOfClients | BankNodeP2P/Domain/BankService.cs:81-87 | The number of accounts in the table. Nothing changes. |

## Left out

- Networking (`ClientHandler`, `BankTcpServer`), timeouts, cancellation and
  the per-connection loop are not modelled. They are asynchronous I/O.
  - The line loop's use of the two models is not modelled either: a parse
    error becomes `ER <error>`, otherwise the reply is the dispatcher's line.
- `BankProxyClient` is a function parameter of `Execute`. The model lets it
  return any line, so its three sentinel replies are covered without being
  named. The TCP exchange and its timeout are not modelled.
- The persistence file and JSON serialisation are not modelled. The saved
  state is the ghost field `saved`, and the atomic write is not modelled. A
  failing save would throw after the account was added; that path is not modelled.
- The logger calls are not modelled: no behaviour depends on them.
- The `lock` in `BankService` is not modelled. Each method is one atomic
  step, and concurrent interleavings are not modelled.
- The UI, `Program.cs` and `App/AppComposition.cs` are not modelled: they are
  bootstrap code, and `Program.cs` calls composition methods that
  `AppComposition.cs` does not define.
- `BankService` does not implement `IBankService`. The dispatcher's bank is
  therefore the abstract class `Bank`. The deposit, withdrawal and removal
  semantics are not modelled, since no implementation of them exists.
- `GetBankIp` from `IBankService` is not modelled: the dispatcher never calls it.
- Commands.ParseCode: `Enum.TryParse` also accepts numeric strings such as
  `1` and comma-separated member lists such as `AC,AD`. The model trims the
  text and matches member names only, so it refuses those. The parser's
  final "Unknown command" branch (a text that parses to `Unknown`) is then
  unreachable in the model, and `UpperIsNotUnknown` states this.
- Numerals.TryParseInteger: models `NumberStyles.Integer` with the invariant
  culture: leading and trailing ASCII white space, one sign, decimal digits.
  Trailing NUL characters, which .NET also accepts, are not modelled.
  `int.TryParse` in `RequireAccIp` uses the current culture. The model
  assumes one whose sign symbols are `+` and `-`.
- Text.UpperChar: `ToUpperInvariant` is modelled on ASCII letters only. No
  non-ASCII letter upper-cases to a code name's ASCII letters, so the code
  lookup is unaffected.
- Text.SplitPair follows the .NET Core behaviour of `Split('/', 2,
  RemoveEmptyEntries)`, not a plain "split at the first `/`". Empty entries
  before the account are skipped, and so are the empty entries straight
  after it. So `//12345//10.0.0.1` parses as account `12345` and address
  `10.0.0.1`. `12345/` and `/10.0.0.1` are still format errors.
- Domain.BankService.GetTotalAmount: does not model the unchecked 64-bit
  wrap-around of the `long` sum. The result is the exact mathematical sum.
- Domain.BankError: the exceptions are told apart by kind only. Their
  message texts (BankService.cs lines 46, 93 and 96) are not modelled. The
  `ArgumentOutOfRangeException` message would also carry the parameter
  name that .NET appends.
- Domain.BankService.CreateAccount: uses the corrected cursor `Advance` of
  the Findings row, not the wrapping `AdvanceAsWritten`. At int.MaxValue the
  model refuses with Exhausted, where the source wraps to int.MinValue and
  creates a negative account. The exception raised by `Dictionary.Add` for a
  repeated key is the error `DuplicateKey`. Its .NET message text is not
  modelled.
- Domain.BankService.Open: the constructor throws when the state repeats a
  number. The model's constructor requires distinct numbers, and `Open`
  returns that failure as a value.
- Domain.Entries: the order of the saved accounts is the dictionary's
  enumeration order, which is unspecified. The model leaves it open and states
  only that each account appears once.
- CommandHandler.Render: AC, BA and BN format their numbers without an
  explicit culture (`$"AC {acc}/{ip}"`, `$"BA {...}"`, `$"BN {...}"`). The
  model uses the invariant rendering, which a culture with another negative
  sign would not produce.
- CommandHandler.Bank.Call: the bank's answer is any function of the earlier
  calls. That covers every sequential bank but says nothing about what a
  particular bank does.

## Findings

| source | as written | input that shows it | evidently intended | confidence | as-written member | corrected member |
|---|---|---|---|---|---|---|
| BankNodeP2P/Domain/BankService.cs:40-46 | `_lastAccount++` is unchecked. At int.MaxValue it wraps to int.MinValue, which passes the `> 99999` check, and a negative account is created. | A saved state with `LastAccountNumber` = 2147483647, then AC | The cursor never leaves the range check's reach: once past 99999, every later create is refused | not executed; low (needs a saved state with that cursor) | Domain.CursorWrapCreatesNegativeAccount | Domain.Advance |
