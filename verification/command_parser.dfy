/**
 * CommandParser.Parse: one text line to a parsed command or an error message.
 * The line is trimmed, split on spaces, the first token upper-cased and looked
 * up as a command code, the token count checked against the code, the
 * <account>/<ip> token split, and the amount read as a 64-bit integer.
 */
module CommandParser {
  import opened Wrappers
  import opened Text
  import opened Numerals
  import opened Commands

  /** The codes that take no parameters. */
  predicate IsNodeCode(code: CommandCode) {
    code == BC || code == AC || code == BA || code == BN
  }

  /** The codes that take <account>/<ip>. */
  predicate IsAccountCode(code: CommandCode) {
    code == AB || code == AR
  }

  /** The codes that take <account>/<ip> <amount>. */
  predicate IsAmountCode(code: CommandCode) {
    code == AD || code == AW
  }

  /** The well-formed shape of an <account>/<ip> pair as the parser hands it on. */
  predicate AccountPairShape(account: string, bankIp: string) {
    account != [] && '/' !in account && ' ' !in account
    && bankIp != [] && bankIp[0] != '/' && ' ' !in bankIp
  }

  /** What every result promises: exactly one of command and error is present;
      a command keeps the raw line, is never Unknown, carries an account and
      address exactly when its code takes them and an amount exactly when its
      code takes one. */
  predicate WellFormed(r: ParseResult, raw: string) {
    && (r.ok <==> r.command.Some?)
    && (r.ok <==> r.error.None?)
    && (r.ok ==> WellFormedCommand(r.command.value, raw))
  }

  predicate WellFormedCommand(c: ParsedCommand, raw: string) {
    && c.rawLine == raw
    && c.code != Unknown
    && (IsNodeCode(c.code) ==> c.account.None? && c.bankIp.None?)
    && (!IsNodeCode(c.code) ==>
          c.account.Some? && c.bankIp.Some? && AccountPairShape(c.account.value, c.bankIp.value))
    && (c.amount.Some? <==> IsAmountCode(c.code))
  }

  /** Parse(line), with None for a null line. */
  function Parse(line: Option<string>): (r: ParseResult)
    ensures r.ok ==> line.Some? && WellFormed(r, Trim(line.value))
    ensures !r.ok ==> r.command.None? && r.error.Some?
  {
    if line.None? || IsBlank(line.value) then Fail("Empty command")
    else
      var raw := Trim(line.value);
      ParseParts(raw, Tokens(raw))
  }

  /** Everything after the split: the code lookup, then the arguments. */
  function ParseParts(raw: string, parts: seq<string>): (r: ParseResult)
    requires TokenList(parts)
    ensures WellFormed(r, raw)
  {
    if |parts| == 0 then Fail("Empty command")
    else
      var codeStr := ToUpper(parts[0]);
      match ParseCode(codeStr)
      case None => Fail("Unknown command")
      case Some(code) =>
        assert code != Unknown by { UpperIsNotUnknown(parts[0]); }
        ParseArguments(code, codeStr, raw, parts[1..])
  }

  /** The arity check for the code, then the argument formats. */
  function ParseArguments(code: CommandCode, codeStr: string, raw: string, args: seq<string>): (r: ParseResult)
    requires code != Unknown
    requires TokenList(args)
    ensures WellFormed(r, raw)
  {
    if IsNodeCode(code) then
      if |args| != 0 then Fail(codeStr + " takes no parameters")
      else Succeed(ParsedCommand(code, raw, None, None, None))
    else if IsAccountCode(code) then
      if |args| != 1 then Fail(codeStr + " expects <account>/<ip>")
      else ParseTarget(code, raw, args[0], None)
    else if |args| != 2 then Fail(codeStr + " expects <account>/<ip> <amount>")
    else ParseAmountArguments(code, raw, args[0], args[1])
  }

  /** AD and AW: the pair must split before the amount is read. */
  function ParseAmountArguments(code: CommandCode, raw: string, token: string, amountToken: string): (r: ParseResult)
    requires IsAmountCode(code)
    requires ' ' !in token
    ensures WellFormed(r, raw)
  {
    if |SplitPair(token, '/')| != 2 then Fail("Invalid <account>/<ip> format")
    else match TryParseInt64(amountToken)
      case None => Fail("Invalid amount")
      case Some(amount) => ParseTarget(code, raw, token, Some(amount))
  }

  /** The <account>/<ip> token: split on '/', at most two entries, empty entries removed. */
  function ParseTarget(code: CommandCode, raw: string, token: string, amount: Option<Int64>): (r: ParseResult)
    requires code != Unknown && !IsNodeCode(code)
    requires amount.Some? <==> IsAmountCode(code)
    requires ' ' !in token
    ensures WellFormed(r, raw)
  {
    var split := SplitPair(token, '/');
    if |split| != 2 then Fail("Invalid <account>/<ip> format")
    else
      assert ' ' !in split[0] && ' ' !in split[1] by { SplitPairSpaceFree(token); }
      Succeed(ParsedCommand(code, raw, Some(split[0]), Some(split[1]), amount))
  }

  /** An upper-cased token never names the Unknown member, whose name has lower-case letters. */
  lemma UpperIsNotUnknown(token: string)
    ensures ParseCode(ToUpper(token)) != Some(Unknown)
  {
    var k := TrimSlice(ToUpper(token));
  }

  /** The pieces of a space-free token are space-free. */
  lemma SplitPairSpaceFree(token: string)
    requires ' ' !in token && |SplitPair(token, '/')| == 2
    ensures ' ' !in SplitPair(token, '/')[0] && ' ' !in SplitPair(token, '/')[1]
  {
    SplitPairAvoids(token, '/', ' ');
  }
}

/** What the parser promises, stated over the lines it reads. */
module CommandParserProperties {
  import opened Wrappers
  import opened Text
  import opened Numerals
  import opened Commands
  import opened CommandParser

  /** The tokens of the trimmed line. */
  function Words(line: string): (w: seq<string>)
    ensures !IsBlank(line) ==> |w| >= 1 && w[0] != [] && !IsWhiteSpace(w[0][0])
  {
    var raw := Trim(line);
    if IsBlank(line) then Tokens(raw)
    else TokensHead(raw); Tokens(raw)
  }

  /** A parse result with the raw line blanked out: what the line means. */
  function Meaning(r: ParseResult): ParseResult {
    match r.command
    case None => r
    case Some(c) => r.(command := Some(c.(rawLine := [])))
  }

  /** Space-separated words that can stand as a protocol line: non-empty,
      without spaces, not starting or ending the line with white space. */
  predicate LineWords(words: seq<string>) {
    && |words| >= 1
    && TokenList(words)
    && !IsWhiteSpace(words[0][0])
    && !IsWhiteSpace(words[|words| - 1][|words[|words| - 1]| - 1])
  }

  /** A line built from words parses from exactly those words, the line itself as raw line. */
  lemma ParseWords(words: seq<string>)
    requires LineWords(words)
    ensures Parse(Some(Join(words, ' '))) == ParseParts(Join(words, ' '), words)
  {
    var line := Join(words, ' ');
    JoinEnds(words, ' ');
    TrimIdentity(line);
    TokensJoin(words);
  }

  /** A null, empty or white-space-only line gives "Empty command", and no other line does. */
  lemma EmptyCommandIffBlank(line: Option<string>)
    ensures Parse(line).error == Some("Empty command") <==> line.None? || IsBlank(line.value)
    ensures line.None? || IsBlank(line.value) ==> Parse(line).command.None?
  {
    if line.Some? && !IsBlank(line.value) {
      var raw := Trim(line.value);
      assert |Words(line.value)| >= 1;
      NeverEmptyCommand(raw, Tokens(raw));
    }
  }

  /** A first token that, upper-cased, names none of the eight codes gives
      "Unknown command", and no other non-blank line does. */
  lemma UnknownCommandIff(line: string)
    requires !IsBlank(line)
    ensures Parse(Some(line)).error == Some("Unknown command")
        <==> ParseCode(ToUpper(Words(line)[0])).None?
  {
    var raw := Trim(line);
    var parts := Tokens(raw);
    ParseUnfold(line);
    assert parts == Words(line);
    PartsUnknownIff(raw, parts);
  }

  /** After the split: "Unknown command" exactly when the first token names no code. */
  lemma PartsUnknownIff(raw: string, parts: seq<string>)
    requires TokenList(parts) && |parts| >= 1
    ensures ParseParts(raw, parts).error == Some("Unknown command")
        <==> ParseCode(ToUpper(parts[0])).None?
  {
    var codeStr := ToUpper(parts[0]);
    match ParseCode(codeStr)
    case None =>
    case Some(code) =>
      UpperIsNotUnknown(parts[0]);
      TailTokens(parts);
      assert ParseParts(raw, parts) == ParseArguments(code, codeStr, raw, parts[1..]);
      ArgumentsNotUnknown(code, codeStr, raw, parts[1..]);
  }

  /** The argument rules never answer "Unknown command" or "Empty command". */
  lemma ArgumentsNotUnknown(code: CommandCode, codeStr: string, raw: string, args: seq<string>)
    requires code != Unknown
    requires TokenList(args)
    ensures ParseArguments(code, codeStr, raw, args).error != Some("Unknown command")
    ensures ParseArguments(code, codeStr, raw, args).error != Some("Empty command")
  {
    var r := ParseArguments(code, codeStr, raw, args);
    if IsNodeCode(code) {
      if |args| != 0 {
        assert r == Fail(codeStr + " takes no parameters");
      }
    } else if IsAccountCode(code) {
      if |args| != 1 {
        assert r == Fail(codeStr + " expects <account>/<ip>");
      } else {
        AccountDispatch(code, codeStr, raw, args);
        TargetFacts(code, raw, raw, args[0], None);
      }
    } else if |args| != 2 {
      assert r == Fail(codeStr + " expects <account>/<ip> <amount>");
    } else {
      AmountDispatch(code, codeStr, raw, args);
      AmountFacts(code, raw, raw, args[0], args[1]);
    }
  }

  /** The code token is read without regard to case: a first word and its
      upper-case form give the same command, the same arguments and the same error. */
  lemma ParseCaseInsensitive(word: string, rest: string)
    requires word != [] && forall i | 0 <= i < |word| :: !IsWhiteSpace(word[i])
    requires rest == [] || rest[0] == ' '
    ensures Meaning(Parse(Some(word + rest))) == Meaning(Parse(Some(ToUpper(word) + rest)))
  {
    var upper := ToUpper(word);
    assert forall i | 0 <= i < |upper| :: !IsWhiteSpace(upper[i]);
    var tail := DropWhileEnd(rest, AnyWhiteSpace);
    LeadingWord(word, rest);
    LeadingWord(upper, rest);
    ToUpperIdempotent(word);
    SpaceFree(word);
    SpaceFree(upper);
    PartsMeaning(word + tail, upper + tail, word, upper, Tokens(tail));
  }

  /** A white-space-free first word is kept whole by the trim and is the first token. */
  lemma LeadingWord(word: string, rest: string)
    requires word != [] && forall i | 0 <= i < |word| :: !IsWhiteSpace(word[i])
    requires rest == [] || rest[0] == ' '
    ensures !IsBlank(word + rest)
    ensures Trim(word + rest) == word + DropWhileEnd(rest, AnyWhiteSpace)
    ensures TokenList([word] + Tokens(DropWhileEnd(rest, AnyWhiteSpace)))
    ensures Parse(Some(word + rest))
         == ParseParts(word + DropWhileEnd(rest, AnyWhiteSpace), [word] + Tokens(DropWhileEnd(rest, AnyWhiteSpace)))
  {
    var line := word + rest;
    var tail := DropWhileEnd(rest, AnyWhiteSpace);
    assert line[0] == word[0];
    assert !IsBlank(line);
    assert DropWhile(line, AnyWhiteSpace) == line;
    DropWhileEndKeep(word, rest, AnyWhiteSpace);
    assert Trim(line) == word + tail;
    SpaceFree(word);
    TokensCons(word, tail);
    assert Tokens(word + tail) == [word] + Tokens(tail);
    ParseUnfold(line);
  }

  /** A non-blank line is parsed from the tokens of its trim. */
  lemma ParseUnfold(line: string)
    requires !IsBlank(line)
    ensures Parse(Some(line)) == ParseParts(Trim(line), Tokens(Trim(line)))
  {
  }

  /** The raw line only ever reaches the result as its raw line. */
  lemma ArgumentsMeaning(code: CommandCode, codeStr: string, raw1: string, raw2: string, args: seq<string>)
    requires code != Unknown
    requires TokenList(args)
    ensures Meaning(ParseArguments(code, codeStr, raw1, args)) == Meaning(ParseArguments(code, codeStr, raw2, args))
  {
    if IsAccountCode(code) && |args| == 1 {
      AccountDispatch(code, codeStr, raw1, args);
      AccountDispatch(code, codeStr, raw2, args);
      TargetFacts(code, raw1, raw2, args[0], None);
    } else if IsAmountCode(code) && |args| == 2 {
      AmountDispatch(code, codeStr, raw1, args);
      AmountDispatch(code, codeStr, raw2, args);
      AmountFacts(code, raw1, raw2, args[0], args[1]);
    }
  }

  /** The <account>/<ip> token read with two different raw lines means the same,
      and its only error is the pair format. */
  lemma TargetFacts(code: CommandCode, raw1: string, raw2: string, token: string, amount: Option<Int64>)
    requires code != Unknown && !IsNodeCode(code)
    requires amount.Some? <==> IsAmountCode(code)
    requires ' ' !in token
    ensures Meaning(ParseTarget(code, raw1, token, amount)) == Meaning(ParseTarget(code, raw2, token, amount))
    ensures ParseTarget(code, raw1, token, amount).ok
         || ParseTarget(code, raw1, token, amount).error == Some("Invalid <account>/<ip> format")
    ensures |SplitPair(token, '/')| != 2 ==> ParseTarget(code, raw1, token, amount) == Fail("Invalid <account>/<ip> format")
  {
  }

  /** The AD and AW arguments read with two different raw lines mean the same,
      and their only errors are the pair format and the amount. */
  lemma AmountFacts(code: CommandCode, raw1: string, raw2: string, token: string, amountToken: string)
    requires IsAmountCode(code) && ' ' !in token
    ensures Meaning(ParseAmountArguments(code, raw1, token, amountToken))
         == Meaning(ParseAmountArguments(code, raw2, token, amountToken))
    ensures ParseAmountArguments(code, raw1, token, amountToken).ok
         || ParseAmountArguments(code, raw1, token, amountToken).error == Some("Invalid <account>/<ip> format")
         || ParseAmountArguments(code, raw1, token, amountToken).error == Some("Invalid amount")
    ensures |SplitPair(token, '/')| != 2
        ==> ParseAmountArguments(code, raw1, token, amountToken) == Fail("Invalid <account>/<ip> format")
    ensures |SplitPair(token, '/')| == 2 && TryParseInt64(amountToken).None?
        ==> ParseAmountArguments(code, raw1, token, amountToken) == Fail("Invalid amount")
  {
    if |SplitPair(token, '/')| == 2 && TryParseInt64(amountToken).Some? {
      var amount := TryParseInt64(amountToken).value;
      assert ParseAmountArguments(code, raw1, token, amountToken) == ParseTarget(code, raw1, token, Some(amount));
      assert ParseAmountArguments(code, raw2, token, amountToken) == ParseTarget(code, raw2, token, Some(amount));
      TargetFacts(code, raw1, raw2, token, Some(amount));
    }
  }

  /** Parts whose first tokens agree once upper-cased mean the same. */
  lemma PartsMeaning(raw1: string, raw2: string, word1: string, word2: string, args: seq<string>)
    requires word1 != [] && ' ' !in word1 && word2 != [] && ' ' !in word2
    requires TokenList(args)
    requires ToUpper(word1) == ToUpper(word2)
    ensures TokenList([word1] + args) && TokenList([word2] + args)
    ensures Meaning(ParseParts(raw1, [word1] + args)) == Meaning(ParseParts(raw2, [word2] + args))
  {
    var p1, p2 := [word1] + args, [word2] + args;
    forall i | 0 <= i < |p1| ensures p1[i] != [] && ' ' !in p1[i] && p2[i] != [] && ' ' !in p2[i] {
      if i > 0 {
        assert p1[i] == args[i - 1] == p2[i];
      }
    }
    assert p1[0] == word1 && p2[0] == word2;
    assert p1[1..] == args && p2[1..] == args;
    var codeStr := ToUpper(word1);
    match ParseCode(codeStr)
    case None =>
    case Some(code) =>
      UpperIsNotUnknown(word1);
      ArgumentsMeaning(code, codeStr, raw1, raw2, args);
  }

  /** Once there is a token, the error is never "Empty command". */
  lemma NeverEmptyCommand(raw: string, parts: seq<string>)
    requires TokenList(parts)
    requires |parts| >= 1
    ensures ParseParts(raw, parts).error != Some("Empty command")
  {
    var r := ParseParts(raw, parts);
    var codeStr := ToUpper(parts[0]);
    match ParseCode(codeStr)
    case None =>
      assert r == Fail("Unknown command");
    case Some(code) =>
      UpperIsNotUnknown(parts[0]);
      TailTokens(parts);
      assert r == ParseArguments(code, codeStr, raw, parts[1..]);
      ArgumentsNotUnknown(code, codeStr, raw, parts[1..]);
  }

  /** A run of spaces between two parts of a line means the same as one space. */
  lemma ParseSpaceRun(a: string, b: string, ka: nat, kb: nat)
    requires ka < |a| && !IsWhiteSpace(a[ka])
    requires kb < |b| && !IsWhiteSpace(b[kb])
    ensures Meaning(Parse(Some(a + " " + b))) == Meaning(Parse(Some(a + "  " + b)))
  {
    var front := DropWhile(a, AnyWhiteSpace);
    var back := DropWhileEnd(b, AnyWhiteSpace);
    TrimAround(a, " ", b, ka, kb);
    TrimAround(a, "  ", b, ka, kb);
    assert front + " " + back == front + [' '] + back;
    TokensSpaceRun(front, back);
    assert !IsBlank(a + " " + b) by { assert (a + " " + b)[ka] == a[ka]; }
    assert !IsBlank(a + "  " + b) by { assert (a + "  " + b)[ka] == a[ka]; }
    var parts := Tokens(front + " " + back);
    assert TokenList(parts);
    if |parts| >= 1 {
      assert [parts[0]] + parts[1..] == parts;
      PartsMeaning(front + " " + back, front + "  " + back, parts[0], parts[0], parts[1..]);
    }
  }

  /** Trimming a line made of a, a middle part and b trims a at the front and b at the back. */
  lemma TrimAround(a: string, mid: string, b: string, ka: nat, kb: nat)
    requires ka < |a| && !IsWhiteSpace(a[ka])
    requires kb < |b| && !IsWhiteSpace(b[kb])
    ensures Trim(a + mid + b) == DropWhile(a, AnyWhiteSpace) + mid + DropWhileEnd(b, AnyWhiteSpace)
  {
    var line := a + mid + b;
    var front := DropWhile(a, AnyWhiteSpace);
    Associative(a, mid, b);
    DropWhileAppend(a, mid + b, AnyWhiteSpace, ka);
    Associative(front, mid, b);
    DropWhileEndAppend(front + mid, b, AnyWhiteSpace, kb);
    assert Trim(line) == DropWhileEnd(DropWhile(line, AnyWhiteSpace), AnyWhiteSpace);
  }

  /** A line of words whose first word names a code is read by that code's argument rules. */
  lemma WordsOfCode(words: seq<string>, code: CommandCode)
    requires LineWords(words) && code != Unknown && ToUpper(words[0]) == CodeName(code)
    ensures Parse(Some(Join(words, ' '))) == ParseArguments(code, CodeName(code), Join(words, ' '), words[1..])
  {
    ParseWords(words);
    ParseCodeName(code);
  }

  /** The words after the first are tokens too. */
  lemma TailTokens(words: seq<string>)
    requires TokenList(words) && |words| >= 1
    ensures TokenList(words[1..])
  {
    forall i | 0 <= i < |words[1..]| ensures words[1..][i] != [] && ' ' !in words[1..][i] {
      assert words[1..][i] == words[i + 1];
    }
  }

  lemma AccountArity(code: CommandCode, codeStr: string, raw: string, args: seq<string>)
    requires IsAccountCode(code) && |args| != 1
    requires TokenList(args)
    ensures ParseArguments(code, codeStr, raw, args) == Fail(codeStr + " expects <account>/<ip>")
  {
  }

  lemma AmountArity(code: CommandCode, codeStr: string, raw: string, args: seq<string>)
    requires IsAmountCode(code) && |args| != 2
    requires TokenList(args)
    ensures ParseArguments(code, codeStr, raw, args) == Fail(codeStr + " expects <account>/<ip> <amount>")
  {
  }

  /** AB and AR with one argument read it as the <account>/<ip> token. */
  lemma AccountDispatch(code: CommandCode, codeStr: string, raw: string, args: seq<string>)
    requires IsAccountCode(code) && |args| == 1
    requires TokenList(args)
    ensures ' ' !in args[0]
    ensures ParseArguments(code, codeStr, raw, args) == ParseTarget(code, raw, args[0], None)
  {
    assert ' ' !in args[0];
    assert !IsNodeCode(code);
  }

  /** AD and AW with two arguments read them as the pair and the amount. */
  lemma AmountDispatch(code: CommandCode, codeStr: string, raw: string, args: seq<string>)
    requires IsAmountCode(code) && |args| == 2
    requires TokenList(args)
    ensures ' ' !in args[0]
    ensures ParseArguments(code, codeStr, raw, args) == ParseAmountArguments(code, raw, args[0], args[1])
  {
    assert ' ' !in args[0];
    assert !IsNodeCode(code) && !IsAccountCode(code);
  }

  /** At the argument step, AB and AR with a pair that does not split are a format error. */
  lemma BadAccountPairArguments(code: CommandCode, codeStr: string, raw: string, args: seq<string>)
    requires IsAccountCode(code) && |args| == 1
    requires TokenList(args)
    requires |SplitPair(args[0], '/')| != 2
    ensures ParseArguments(code, codeStr, raw, args) == Fail("Invalid <account>/<ip> format")
  {
    AccountDispatch(code, codeStr, raw, args);
    TargetFacts(code, raw, raw, args[0], None);
  }

  /** At the argument step, AD and AW with a pair that does not split are a
      format error, whatever the amount: the pair is checked first. */
  lemma BadAmountPairArguments(code: CommandCode, codeStr: string, raw: string, args: seq<string>)
    requires IsAmountCode(code) && |args| == 2
    requires TokenList(args)
    requires |SplitPair(args[0], '/')| != 2
    ensures ParseArguments(code, codeStr, raw, args) == Fail("Invalid <account>/<ip> format")
  {
    AmountDispatch(code, codeStr, raw, args);
    AmountFacts(code, raw, raw, args[0], args[1]);
  }

  lemma BadAmountArguments(code: CommandCode, codeStr: string, raw: string, args: seq<string>)
    requires IsAmountCode(code) && |args| == 2
    requires TokenList(args)
    requires |SplitPair(args[0], '/')| == 2 && TryParseInt64(args[1]).None?
    ensures ParseArguments(code, codeStr, raw, args) == Fail("Invalid amount")
  {
    AmountDispatch(code, codeStr, raw, args);
    AmountFacts(code, raw, raw, args[0], args[1]);
  }

  /** BC, AC, BA and BN, in any letter case, parse only when alone on the line. */
  lemma ParseNodeCommand(words: seq<string>, code: CommandCode)
    requires LineWords(words) && IsNodeCode(code) && ToUpper(words[0]) == CodeName(code)
    ensures Parse(Some(Join(words, ' ')))
         == if |words| == 1 then Succeed(ParsedCommand(code, Join(words, ' '), None, None, None))
            else Fail(CodeName(code) + " takes no parameters")
  {
    WordsOfCode(words, code);
  }

  /** AB and AR, in any letter case, need exactly two tokens. */
  lemma AccountCodeArity(words: seq<string>, code: CommandCode)
    requires LineWords(words) && IsAccountCode(code) && ToUpper(words[0]) == CodeName(code)
    requires |words| != 2
    ensures Parse(Some(Join(words, ' '))) == Fail(CodeName(code) + " expects <account>/<ip>")
  {
    var args := words[1..];
    TailTokens(words);
    AccountArity(code, CodeName(code), Join(words, ' '), args);
    WordsOfCode(words, code);
  }

  /** AD and AW, in any letter case, need exactly three tokens. */
  lemma AmountCodeArity(words: seq<string>, code: CommandCode)
    requires LineWords(words) && IsAmountCode(code) && ToUpper(words[0]) == CodeName(code)
    requires |words| != 3
    ensures Parse(Some(Join(words, ' '))) == Fail(CodeName(code) + " expects <account>/<ip> <amount>")
  {
    var args := words[1..];
    TailTokens(words);
    AmountArity(code, CodeName(code), Join(words, ' '), args);
    WordsOfCode(words, code);
  }

  /** A pair token that does not split into two non-empty entries is a format error,
      whether or not an amount follows. */
  lemma BadAccountPair(words: seq<string>, code: CommandCode)
    requires LineWords(words) && ToUpper(words[0]) == CodeName(code)
    requires (IsAccountCode(code) && |words| == 2) || (IsAmountCode(code) && |words| == 3)
    requires |SplitPair(words[1], '/')| != 2
    ensures Parse(Some(Join(words, ' '))) == Fail("Invalid <account>/<ip> format")
  {
    var args := words[1..];
    TailTokens(words);
    assert args[0] == words[1];
    if IsAccountCode(code) {
      BadAccountPairArguments(code, CodeName(code), Join(words, ' '), args);
    } else {
      BadAmountPairArguments(code, CodeName(code), Join(words, ' '), args);
    }
    WordsOfCode(words, code);
  }

  /** An amount token that is not a 64-bit integer is an amount error. */
  lemma BadAmount(words: seq<string>, code: CommandCode)
    requires LineWords(words) && ToUpper(words[0]) == CodeName(code)
    requires IsAmountCode(code) && |words| == 3
    requires |SplitPair(words[1], '/')| == 2 && TryParseInt64(words[2]).None?
    ensures Parse(Some(Join(words, ' '))) == Fail("Invalid amount")
  {
    var args := words[1..];
    TailTokens(words);
    assert args[0] == words[1] && args[1] == words[2];
    BadAmountArguments(code, CodeName(code), Join(words, ' '), args);
    WordsOfCode(words, code);
  }

  /** "<account>/<ip>" splits back into its account and address. */
  lemma SplitAccountPair(account: string, bankIp: string)
    requires account != [] && '/' !in account
    requires bankIp != [] && bankIp[0] != '/'
    ensures SplitPair(account + "/" + bankIp, '/') == [account, bankIp]
  {
    SplitPairOf('/', 0, account, 0, bankIp);
    assert Repeat('/', 0) + (account + ['/'] + (Repeat('/', 0) + bankIp)) == account + "/" + bankIp;
  }

  /** An <account>/<ip> pair of that shape contains no space. */
  lemma PairSpaceFree(account: string, bankIp: string)
    requires AccountPairShape(account, bankIp)
    ensures ' ' !in account + "/" + bankIp && account + "/" + bankIp != []
  {
    var pair := account + "/" + bankIp;
    forall i | 0 <= i < |pair| ensures pair[i] != ' ' {
      if i < |account| {
        assert pair[i] == account[i];
      } else if i > |account| {
        assert pair[i] == bankIp[i - |account| - 1];
      }
    }
  }

  lemma AccountArguments(code: CommandCode, codeStr: string, raw: string, account: string, bankIp: string)
    requires IsAccountCode(code) && AccountPairShape(account, bankIp)
    ensures ' ' !in account + "/" + bankIp && account + "/" + bankIp != []
    ensures ParseArguments(code, codeStr, raw, [account + "/" + bankIp])
         == Succeed(ParsedCommand(code, raw, Some(account), Some(bankIp), None))
  {
    PairSpaceFree(account, bankIp);
    SplitAccountPair(account, bankIp);
  }

  lemma AmountArguments(code: CommandCode, codeStr: string, raw: string, account: string, bankIp: string, amount: Int64)
    requires IsAmountCode(code) && AccountPairShape(account, bankIp)
    ensures ' ' !in account + "/" + bankIp && account + "/" + bankIp != []
    ensures ' ' !in DecimalString(amount)
    ensures ParseArguments(code, codeStr, raw, [account + "/" + bankIp, DecimalString(amount)])
         == Succeed(ParsedCommand(code, raw, Some(account), Some(bankIp), Some(amount)))
  {
    var pair := account + "/" + bankIp;
    var num := DecimalString(amount);
    PairSpaceFree(account, bankIp);
    DecimalStringPlain(amount);
    assert [pair, num][0] == pair && [pair, num][1] == num;
    AmountDispatch(code, codeStr, raw, [pair, num]);
    SplitAccountPair(account, bankIp);
    ParseInt64DecimalString(amount);
    assert ParseAmountArguments(code, raw, pair, num) == ParseTarget(code, raw, pair, Some(amount));
  }

  /** A word that upper-cases to a code name is two letters, so it holds no white space. */
  lemma CodeWord(word: string, code: CommandCode)
    requires code != Unknown && ToUpper(word) == CodeName(code)
    ensures |word| == 2 && forall i | 0 <= i < |word| :: !IsWhiteSpace(word[i])
  {
    assert |CodeName(code)| == 2;
    forall i | 0 <= i < |word| ensures !IsWhiteSpace(word[i]) {
      assert UpperChar(word[i]) == CodeName(code)[i];
    }
  }

  /** Joining words with single spaces, written out for two and three words. */
  lemma JoinTwo(a: string, b: string)
    ensures Join([a, b], ' ') == a + " " + b
  {
    assert [a, b][1..] == [b];
  }

  lemma JoinThree(a: string, b: string, c: string)
    ensures Join([a, b, c], ' ') == a + " " + b + " " + c
  {
    assert [a, b, c][1..] == [b, c];
    JoinTwo(b, c);
  }

  /** AB and AR with a well-formed pair parse to that account and address, no amount. */
  lemma ParseAccountCommand(word: string, code: CommandCode, account: string, bankIp: string)
    requires IsAccountCode(code) && ToUpper(word) == CodeName(code)
    requires AccountPairShape(account, bankIp)
    requires !IsWhiteSpace(word[0]) && !IsWhiteSpace(bankIp[|bankIp| - 1])
    ensures Parse(Some(word + " " + (account + "/" + bankIp)))
         == Succeed(ParsedCommand(code, word + " " + (account + "/" + bankIp), Some(account), Some(bankIp), None))
  {
    var pair := account + "/" + bankIp;
    var words := [word, pair];
    AccountLineWords(word, code, account, bankIp);
    AccountArguments(code, CodeName(code), Join(words, ' '), account, bankIp);
    JoinTwo(word, pair);
    assert words[1..] == [pair];
    WordsOfCode(words, code);
  }

  lemma AccountLineWords(word: string, code: CommandCode, account: string, bankIp: string)
    requires IsAccountCode(code) && ToUpper(word) == CodeName(code)
    requires AccountPairShape(account, bankIp)
    requires !IsWhiteSpace(word[0]) && !IsWhiteSpace(bankIp[|bankIp| - 1])
    ensures LineWords([word, account + "/" + bankIp])
  {
    var pair := account + "/" + bankIp;
    CodeWord(word, code);
    SpaceFree(word);
    PairSpaceFree(account, bankIp);
    assert pair[|pair| - 1] == bankIp[|bankIp| - 1];
    TwoTokens(word, pair);
  }

  lemma TwoTokens(a: string, b: string)
    requires a != [] && ' ' !in a && b != [] && ' ' !in b
    ensures TokenList([a, b])
  {
    var w := [a, b];
    forall i | 0 <= i < |w| ensures w[i] != [] && ' ' !in w[i] {
      if i == 0 {} else {}
    }
  }

  lemma ThreeTokens(a: string, b: string, c: string)
    requires a != [] && ' ' !in a && b != [] && ' ' !in b && c != [] && ' ' !in c
    ensures TokenList([a, b, c])
  {
    var w := [a, b, c];
    forall i | 0 <= i < |w| ensures w[i] != [] && ' ' !in w[i] {
      if i == 0 {} else if i == 1 {} else {}
    }
  }

  /** AD and AW with a well-formed pair and a rendered 64-bit amount parse to exactly those values. */
  lemma ParseAmountCommand(word: string, code: CommandCode, account: string, bankIp: string, amount: Int64)
    requires IsAmountCode(code) && ToUpper(word) == CodeName(code)
    requires AccountPairShape(account, bankIp) && !IsWhiteSpace(word[0])
    ensures Parse(Some(word + " " + (account + "/" + bankIp) + " " + DecimalString(amount)))
         == Succeed(ParsedCommand(code, word + " " + (account + "/" + bankIp) + " " + DecimalString(amount),
                                  Some(account), Some(bankIp), Some(amount)))
  {
    var pair := account + "/" + bankIp;
    var num := DecimalString(amount);
    var words := [word, pair, num];
    AmountLineWords(word, code, account, bankIp, amount);
    AmountArguments(code, CodeName(code), Join(words, ' '), account, bankIp, amount);
    JoinThree(word, pair, num);
    assert words[1..] == [pair, num];
    WordsOfCode(words, code);
  }

  lemma AmountLineWords(word: string, code: CommandCode, account: string, bankIp: string, amount: Int64)
    requires IsAmountCode(code) && ToUpper(word) == CodeName(code)
    requires AccountPairShape(account, bankIp) && !IsWhiteSpace(word[0])
    ensures LineWords([word, account + "/" + bankIp, DecimalString(amount)])
  {
    var pair := account + "/" + bankIp;
    var num := DecimalString(amount);
    var words := [word, pair, num];
    CodeWord(word, code);
    SpaceFree(word);
    PairSpaceFree(account, bankIp);
    DecimalStringPlain(amount);
    SpaceFree(num);
    ThreeTokens(word, pair, num);
    assert !IsWhiteSpace(num[|num| - 1]);
  }

  /** Leading and doubled slashes are empty entries that the split drops. */
  lemma SlashRunsDropped(account: string, bankIp: string)
    requires account != [] && '/' !in account
    requires bankIp != [] && bankIp[0] != '/'
    ensures SplitPair("//" + account + "//" + bankIp, '/') == [account, bankIp]
  {
    var s := "//" + account + "//" + bankIp;
    var t := Repeat('/', 2) + (account + ['/'] + (Repeat('/', 1) + bankIp));
    assert s == t by {
      assert Repeat('/', 1) == "/";
      assert Repeat('/', 2) == "//";
      assert |s| == |t|;
      forall i | 0 <= i < |s| ensures s[i] == t[i] {
        if i < 2 {} else if i < 2 + |account| {} else if i < 4 + |account| {} else {}
      }
    }
    SplitPairOf('/', 2, account, 1, bankIp);
  }
}
