/**
 * Domain.BankService: the node's own account table. Accounts are keyed by
 * number; a cursor remembers the last number handed out; every successful
 * creation writes a snapshot of the whole state. Each method runs as one
 * atomic step (the source holds a lock around each).
 */
module Domain {
  import opened Wrappers
  import opened Numerals

  /** The account numbers this bank hands out: 10000..99999. */
  const FirstNumber: int := 10000
  const LastNumber: int := 99999

  /** Account (and AccountDto): a number and its balance. */
  datatype Account = Account(number: Int32, balance: Int64)

  /** BankStateDto: the persisted state. */
  datatype BankState = BankState(bankIp: string, lastAccountNumber: Int32, accounts: seq<Account>)

  /** The exceptions the service raises: the ArgumentException of a repeated
      dictionary key, InvalidOperationException when the numbers run out,
      ArgumentOutOfRangeException and KeyNotFoundException on lookup. */
  datatype BankError =
    | DuplicateKey(number: Int32)
    | Exhausted
    | OutOfRange
    | NotFound

  predicate InRange(n: int) {
    FirstNumber <= n <= LastNumber
  }

  /** No number occurs twice in a list of accounts. */
  predicate DistinctNumbers(accounts: seq<Account>) {
    forall i, j | 0 <= i < j < |accounts| :: accounts[i].number != accounts[j].number
  }

  function NumberSet(accounts: seq<Account>): set<Int32> {
    set i | 0 <= i < |accounts| :: accounts[i].number
  }

  /** ToDictionary(a => a.Number, ...), continued from a table already built:
      entries are added in order, and the first number already present fails. */
  function AddAll(accounts: seq<Account>, table: map<Int32, Int64>): (r: Result<map<Int32, Int64>, Int32>)
    ensures r.Success? <==>
      DistinctNumbers(accounts) && forall i | 0 <= i < |accounts| :: accounts[i].number !in table
    ensures r.Success? ==>
      && r.value.Keys == table.Keys + NumberSet(accounts)
      && (forall k | k in table :: r.value[k] == table[k])
      && (forall i | 0 <= i < |accounts| :: r.value[accounts[i].number] == accounts[i].balance)
    ensures r.Failure? ==>
      exists i | 0 <= i < |accounts| :: accounts[i].number == r.error
        && (r.error in table || exists j | 0 <= j < i :: accounts[j].number == r.error)
    decreases |accounts|
  {
    if accounts == [] then Success(table)
    else
      var a := accounts[0];
      if a.number in table then Failure(a.number)
      else
        var r := AddAll(accounts[1..], table[a.number := a.balance]);
        assert forall i | 1 <= i < |accounts| :: accounts[i] == accounts[1..][i - 1];
        assert NumberSet(accounts) == {a.number} + NumberSet(accounts[1..]);
        if r.Failure? then
          var i :| 0 <= i < |accounts[1..]| && accounts[1..][i].number == r.error
            && (r.error in table[a.number := a.balance] || exists j | 0 <= j < i :: accounts[1..][j].number == r.error);
          assert accounts[i + 1].number == r.error;
          assert r.error in table || exists j | 0 <= j < i + 1 :: accounts[j].number == r.error;
          r
        else
          r
  }

  /** The table ToDictionary builds from a list of accounts. */
  function ToTable(accounts: seq<Account>): (r: Result<map<Int32, Int64>, Int32>)
    ensures r.Success? <==> DistinctNumbers(accounts)
    ensures r.Success? ==> r.value.Keys == NumberSet(accounts)
    ensures r.Success? ==> forall i | 0 <= i < |accounts| :: r.value[accounts[i].number] == accounts[i].balance
  {
    AddAll(accounts, map[])
  }

  /** Putting an account with a new number in front keeps the numbers distinct. */
  lemma PrependAccount(a: Account, rest: seq<Account>)
    requires DistinctNumbers(rest) && a.number !in NumberSet(rest)
    ensures DistinctNumbers([a] + rest)
    ensures NumberSet([a] + rest) == {a.number} + NumberSet(rest)
  {
    var r := [a] + rest;
    assert r[0] == a;
    forall i | 1 <= i < |r| ensures r[i] == rest[i - 1] && r[i].number in NumberSet(rest) {
    }
    forall i, j | 0 <= i < j < |r| ensures r[i].number != r[j].number {
      if i > 0 {
        assert r[i] == rest[i - 1] && r[j] == rest[j - 1];
      }
    }
    forall x | x in NumberSet(rest) ensures x in NumberSet(r) {
      var i :| 0 <= i < |rest| && rest[i].number == x;
      assert r[i + 1].number == x;
    }
  }

  /** The table's (number, balance) pairs for the given keys, in some order:
      what _accounts.Values yields. */
  ghost function Entries(table: map<Int32, Int64>, keys: set<Int32>): (r: seq<Account>)
    requires keys <= table.Keys
    ensures DistinctNumbers(r) && NumberSet(r) == keys
    ensures forall i | 0 <= i < |r| :: r[i].balance == table[r[i].number]
    decreases keys
  {
    if keys == {} then []
    else
      var k :| k in keys;
      var rest := Entries(table, keys - {k});
      PrependAccount(Account(k, table[k]), rest);
      var r := [Account(k, table[k])] + rest;
      assert forall i | 1 <= i < |r| :: r[i] == rest[i - 1];
      r
  }

  /** A list of all accounts of the table. */
  ghost function AllEntries(table: map<Int32, Int64>): seq<Account> {
    Entries(table, table.Keys)
  }

  /** A list holding each of a table's accounts once loads back into that table. */
  lemma ListingLoads(accounts: seq<Account>, table: map<Int32, Int64>)
    requires DistinctNumbers(accounts) && NumberSet(accounts) == table.Keys
    requires forall i | 0 <= i < |accounts| :: accounts[i].balance == table[accounts[i].number]
    ensures ToTable(accounts) == Success(table)
  {
    var loaded := ToTable(accounts).value;
    forall k | k in table ensures loaded[k] == table[k] {
      var i :| 0 <= i < |accounts| && accounts[i].number == k;
    }
    assert loaded == table;
  }

  /** Saved accounts load back into the very table they were saved from. */
  lemma SavedTableLoads(table: map<Int32, Int64>)
    ensures ToTable(AllEntries(table)) == Success(table)
  {
    var entries := AllEntries(table);
    ListingLoads(entries, table);
  }

  /** The sum of the balances under the given keys. */
  ghost function Sum(table: map<Int32, Int64>, keys: set<Int32>): int
    requires keys <= table.Keys
    decreases keys
  {
    if keys == {} then 0
    else
      var k :| k in keys;
      table[k] + Sum(table, keys - {k})
  }

  /** The sum of all balances. */
  ghost function Total(table: map<Int32, Int64>): int {
    Sum(table, table.Keys)
  }

  /** Any key may be taken out of the sum first. */
  lemma {:induction false} SumRemove(table: map<Int32, Int64>, keys: set<Int32>, k: Int32)
    requires keys <= table.Keys && k in keys
    ensures Sum(table, keys) == table[k] + Sum(table, keys - {k})
    decreases keys
  {
    var j :| j in keys && Sum(table, keys) == table[j] + Sum(table, keys - {j});
    if j != k {
      SumRemove(table, keys - {j}, k);
      SumRemove(table, keys - {k}, j);
      assert keys - {j} - {k} == keys - {k} - {j};
    }
  }

  /** Adding a fresh account with balance 0 leaves the total alone. */
  lemma TotalAddZero(table: map<Int32, Int64>, n: Int32)
    requires n !in table
    ensures Total(table[n := 0]) == Total(table)
  {
    var t := table[n := 0];
    SumRemove(t, t.Keys, n);
    assert t.Keys - {n} == table.Keys;
    SumSameKeys(t, table, table.Keys);
  }

  /** Sums over keys on which two tables agree are equal. */
  lemma {:induction false} SumSameKeys(t1: map<Int32, Int64>, t2: map<Int32, Int64>, keys: set<Int32>)
    requires keys <= t1.Keys && keys <= t2.Keys
    requires forall k | k in keys :: t1[k] == t2[k]
    ensures Sum(t1, keys) == Sum(t2, keys)
    decreases keys
  {
    if keys != {} {
      var k :| k in keys && Sum(t1, keys) == t1[k] + Sum(t1, keys - {k});
      SumSameKeys(t1, t2, keys - {k});
      SumRemove(t2, keys, k);
    }
  }

  /** _lastAccount's advance exactly as written: in C#'s unchecked int
      arithmetic the increment wraps from int.MaxValue to int.MinValue. */
  function AdvanceAsWritten(cursor: Int32): (r: Int32)
    ensures cursor < FirstNumber ==> r == FirstNumber
    ensures FirstNumber <= cursor < Int32Max ==> r == cursor + 1
    ensures cursor == Int32Max ==> r == Int32Min
  {
    if cursor < FirstNumber then FirstNumber
    else if cursor == Int32Max then Int32Min
    else cursor + 1
  }

  /** The wrapped cursor passes the range check and would be handed out:
      a negative account number. */
  lemma CursorWrapCreatesNegativeAccount()
    ensures var n := AdvanceAsWritten(Int32Max);
      !(n > LastNumber) && n < 0 && !InRange(n)
  {
  }

  /** The advance the range check relies on: never below 10000, never
      backwards, and stuck at int.MaxValue rather than wrapping, so an
      exhausted cursor stays exhausted. */
  function Advance(cursor: Int32): (r: Int32)
    ensures r >= FirstNumber && r >= cursor
    ensures cursor < Int32Max ==> r > cursor
    ensures cursor > LastNumber ==> r > LastNumber
  {
    if cursor < FirstNumber then FirstNumber
    else if cursor < Int32Max then cursor + 1
    else cursor
  }

  /** Below int.MaxValue the corrected advance is the one written. */
  lemma AdvanceAgreesBelowMax(cursor: Int32)
    requires cursor < Int32Max
    ensures Advance(cursor) == AdvanceAsWritten(cursor)
  {
  }

  /** Strictly increasing: numbers handed out, in order. */
  predicate Increasing(s: seq<Int32>) {
    forall i, j | 0 <= i < j < |s| :: s[i] < s[j]
  }

  /** Numbers handed out are increasing, in range, at most the cursor, and still held. */
  ghost predicate Consistent(issued: seq<Int32>, cursor: Int32, accounts: map<Int32, Int64>) {
    && Increasing(issued)
    && forall i | 0 <= i < |issued| ::
         InRange(issued[i]) && issued[i] <= cursor && issued[i] in accounts
  }

  /** Every account number is at most the cursor. */
  predicate KeysAtMost(accounts: map<Int32, Int64>, cursor: Int32) {
    forall k | k in accounts :: k <= cursor
  }

  /** Moving the cursor forward keeps the record of handed-out numbers consistent. */
  lemma AdvanceKeepsConsistent(issued: seq<Int32>, cursor: Int32, accounts: map<Int32, Int64>)
    requires Consistent(issued, cursor, accounts)
    ensures Consistent(issued, Advance(cursor), accounts)
    ensures KeysAtMost(accounts, cursor) ==> KeysAtMost(accounts, Advance(cursor))
    ensures KeysAtMost(accounts, cursor) && Advance(cursor) <= LastNumber ==> Advance(cursor) !in accounts
  {
  }

  /** Handing out the advanced cursor as a new account keeps the record consistent. */
  lemma IssueKeepsConsistent(issued: seq<Int32>, cursor: Int32, accounts: map<Int32, Int64>)
    requires Consistent(issued, cursor, accounts)
    requires InRange(Advance(cursor))
    requires Advance(cursor) !in accounts
    ensures Consistent(issued + [Advance(cursor)], Advance(cursor), accounts[Advance(cursor) := 0])
    ensures |accounts[Advance(cursor) := 0]| == |accounts| + 1
    ensures KeysAtMost(accounts, cursor) ==> KeysAtMost(accounts[Advance(cursor) := 0], Advance(cursor))
  {
    var n := Advance(cursor);
    assert n > cursor;
    var s := issued + [n];
    forall i, j | 0 <= i < j < |s| ensures s[i] < s[j] {
      if j == |issued| {
        assert s[i] == issued[i] <= cursor;
      }
    }
  }

  class BankService {
    const bankIp: string
    var accounts: map<Int32, Int64>
    var lastAccount: Int32
    /** The state SaveLocked last wrote, if any. */
    ghost var saved: Option<BankState>
    /** The numbers CreateAccount has handed out, in order. */
    ghost var issued: seq<Int32>

    /** Numbers handed out are increasing, in range, at most the cursor, and still held. */
    ghost predicate Valid()
      reads this
    {
      Consistent(issued, lastAccount, accounts)
    }

    /** Every account number is at most the cursor. */
    predicate CursorCoversKeys()
      reads this
    {
      KeysAtMost(accounts, lastAccount)
    }

    /** The constructor, given a state without repeated numbers (Open handles the other case). */
    constructor(state: BankState, bankIp: string)
      requires DistinctNumbers(state.accounts)
      ensures this.bankIp == bankIp && lastAccount == state.lastAccountNumber
      ensures accounts.Keys == NumberSet(state.accounts)
      ensures forall i | 0 <= i < |state.accounts| ::
        accounts[state.accounts[i].number] == state.accounts[i].balance
      ensures saved == None && issued == []
      ensures Valid()
    {
      this.bankIp := bankIp;
      lastAccount := state.lastAccountNumber;
      accounts := ToTable(state.accounts).value;
      saved := None;
      issued := [];
    }

    /** new BankService(state, ...): fails as ToDictionary does when a number repeats. */
    static method Open(state: BankState, bankIp: string) returns (r: Result<BankService, Int32>)
      ensures r.Failure? <==> !DistinctNumbers(state.accounts)
      ensures r.Failure? ==> ToTable(state.accounts) == Failure(r.error)
      ensures r.Success? ==>
        && fresh(r.value) && r.value.Valid()
        && r.value.bankIp == bankIp && r.value.lastAccount == state.lastAccountNumber
        && ToTable(state.accounts) == Success(r.value.accounts)
    {
      match ToTable(state.accounts)
      case Failure(n) =>
        r := Failure(n);
      case Success(table) =>
        var service := new BankService(state, bankIp);
        assert service.accounts == table;
        r := Success(service);
    }

    /** SaveLocked: the snapshot is the bank address, the cursor and every account. */
    method SaveLocked()
      modifies this`saved
      ensures saved == Some(BankState(bankIp, lastAccount, AllEntries(accounts)))
      ensures ToTable(saved.value.accounts) == Success(accounts)
    {
      saved := Some(BankState(bankIp, lastAccount, AllEntries(accounts)));
      SavedTableLoads(accounts);
    }

    /** CreateAccount: advance the cursor, refuse past 99999, add the account
        with balance 0 (Dictionary.Add refuses a number already present), save. */
    method CreateAccount() returns (r: Result<Account, BankError>)
      requires Valid()
      modifies this
      ensures Valid()
      ensures lastAccount == Advance(old(lastAccount))
      ensures r.Success? <==> InRange(lastAccount) && lastAccount !in old(accounts)
      ensures r.Failure? ==>
        r.error == if lastAccount > LastNumber then Exhausted else DuplicateKey(lastAccount)
      ensures r.Success? ==>
        && r.value == Account(lastAccount, 0)
        && accounts == old(accounts)[lastAccount := 0]
        && |accounts| == |old(accounts)| + 1
        && issued == old(issued) + [lastAccount]
        && saved == Some(BankState(bankIp, lastAccount, AllEntries(accounts)))
      ensures r.Failure? ==> accounts == old(accounts) && issued == old(issued) && saved == old(saved)
      ensures old(CursorCoversKeys()) ==> CursorCoversKeys() && (r.Failure? ==> r.error == Exhausted)
    {
      var cursor := lastAccount;
      var next := Advance(cursor);
      lastAccount := next;
      AdvanceKeepsConsistent(issued, cursor, accounts);
      if next > LastNumber {
        r := Failure(Exhausted);
      } else if next in accounts {
        r := Failure(DuplicateKey(next));
      } else {
        IssueKeepsConsistent(issued, cursor, accounts);
        accounts := accounts[next := 0];
        issued := issued + [next];
        SaveLocked();
        r := Success(Account(next, 0));
      }
    }

    /** GetAccountLocked: range check first, then the lookup. */
    function GetAccountLocked(accountNumber: Int32): (r: Result<Account, BankError>)
      reads this
      ensures r.Success? <==> InRange(accountNumber) && accountNumber in accounts
      ensures r.Success? ==> r.value == Account(accountNumber, accounts[accountNumber])
      ensures r.Failure? ==> r.error == if InRange(accountNumber) then NotFound else OutOfRange
    {
      if accountNumber < FirstNumber || accountNumber > LastNumber then Failure(OutOfRange)
      else if accountNumber !in accounts then Failure(NotFound)
      else Success(Account(accountNumber, accounts[accountNumber]))
    }

    /** GetBalance: the stored balance, or the lookup's error. */
    method GetBalance(accountNumber: Int32) returns (r: Result<Int64, BankError>)
      ensures r.Success? <==> InRange(accountNumber) && accountNumber in accounts
      ensures r.Success? ==> r.value == accounts[accountNumber]
      ensures r.Failure? ==> r.error == if InRange(accountNumber) then NotFound else OutOfRange
    {
      var account := GetAccountLocked(accountNumber);
      match account
      case Failure(e) => r := Failure(e);
      case Success(a) => r := Success(a.balance);
    }

    /** GetTotalAmount: the balances added up one account at a time. */
    method GetTotalAmount() returns (sum: int)
      ensures sum == Total(accounts)
    {
      sum := 0;
      var rest := accounts.Keys;
      while rest != {}
        invariant rest <= accounts.Keys
        invariant sum + Sum(accounts, rest) == Total(accounts)
        decreases rest
      {
        var k :| k in rest;
        SumRemove(accounts, rest, k);
        sum := sum + accounts[k];
        rest := rest - {k};
      }
    }

    /** GetNumberOfClients: how many accounts there are. */
    method GetNumberOfClients() returns (count: int)
      ensures count == |accounts|
      ensures count == |accounts.Keys|
    {
      count := |accounts|;
    }
  }
}
