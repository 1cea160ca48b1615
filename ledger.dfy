/**
 * The ledger (`Bank` in src/models.rs, `impl Bank` in src/service.rs): the
 * accounts keyed by id, started from the data file, and the four operations
 * that validate a request, update the map in place and persist it.
 */
module Ledger {
  import opened Wrappers
  import opened Strings
  import opened AccountRecord
  import opened LedgerFile

  /** The data file as the ledger finds it at start-up. */
  datatype DataFile = Missing | Unreadable | Present(content: string)

  /** Why an operation refused a request; each is reported and nothing changes. */
  datatype Rejection =
    | AccountNameTaken
    | NoSuchAccount
    | InvalidAmount
    | InsufficientFunds(amount: UInt32, balance: UInt32)
    | BalanceOverflow

  /**
   * What an operation did: completed, with the text it handed to the file
   * write, or rejected with its reason.
   */
  datatype Outcome = Completed(saved: string) | Rejected(reason: Rejection)

  /**
   * `current_balance += amount` where the sum fits in a `u32`: only the
   * current balance changes, and it agrees with the unchecked addition.
   */
  function Credited(account: Account, amount: UInt32): (r: Account)
    requires account.currentBalance + amount <= MaxUInt32
    ensures r.id == account.id && r.openingBalance == account.openingBalance
    ensures r.currentBalance == DepositAsWritten(account.currentBalance, amount)
  {
    account.(currentBalance := account.currentBalance + amount)
  }

  /**
   * `current_balance -= amount` once the amount is known not to exceed the
   * balance: only the current balance changes, it never grows, and taking
   * the whole balance leaves 0.
   */
  function Debited(account: Account, amount: UInt32): (r: Account)
    requires amount <= account.currentBalance
    ensures r.id == account.id && r.openingBalance == account.openingBalance
    ensures r.currentBalance <= account.currentBalance
    ensures r.currentBalance + amount == account.currentBalance
    ensures amount == account.currentBalance ==> r.currentBalance == 0
  {
    account.(currentBalance := account.currentBalance - amount)
  }

  class Bank {
    var accounts: Accounts

    /** Every account is filed under its own id. */
    ghost predicate Valid()
      reads this
    {
      KeysMatchIds(accounts)
    }

    constructor (accounts: Accounts)
      requires KeysMatchIds(accounts)
      ensures Valid() && this.accounts == accounts
    {
      this.accounts := accounts;
    }

    /**
     * `Bank::init`: an empty ledger when there is no data file, the file's
     * accounts when it can be read, and no ledger at all when it cannot.
     */
    static method Init(file: DataFile) returns (bank: Option<Bank>)
      ensures bank.None? <==> file.Unreadable?
      ensures bank.Some? ==> fresh(bank.value) && bank.value.Valid()
      ensures file.Missing? ==> bank.Some? && bank.value.accounts == map[]
      ensures file.Present? ==> bank.Some? && bank.value.accounts == Load(file.content)
    {
      match file {
        case Missing =>
          var empty := new Bank(map[]);
          bank := Some(empty);
        case Unreadable =>
          bank := None;
        case Present(content) =>
          var accounts := LoadAccounts(content);
          var loaded := new Bank(accounts);
          bank := Some(loaded);
      }
    }

    /**
     * `Bank::perist`: every account's record line and a newline, in the
     * order the map yields its accounts (`order`, which the map chooses).
     */
    method Persist() returns (data: string, ghost order: seq<string>)
      requires Valid()
      ensures Enumerates(order, accounts) && data == Render(order, accounts)
    {
      data, order := "", [];
      var rest := accounts.Keys;
      while rest != {}
        invariant Visiting(order, rest, accounts)
        invariant data == Render(order, accounts)
        decreases |rest|
      {
        var k :| k in rest;
        var line := ToCsv(accounts[k]) + "\n";
        RenderAppend(order, k, accounts);
        VisitNext(order, rest, k, accounts);
        data, order, rest := data + line, order + [k], rest - {k};
      }
      VisitDone(order, accounts);
    }

    /**
     * `Bank::open_account`: an id already in use is refused, then an opening
     * balance that is not a `u32`; otherwise exactly one account is added,
     * holding the opening balance, and the ledger is persisted.
     */
    method OpenAccount(id: string, openingText: string) returns (outcome: Outcome)
      requires Valid()
      modifies this
      ensures Valid()
      ensures id in old(accounts) ==> outcome == Rejected(AccountNameTaken) && accounts == old(accounts)
      ensures id !in old(accounts) && ParseUInt32(openingText) == None ==>
        outcome == Rejected(InvalidAmount) && accounts == old(accounts)
      ensures id !in old(accounts) && ParseUInt32(openingText).Some? ==>
        && outcome.Completed?
        && accounts == old(accounts)[id := NewAccount(id, ParseUInt32(openingText).value)]
      ensures outcome.Completed? ==> IsRenderingOf(outcome.saved, accounts)
    {
      if id in accounts {
        return Rejected(AccountNameTaken);
      }
      var opening := ParseUInt32(openingText);
      if opening.None? {
        return Rejected(InvalidAmount);
      }
      accounts := accounts[id := NewAccount(id, opening.value)];
      var data;
      ghost var order;
      data, order := Persist();
      outcome := Completed(data);
    }

    /**
     * `Bank::deposit`: an unknown id is refused, then an amount that is not a
     * `u32`, then a deposit that would take the balance past the `u32` range;
     * otherwise only that account's current balance grows, by the amount.
     */
    method Deposit(id: string, amountText: string) returns (outcome: Outcome)
      requires Valid()
      modifies this
      ensures Valid()
      ensures id !in old(accounts) ==> outcome == Rejected(NoSuchAccount) && accounts == old(accounts)
      ensures id in old(accounts) && ParseUInt32(amountText) == None ==>
        outcome == Rejected(InvalidAmount) && accounts == old(accounts)
      ensures id in old(accounts) && ParseUInt32(amountText).Some? ==>
        var before, amount := old(accounts)[id], ParseUInt32(amountText).value;
        if before.currentBalance + amount > MaxUInt32 then
          outcome == Rejected(BalanceOverflow) && accounts == old(accounts)
        else
          && outcome.Completed?
          && accounts == old(accounts)[id := Credited(before, amount)]
      ensures outcome.Completed? ==> IsRenderingOf(outcome.saved, accounts)
    {
      if id !in accounts {
        return Rejected(NoSuchAccount);
      }
      var parsed := ParseUInt32(amountText);
      if parsed.None? {
        return Rejected(InvalidAmount);
      }
      var account, amount := accounts[id], parsed.value;
      if account.currentBalance + amount > MaxUInt32 {
        return Rejected(BalanceOverflow);
      }
      accounts := accounts[id := Credited(account, amount)];
      var data;
      ghost var order;
      data, order := Persist();
      outcome := Completed(data);
    }

    /**
     * `Bank::withdraw`: an unknown id is refused, then an amount that is not
     * a `u32`, then an amount above the current balance; otherwise only that
     * account's current balance shrinks, by the amount, and never below zero.
     */
    method Withdraw(id: string, amountText: string) returns (outcome: Outcome)
      requires Valid()
      modifies this
      ensures Valid()
      ensures id !in old(accounts) ==> outcome == Rejected(NoSuchAccount) && accounts == old(accounts)
      ensures id in old(accounts) && ParseUInt32(amountText) == None ==>
        outcome == Rejected(InvalidAmount) && accounts == old(accounts)
      ensures id in old(accounts) && ParseUInt32(amountText).Some? ==>
        var before, amount := old(accounts)[id], ParseUInt32(amountText).value;
        if amount > before.currentBalance then
          && outcome == Rejected(InsufficientFunds(amount, before.currentBalance))
          && accounts == old(accounts)
        else
          && outcome.Completed?
          && accounts == old(accounts)[id := Debited(before, amount)]
      ensures outcome.Completed? ==> IsRenderingOf(outcome.saved, accounts)
    {
      if id !in accounts {
        return Rejected(NoSuchAccount);
      }
      var parsed := ParseUInt32(amountText);
      if parsed.None? {
        return Rejected(InvalidAmount);
      }
      var account, amount := accounts[id], parsed.value;
      if amount > account.currentBalance {
        return Rejected(InsufficientFunds(amount, account.currentBalance));
      }
      accounts := accounts[id := Debited(account, amount)];
      var data;
      ghost var order;
      data, order := Persist();
      outcome := Completed(data);
    }

    /**
     * `Bank::close_account`: an unknown id is refused; otherwise exactly that
     * account is removed, whatever its balance, and the ledger is persisted.
     */
    method CloseAccount(id: string) returns (outcome: Outcome)
      requires Valid()
      modifies this
      ensures Valid()
      ensures id !in old(accounts) ==> outcome == Rejected(NoSuchAccount) && accounts == old(accounts)
      ensures id in old(accounts) ==> outcome.Completed? && accounts == old(accounts) - {id}
      ensures outcome.Completed? ==> IsRenderingOf(outcome.saved, accounts)
    {
      if id !in accounts {
        return Rejected(NoSuchAccount);
      }
      accounts := accounts - {id};
      var data;
      ghost var order;
      data, order := Persist();
      outcome := Completed(data);
    }
  }

  /**
   * The balance update of `Bank::deposit` as written, `current_balance +=
   * amount` on `u32`, in a release build, where the sum wraps around modulo
   * 2^32 (a debug build panics instead).
   */
  function DepositAsWritten(balance: UInt32, amount: UInt32): (r: UInt32)
    ensures balance + amount <= MaxUInt32 ==> r == balance + amount
    ensures balance + amount > MaxUInt32 ==> r == balance + amount - (MaxUInt32 + 1)
  {
    (balance + amount) % (MaxUInt32 + 1)
  }

  /**
   * As written, a deposit that passes the `u32` range leaves the account
   * with less than it had.
   */
  lemma DepositAsWrittenLosesFunds(balance: UInt32, amount: UInt32)
    requires balance + amount > MaxUInt32
    ensures DepositAsWritten(balance, amount) < balance
  {
  }

  /** The smallest overflow: depositing 1 onto 4294967295 leaves 0. */
  lemma DepositAsWrittenWrapsToZero()
    ensures DepositAsWritten(MaxUInt32, 1) == 0
  {
  }

  /*
   * Walk-throughs of a session. Each amount is typed as its decimal text,
   * `DecimalOf(n)`, which parses back to `n`.
   */

  /** A session begins: an account is opened with 100 and 50 is deposited into it. */
  method OpenAndDepositWalkthrough()
  {
    ParseDecimal(100);
    ParseDecimal(50);
    var bank := new Bank(map[]);
    var r := bank.OpenAccount("alice", DecimalOf(100));
    assert r.Completed? && bank.accounts["alice"] == Account("alice", 100, 100);
    r := bank.Deposit("alice", DecimalOf(50));
    assert r.Completed? && bank.accounts["alice"] == Account("alice", 100, 150);
  }

  /** Opening an id twice: the second request is refused and the first balance stays. */
  method OpenTwiceWalkthrough()
  {
    ParseDecimal(100);
    ParseDecimal(5);
    var bank := new Bank(map[]);
    var r := bank.OpenAccount("bob", DecimalOf(100));
    r := bank.OpenAccount("bob", DecimalOf(5));
    assert r == Rejected(AccountNameTaken) && bank.accounts["bob"].currentBalance == 100;
  }

  /** An overdraft is refused and changes nothing; withdrawing all of a balance leaves 0. */
  method OverdraftWalkthrough()
  {
    ParseDecimal(200);
    ParseDecimal(150);
    var bank := new Bank(map["alice" := Account("alice", 100, 150)]);
    var r := bank.Withdraw("alice", DecimalOf(200));
    assert r == Rejected(InsufficientFunds(200, 150)) && bank.accounts["alice"].currentBalance == 150;
    r := bank.Withdraw("alice", DecimalOf(150));
    assert r.Completed? && bank.accounts["alice"] == Account("alice", 100, 0);
  }

  /** Closing the last account, whatever its balance, leaves a file that reloads empty. */
  method CloseWalkthrough()
  {
    var bank := new Bank(map["alice" := Account("alice", 100, 150)]);
    var r := bank.CloseAccount("alice");
    assert r.Completed? && bank.accounts == map[];
    PersistedTextLoadsBack(r.saved, bank.accounts);
    assert Load(r.saved) == map[];
  }
}
