/**
 * The pay keeper (x/pay/keeper.go) as an object that owns the account
 * table and updates it in place. Every method is proved to leave the
 * table, and return the tags and error, exactly as the matching function
 * of module Ledger describes; the properties of the transfers are proved
 * there.
 */
module PayKeeper {
  import opened Coins
  import opened Ledger

  class Keeper {
    /** The account store: the coins of every address that has an account. */
    var accounts: Accounts
    /** What each vesting account still locks at the current block time. */
    var locks: Locks

    /**
     * Only vesting accounts lock coins, and a vesting account exists: every
     * lock belongs to an address with an account. An account the keeper
     * creates is a plain one, with nothing locked.
     */
    ghost predicate Valid()
      reads this
    {
      locks.Keys <= accounts.Keys
    }

    constructor (initialAccounts: Accounts, initialLocks: Locks)
      requires initialLocks.Keys <= initialAccounts.Keys
      ensures Valid()
      ensures accounts == initialAccounts && locks == initialLocks
    {
      accounts := initialAccounts;
      locks := initialLocks;
    }

    /** getCoins: an address without an account holds no coins. */
    function GetCoins(addr: Address): (r: Coins)
      reads this
      ensures addr !in accounts ==> r == map[]
      ensures addr in accounts ==> r == accounts[addr]
    {
      Balance(accounts, addr)
    }

    /**
     * hasCoins: the account holds at least amt. On a non-negative balance
     * this is the denomination-wise order.
     */
    function HasCoins(addr: Address, amt: Coins): (r: bool)
      reads this
      ensures NonNegative(GetCoins(addr)) ==>
        (r <==> forall d :: AmountOf(amt, d) <= AmountOf(GetCoins(addr), d))
    {
      IsAllGTEMeaning(GetCoins(addr), amt);
      IsAllGTE(GetCoins(addr), amt)
    }

    /** setCoins: store amt as the coins of addr, creating the account if needed. */
    method SetCoins(addr: Address, amt: Coins)
      requires Valid()
      modifies this
      ensures Valid()
      ensures accounts == old(accounts)[addr := amt]
      ensures locks == old(locks)
    {
      accounts := accounts[addr := amt];
    }

    /**
     * subtractCoins: refuse, changing nothing, when amt exceeds the
     * spendable coins; otherwise store the old balance minus amt.
     */
    method SubtractCoins(addr: Address, amt: Coins) returns (newCoins: Coins, tags: seq<Tag>, err: Option<Error>)
      requires Valid()
      modifies this
      ensures Valid()
      ensures Step(accounts, newCoins, tags, err) == Subtract(old(accounts), old(locks), addr, amt)
      ensures locks == old(locks)
    {
      var oldCoins := GetCoins(addr);
      var spendable := SpendableOf(accounts, locks, addr);
      var (_, hasNeg) := SafeMinus(spendable, amt);
      if hasNeg {
        return amt, [], Some(InsufficientCoins);
      }
      newCoins := Minus(oldCoins, amt);
      SetCoins(addr, newCoins);
      tags := [Sender(addr)];
      err := None;
    }

    /**
     * addCoins: refuse, changing nothing, when the sum would be negative
     * somewhere; otherwise store the old balance plus amt.
     */
    method AddCoins(addr: Address, amt: Coins) returns (newCoins: Coins, tags: seq<Tag>, err: Option<Error>)
      requires Valid()
      modifies this
      ensures Valid()
      ensures Step(accounts, newCoins, tags, err) == Add(old(accounts), addr, amt)
      ensures locks == old(locks)
    {
      var oldCoins := GetCoins(addr);
      newCoins := Plus(oldCoins, amt);
      IsAnyNegativeMeaning(newCoins);
      if IsAnyNegative(newCoins) {
        return amt, [], Some(InsufficientCoins);
      }
      SetCoins(addr, newCoins);
      tags := [Recipient(addr)];
      err := None;
    }

    /**
     * The debit-then-credit sequence the transfers share: subtractCoins on
     * `from`, then addCoins on `to`, returning at the first failure.
     */
    method MoveCoins(from: Address, debit: Coins, to: Address, credit: Coins) returns (tags: seq<Tag>, err: Option<Error>)
      requires Valid()
      modifies this
      ensures Valid()
      ensures Transfer(accounts, tags, err) == Move(old(accounts), old(locks), from, debit, to, credit)
      ensures locks == old(locks)
    {
      var _, subTags, subErr := SubtractCoins(from, debit);
      if subErr.Some? {
        return [], subErr;
      }
      var _, addTags, addErr := AddCoins(to, credit);
      if addErr.Some? {
        return [], addErr;
      }
      tags := subTags + addTags;
      err := None;
    }

    /** sendCoins: validate amt, debit the sender, credit the receiver. */
    method SendCoinsUntaxed(from: Address, to: Address, amt: Coins) returns (tags: seq<Tag>, err: Option<Error>)
      requires Valid()
      modifies this
      ensures Valid()
      ensures Transfer(accounts, tags, err) == Send(old(accounts), old(locks), from, to, amt)
      ensures locks == old(locks)
    {
      if !IsValid(amt) {
        return [], Some(InvalidCoins);
      }
      tags, err := MoveCoins(from, amt, to, amt);
    }

    /**
     * inputOutputCoins: validate the lists, subtract every input, then add
     * every output, returning at the first failure.
     */
    method InputOutputCoinsUntaxed(inputs: seq<Input>, outputs: seq<Output>) returns (tags: seq<Tag>, err: Option<Error>)
      requires Valid()
      modifies this
      ensures Valid()
      ensures Transfer(accounts, tags, err) == InputOutput(old(accounts), old(locks), inputs, outputs)
      ensures locks == old(locks)
    {
      err := ValidateInputsOutputs(inputs, outputs);
      if err.Some? {
        return [], err;
      }
      tags := [];
      var i := 0;
      while i < |inputs|
        invariant i <= |inputs|
        invariant locks == old(locks)
        invariant Valid()
        invariant ApplyInputs(old(accounts), locks, inputs[..i]) == Transfer(accounts, tags, None)
      {
        InputsExtend(old(accounts), locks, inputs, i);
        var _, inTags, inErr := SubtractCoins(inputs[i].address, inputs[i].coins);
        if inErr.Some? {
          InputsStopAtFailure(old(accounts), locks, inputs, i + 1);
          return [], inErr;
        }
        tags := tags + inTags;
        i := i + 1;
      }
      assert inputs[..i] == inputs;
      ghost var afterInputs := accounts;
      var outputTags := [];
      var j := 0;
      while j < |outputs|
        invariant j <= |outputs|
        invariant locks == old(locks)
        invariant Valid()
        invariant ApplyOutputs(afterInputs, outputs[..j]) == Transfer(accounts, outputTags, None)
      {
        OutputsExtend(afterInputs, outputs, j);
        var _, outTags, outErr := AddCoins(outputs[j].address, outputs[j].coins);
        if outErr.Some? {
          OutputsStopAtFailure(afterInputs, outputs, j + 1);
          return [], outErr;
        }
        outputTags := outputTags + outTags;
        j := j + 1;
      }
      assert outputs[..j] == outputs;
      tags := tags + outputTags;
    }

    /**
     * Keeper.SendCoins: debit the tax on amt (given as taxes) from the
     * sender, then amt itself, then credit amt to the receiver.
     */
    method SendCoins(from: Address, to: Address, amt: Coins, taxes: Coins) returns (tags: seq<Tag>, err: Option<Error>)
      requires Valid()
      modifies this
      ensures Valid()
      ensures Transfer(accounts, tags, err) == TaxedSend(old(accounts), old(locks), from, to, amt, taxes)
      ensures locks == old(locks)
    {
      var _, taxTags, taxErr := SubtractCoins(from, taxes);
      if taxErr.Some? {
        return [], taxErr;
      }
      var moveTags, moveErr := MoveCoins(from, amt, to, amt);
      if moveErr.Some? {
        return [], moveErr;
      }
      tags := taxTags + moveTags;
      err := None;
    }

    /**
     * Keeper.InputOutputCoins: subtract every input, then for each output
     * debit its tax (taxes[j]) from the output's address and credit its
     * coins, returning at the first failure.
     */
    method InputOutputCoins(inputs: seq<Input>, outputs: seq<Output>, taxes: seq<Coins>) returns (tags: seq<Tag>, err: Option<Error>)
      requires Valid()
      requires |taxes| == |outputs|
      modifies this
      ensures Valid()
      ensures Transfer(accounts, tags, err) == TaxedInputOutput(old(accounts), old(locks), inputs, outputs, taxes)
      ensures locks == old(locks)
    {
      tags := [];
      var i := 0;
      while i < |inputs|
        invariant i <= |inputs|
        invariant locks == old(locks)
        invariant Valid()
        invariant ApplyInputs(old(accounts), locks, inputs[..i]) == Transfer(accounts, tags, None)
      {
        InputsExtend(old(accounts), locks, inputs, i);
        var _, inTags, inErr := SubtractCoins(inputs[i].address, inputs[i].coins);
        if inErr.Some? {
          InputsStopAtFailure(old(accounts), locks, inputs, i + 1);
          return [], inErr;
        }
        tags := tags + inTags;
        i := i + 1;
      }
      assert inputs[..i] == inputs;
      ghost var afterInputs := accounts;
      var outputTags := [];
      var j := 0;
      while j < |outputs|
        invariant j <= |outputs|
        invariant locks == old(locks)
        invariant Valid()
        invariant ApplyTaxedOutputs(afterInputs, locks, outputs[..j], taxes[..j]) == Transfer(accounts, outputTags, None)
      {
        TaxedOutputsExtend(afterInputs, locks, outputs, taxes, j);
        var outTags, outErr := MoveCoins(outputs[j].address, taxes[j], outputs[j].address, outputs[j].coins);
        if outErr.Some? {
          TaxedOutputsStopAtFailure(afterInputs, locks, outputs, taxes, j + 1);
          return [], outErr;
        }
        outputTags := outputTags + outTags;
        j := j + 1;
      }
      assert outputs[..j] == outputs;
      assert taxes[..j] == taxes;
      tags := tags + outputTags;
      err := None;
    }
  }
}
