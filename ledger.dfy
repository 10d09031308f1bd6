/**
 * The pay keeper's transfer logic (x/pay/keeper.go) as functions on the
 * account table: each function takes the table before a call and gives
 * the table after it, the event tags the call returns and its error.
 * The keeper class in module PayKeeper performs the same steps in place
 * and is proved to end in exactly the state these functions describe.
 */
module Ledger {
  import opened Coins

  /** Account addresses; the empty address is malformed. */
  type Address = string

  /** The account table: the coins of every address that has an account. */
  type Accounts = map<Address, Coins>

  /**
   * What each account's vesting schedule still locks at the current block
   * time; an address without an entry locks nothing (a non-vesting account).
   */
  type Locks = map<Address, Coins>

  datatype Option<T> = None | Some(value: T)

  /** The errors the transfer logic reports. */
  datatype Error = InsufficientCoins | InvalidCoins | InvalidAddress | InputOutputMismatch

  /** Event tags: the account debited (sender) or credited (recipient). */
  datatype Tag = Sender(address: Address) | Recipient(address: Address)

  /** One input or output of a multi-party transfer (`bank.Input`, `bank.Output`). */
  datatype Entry = Entry(address: Address, coins: Coins)
  type Input = Entry
  type Output = Entry

  /** Outcome of subtractCoins or addCoins: new table, returned coins, tags, error. */
  datatype Step = Step(accounts: Accounts, coins: Coins, tags: seq<Tag>, err: Option<Error>)

  /** Outcome of a transfer: new table, tags, error. */
  datatype Transfer = Transfer(accounts: Accounts, tags: seq<Tag>, err: Option<Error>)

  /** getCoins: the coins of an address; an address without an account holds none. */
  function Balance(accts: Accounts, addr: Address): Coins
  {
    if addr in accts then accts[addr] else map[]
  }

  /** No account holds a negative amount in any denomination. */
  ghost predicate NonNegativeAccounts(accts: Accounts)
  {
    forall a :: NonNegative(Balance(accts, a))
  }

  /** Address a has the same account, or the same lack of one, in both tables. */
  predicate Untouched(before: Accounts, after: Accounts, a: Address)
  {
    (a in after <==> a in before) && Balance(after, a) == Balance(before, a)
  }

  /** Spendable coins of an address; an address without an account has none. */
  function SpendableOf(accts: Accounts, locks: Locks, addr: Address): Coins
  {
    if addr in accts then Spendable(accts[addr], Balance(locks, addr)) else map[]
  }

  /** Some denomination of amt is more than what `available` holds. */
  ghost predicate Exceeds(amt: Coins, available: Coins)
  {
    exists d :: AmountOf(available, d) < AmountOf(amt, d)
  }

  /**
   * subtractCoins: fails with InsufficientCoins, writing nothing and
   * returning amt, when amt exceeds the spendable coins in some
   * denomination; otherwise stores and returns old balance minus amt.
   */
  function Subtract(accts: Accounts, locks: Locks, addr: Address, amt: Coins): (r: Step)
    ensures r.err.Some? <==> Exceeds(amt, SpendableOf(accts, locks, addr))
    ensures r.err.Some? ==> r == Step(accts, amt, [], Some(InsufficientCoins))
    ensures r.err.None? ==> r.accounts == accts[addr := r.coins] && r.tags == [Sender(addr)]
    ensures r.err.None? ==> r.coins == Minus(Balance(accts, addr), amt)
  {
    var oldCoins := Balance(accts, addr);
    var spendable := SpendableOf(accts, locks, addr);
    var (_, hasNeg) := SafeMinus(spendable, amt);
    if hasNeg then
      Step(accts, amt, [], Some(InsufficientCoins))
    else
      var newCoins := Minus(oldCoins, amt);
      Step(accts[addr := newCoins], newCoins, [Sender(addr)], None)
  }

  /**
   * The source's remark that the debit cannot go negative once
   * spendability is checked: subtracting keeps every balance non-negative.
   */
  lemma SubtractKeepsNonNegative(accts: Accounts, locks: Locks, addr: Address, amt: Coins)
    requires NonNegativeAccounts(accts)
    ensures NonNegativeAccounts(Subtract(accts, locks, addr, amt).accounts)
  {
    var r := Subtract(accts, locks, addr, amt);
    if r.err.None? {
      var spendable := SpendableOf(accts, locks, addr);
      assert forall d :: AmountOf(amt, d) <= AmountOf(spendable, d);
      assert NonNegative(Balance(accts, addr));
      if addr in accts {
        SpendableWithinBalance(accts[addr], Balance(locks, addr));
      }
      forall a ensures NonNegative(Balance(r.accounts, a)) {
        if a != addr {
          assert Balance(r.accounts, a) == Balance(accts, a);
        }
      }
    }
  }

  /**
   * addCoins: fails with InsufficientCoins, writing nothing and returning
   * amt, when old balance plus amt is negative in some denomination;
   * otherwise stores and returns the sum.
   */
  function Add(accts: Accounts, addr: Address, amt: Coins): (r: Step)
    ensures r.err.Some? <==> !NonNegative(Plus(Balance(accts, addr), amt))
    ensures r.err.Some? ==> r == Step(accts, amt, [], Some(InsufficientCoins))
    ensures r.err.None? ==> r.accounts == accts[addr := r.coins] && r.tags == [Recipient(addr)]
    ensures r.err.None? ==> r.coins == Plus(Balance(accts, addr), amt)
  {
    var newCoins := Plus(Balance(accts, addr), amt);
    IsAnyNegativeMeaning(newCoins);
    if IsAnyNegative(newCoins) then
      Step(accts, amt, [], Some(InsufficientCoins))
    else
      Step(accts[addr := newCoins], newCoins, [Recipient(addr)], None)
  }

  /** Adding never leaves a negative balance: it refuses instead. */
  lemma AddKeepsNonNegative(accts: Accounts, addr: Address, amt: Coins)
    requires NonNegativeAccounts(accts)
    ensures NonNegativeAccounts(Add(accts, addr, amt).accounts)
  {
    var r := Add(accts, addr, amt);
    forall a ensures NonNegative(Balance(r.accounts, a)) {
      if a != addr {
        assert Balance(r.accounts, a) == Balance(accts, a);
      }
    }
  }

  /** subtractCoins writes no account but its own address's. */
  lemma SubtractLeavesOthersAlone(accts: Accounts, locks: Locks, addr: Address, amt: Coins, a: Address)
    requires a != addr
    ensures Untouched(accts, Subtract(accts, locks, addr, amt).accounts, a)
  {
  }

  /** addCoins writes no account but its own address's. */
  lemma AddLeavesOthersAlone(accts: Accounts, addr: Address, amt: Coins, a: Address)
    requires a != addr
    ensures Untouched(accts, Add(accts, addr, amt).accounts, a)
  {
  }

  /** Crediting coins that are nowhere negative to a non-negative table cannot fail. */
  lemma AddNonNegativeSucceeds(accts: Accounts, addr: Address, amt: Coins)
    requires NonNegativeAccounts(accts) && NonNegative(amt)
    ensures Add(accts, addr, amt).err.None?
  {
    assert NonNegative(Balance(accts, addr));
  }

  /**
   * The debit-then-credit core shared by the transfers: subtract debit
   * from `from`, then add credit to `to`. A failed credit does not undo
   * the debit.
   */
  function Move(accts: Accounts, locks: Locks, from: Address, debit: Coins, to: Address, credit: Coins): (r: Transfer)
    ensures Subtract(accts, locks, from, debit).err.Some? ==> r == Transfer(accts, [], Some(InsufficientCoins))
    ensures Subtract(accts, locks, from, debit).err.None? && r.err.Some? ==>
      r.accounts == Subtract(accts, locks, from, debit).accounts
    ensures r.err.Some? ==> r.tags == [] && r.err == Some(InsufficientCoins)
    ensures r.err.None? ==> r.tags == [Sender(from), Recipient(to)]
  {
    var s := Subtract(accts, locks, from, debit);
    if s.err.Some? then
      Transfer(s.accounts, [], s.err)
    else
      var a := Add(s.accounts, to, credit);
      if a.err.Some? then
        Transfer(a.accounts, [], a.err)
      else
        Transfer(a.accounts, s.tags + a.tags, None)
  }

  /** The core touches no account but the two it names. */
  lemma MoveLeavesOthersAlone(accts: Accounts, locks: Locks, from: Address, debit: Coins, to: Address, credit: Coins, a: Address)
    requires a != from && a != to
    ensures Untouched(accts, Move(accts, locks, from, debit, to, credit).accounts, a)
  {
    var s := Subtract(accts, locks, from, debit);
    SubtractLeavesOthersAlone(accts, locks, from, debit, a);
    if s.err.None? {
      AddLeavesOthersAlone(s.accounts, to, credit, a);
    }
  }

  /**
   * sendCoins: rejects an invalid amount before touching any balance, then
   * debits the sender and credits the receiver with amt.
   */
  function Send(accts: Accounts, locks: Locks, from: Address, to: Address, amt: Coins): (r: Transfer)
    ensures !IsValid(amt) ==> r == Transfer(accts, [], Some(InvalidCoins))
    ensures IsValid(amt) ==> r == Move(accts, locks, from, amt, to, amt)
    ensures r.err.Some? ==> r.tags == []
    ensures r.err.None? ==> r.tags == [Sender(from), Recipient(to)]
  {
    if !IsValid(amt) then
      Transfer(accts, [], Some(InvalidCoins))
    else
      Move(accts, locks, from, amt, to, amt)
  }

  /** sendCoins touches no account but the sender's and the receiver's. */
  lemma SendLeavesOthersAlone(accts: Accounts, locks: Locks, from: Address, to: Address, amt: Coins, a: Address)
    requires a != from && a != to
    ensures Untouched(accts, Send(accts, locks, from, to, amt).accounts, a)
  {
    MoveLeavesOthersAlone(accts, locks, from, amt, to, amt, a);
  }

  /**
   * A successful core step takes debit from `from` and gives credit to
   * `to`, denomination by denomination; on one address both apply.
   */
  lemma MoveAmounts(accts: Accounts, locks: Locks, from: Address, debit: Coins, to: Address, credit: Coins, d: Denom)
    requires Move(accts, locks, from, debit, to, credit).err.None?
    ensures var r := Move(accts, locks, from, debit, to, credit).accounts;
      && (from != to ==> AmountOf(Balance(r, from), d) == AmountOf(Balance(accts, from), d) - AmountOf(debit, d))
      && (from != to ==> AmountOf(Balance(r, to), d) == AmountOf(Balance(accts, to), d) + AmountOf(credit, d))
      && (from == to ==> AmountOf(Balance(r, from), d) == AmountOf(Balance(accts, from), d) - AmountOf(debit, d) + AmountOf(credit, d))
  {
    var s := Subtract(accts, locks, from, debit);
    var m := Add(s.accounts, to, credit);
    assert Balance(s.accounts, from) == s.coins;
    assert Balance(m.accounts, to) == m.coins;
    if from != to {
      SubtractLeavesOthersAlone(accts, locks, from, debit, to);
      AddLeavesOthersAlone(s.accounts, to, credit, from);
    }
  }

  /**
   * A successful sendCoins debits amt from the sender and credits it to
   * the receiver; sending to oneself leaves the balance as it was.
   */
  lemma SendMovesAmount(accts: Accounts, locks: Locks, from: Address, to: Address, amt: Coins, d: Denom)
    requires Send(accts, locks, from, to, amt).err.None?
    ensures var r := Send(accts, locks, from, to, amt).accounts;
      && (from != to ==> AmountOf(Balance(r, from), d) == AmountOf(Balance(accts, from), d) - AmountOf(amt, d))
      && (from != to ==> AmountOf(Balance(r, to), d) == AmountOf(Balance(accts, to), d) + AmountOf(amt, d))
      && (from == to ==> AmountOf(Balance(r, from), d) == AmountOf(Balance(accts, from), d))
  {
    MoveAmounts(accts, locks, from, amt, to, amt, d);
  }

  /**
   * On a table with no negative balance, sendCoins is all or nothing: a
   * failure (invalid amount, or insufficient spendable coins) changes no
   * account, and success keeps every balance non-negative.
   */
  lemma SendAllOrNothing(accts: Accounts, locks: Locks, from: Address, to: Address, amt: Coins)
    requires NonNegativeAccounts(accts)
    ensures var r := Send(accts, locks, from, to, amt);
      && (r.err.Some? ==> r.accounts == accts)
      && (r.err == Some(InvalidCoins) <==> !IsValid(amt))
      && (r.err == Some(InsufficientCoins) <==> IsValid(amt) && Exceeds(amt, SpendableOf(accts, locks, from)))
      && NonNegativeAccounts(r.accounts)
  {
    if IsValid(amt) {
      var s := Subtract(accts, locks, from, amt);
      SubtractKeepsNonNegative(accts, locks, from, amt);
      if s.err.None? {
        ValidIsPositive(amt);
        AddNonNegativeSucceeds(s.accounts, to, amt);
        AddKeepsNonNegative(s.accounts, to, amt);
      }
    }
  }

  /** A successful send between two addresses preserves what the two hold together. */
  lemma SendPreservesCombinedHolding(accts: Accounts, locks: Locks, from: Address, to: Address, amt: Coins)
    requires from != to
    requires Send(accts, locks, from, to, amt).err.None?
    ensures var r := Send(accts, locks, from, to, amt).accounts;
      Plus(Balance(r, from), Balance(r, to)) == Plus(Balance(accts, from), Balance(accts, to))
  {
    var r := Send(accts, locks, from, to, amt).accounts;
    forall d ensures AmountOf(Plus(Balance(r, from), Balance(r, to)), d) == AmountOf(Plus(Balance(accts, from), Balance(accts, to)), d) {
      SendMovesAmount(accts, locks, from, to, amt, d);
    }
    Extensionality(Plus(Balance(r, from), Balance(r, to)), Plus(Balance(accts, from), Balance(accts, to)));
  }

  // ---------------------------------------------------------------------
  // Multi-party transfers

  /** No entry of the list names address a. */
  predicate Unnamed(entries: seq<Entry>, a: Address)
  {
    forall i | 0 <= i < |entries| :: entries[i].address != a
  }

  /** `Input.ValidateBasic` / `Output.ValidateBasic`: a non-empty address and valid, non-empty coins. */
  predicate WellFormed(e: Entry)
  {
    |e.address| > 0 && IsValid(e.coins) && e.coins != map[]
  }

  /** The first malformed entry's error, checking entries in order. */
  function FirstMalformed(entries: seq<Entry>): (r: Option<Error>)
    ensures r.None? <==> forall i :: 0 <= i < |entries| ==> WellFormed(entries[i])
    ensures r.Some? ==> r.value == InvalidAddress || r.value == InvalidCoins
  {
    if entries == [] then None
    else if |entries[0].address| == 0 then Some(InvalidAddress)
    else if !IsValid(entries[0].coins) || entries[0].coins == map[] then Some(InvalidCoins)
    else
      var rest := FirstMalformed(entries[1..]);
      assert forall i :: 1 <= i < |entries| ==> entries[i] == entries[1..][i - 1];
      rest
  }

  /** The sum of the coins of a list of entries. */
  function Total(entries: seq<Entry>): (r: Coins)
    ensures Canonical(r)
  {
    if entries == [] then map[]
    else Plus(Total(entries[..|entries| - 1]), entries[|entries| - 1].coins)
  }

  /** The sum of the coins of the entries that name address a. */
  function TotalFor(entries: seq<Entry>, a: Address): (r: Coins)
    ensures Canonical(r)
  {
    if entries == [] then map[]
    else Plus(TotalFor(entries[..|entries| - 1], a),
              if entries[|entries| - 1].address == a then entries[|entries| - 1].coins else map[])
  }

  /** An address that no entry names receives nothing from the list. */
  lemma {:induction false} TotalForUnnamed(entries: seq<Entry>, a: Address)
    requires Unnamed(entries, a)
    ensures forall d :: AmountOf(TotalFor(entries, a), d) == 0
  {
    if entries != [] {
      var prefix := entries[..|entries| - 1];
      assert forall i :: 0 <= i < |prefix| ==> prefix[i] == entries[i];
      TotalForUnnamed(prefix, a);
    }
  }

  /**
   * bank.ValidateInputsOutputs: every input, then every output, must be
   * well formed, and the inputs must add up to the outputs.
   */
  function ValidateInputsOutputs(inputs: seq<Input>, outputs: seq<Output>): (r: Option<Error>)
    ensures r.None? <==>
      && (forall i :: 0 <= i < |inputs| ==> WellFormed(inputs[i]))
      && (forall i :: 0 <= i < |outputs| ==> WellFormed(outputs[i]))
      && Total(inputs) == Total(outputs)
  {
    var badIn := FirstMalformed(inputs);
    if badIn.Some? then badIn
    else
      var badOut := FirstMalformed(outputs);
      if badOut.Some? then badOut
      else if Total(inputs) != Total(outputs) then Some(InputOutputMismatch)
      else None
  }

  /** The tags of a run of debits: one sender tag per input, in order. */
  function SenderTags(inputs: seq<Input>): (r: seq<Tag>)
    ensures |r| == |inputs|
    ensures forall i :: 0 <= i < |inputs| ==> r[i] == Sender(inputs[i].address)
  {
    seq(|inputs|, i requires 0 <= i < |inputs| => Sender(inputs[i].address))
  }

  /** The tags of a run of credits: one recipient tag per output, in order. */
  function RecipientTags(outputs: seq<Output>): (r: seq<Tag>)
    ensures |r| == |outputs|
    ensures forall i :: 0 <= i < |outputs| ==> r[i] == Recipient(outputs[i].address)
  {
    seq(|outputs|, i requires 0 <= i < |outputs| => Recipient(outputs[i].address))
  }

  /**
   * One pass of the input loop: after an earlier failure nothing happens;
   * otherwise subtract this input, stopping on failure with the table as
   * it was.
   */
  function InputStep(prev: Transfer, locks: Locks, input: Input): (r: Transfer)
    ensures prev.err.Some? ==> r == prev
    ensures prev.err.None? && r.err.Some? ==> r == Transfer(prev.accounts, [], Some(InsufficientCoins))
    ensures prev.err.None? && r.err.None? ==> r.tags == prev.tags + [Sender(input.address)]
  {
    if prev.err.Some? then prev
    else
      var s := Subtract(prev.accounts, locks, input.address, input.coins);
      if s.err.Some? then Transfer(s.accounts, [], s.err)
      else Transfer(s.accounts, prev.tags + s.tags, None)
  }

  /**
   * The loop over inputs: subtract each input in order, stopping at the
   * first failure without undoing the debits already made.
   */
  function ApplyInputs(accts: Accounts, locks: Locks, inputs: seq<Input>): (r: Transfer)
    ensures r.err.Some? ==> r.err == Some(InsufficientCoins) && r.tags == []
    ensures r.err.None? ==> r.tags == SenderTags(inputs)
  {
    if inputs == [] then Transfer(accts, [], None)
    else
      var n := |inputs| - 1;
      assert SenderTags(inputs[..n]) + [Sender(inputs[n].address)] == SenderTags(inputs);
      InputStep(ApplyInputs(accts, locks, inputs[..n]), locks, inputs[n])
  }

  /**
   * One pass of the output loop: after an earlier failure nothing happens;
   * otherwise add this output, stopping on failure with the table as it was.
   */
  function OutputStep(prev: Transfer, output: Output): (r: Transfer)
    ensures prev.err.Some? ==> r == prev
    ensures prev.err.None? && r.err.Some? ==> r == Transfer(prev.accounts, [], Some(InsufficientCoins))
    ensures prev.err.None? && r.err.None? ==> r.tags == prev.tags + [Recipient(output.address)]
  {
    if prev.err.Some? then prev
    else
      var s := Add(prev.accounts, output.address, output.coins);
      if s.err.Some? then Transfer(s.accounts, [], s.err)
      else Transfer(s.accounts, prev.tags + s.tags, None)
  }

  /**
   * The loop over outputs: add each output in order, stopping at the first
   * failure without undoing the credits already made.
   */
  function ApplyOutputs(accts: Accounts, outputs: seq<Output>): (r: Transfer)
    ensures r.err.Some? ==> r.err == Some(InsufficientCoins) && r.tags == []
    ensures r.err.None? ==> r.tags == RecipientTags(outputs)
  {
    if outputs == [] then Transfer(accts, [], None)
    else
      var n := |outputs| - 1;
      assert RecipientTags(outputs[..n]) + [Recipient(outputs[n].address)] == RecipientTags(outputs);
      OutputStep(ApplyOutputs(accts, outputs[..n]), outputs[n])
  }

  /** Running the input loop one input further is one more pass. */
  lemma InputsExtend(accts: Accounts, locks: Locks, inputs: seq<Input>, k: nat)
    requires k < |inputs|
    ensures ApplyInputs(accts, locks, inputs[..k + 1]) == InputStep(ApplyInputs(accts, locks, inputs[..k]), locks, inputs[k])
  {
    assert inputs[..k + 1][..k] == inputs[..k];
  }

  /** Running the output loop one output further is one more pass. */
  lemma OutputsExtend(accts: Accounts, outputs: seq<Output>, k: nat)
    requires k < |outputs|
    ensures ApplyOutputs(accts, outputs[..k + 1]) == OutputStep(ApplyOutputs(accts, outputs[..k]), outputs[k])
  {
    assert outputs[..k + 1][..k] == outputs[..k];
  }

  /** The input loop stops at its first failure: later inputs change nothing. */
  lemma {:induction false} InputsStopAtFailure(accts: Accounts, locks: Locks, inputs: seq<Input>, k: nat)
    requires k <= |inputs|
    requires ApplyInputs(accts, locks, inputs[..k]).err.Some?
    ensures ApplyInputs(accts, locks, inputs) == ApplyInputs(accts, locks, inputs[..k])
    decreases |inputs| - k
  {
    if k < |inputs| {
      InputsExtend(accts, locks, inputs, k);
      InputsStopAtFailure(accts, locks, inputs, k + 1);
    } else {
      assert inputs[..k] == inputs;
    }
  }

  /** The output loop stops at its first failure: later outputs change nothing. */
  lemma {:induction false} OutputsStopAtFailure(accts: Accounts, outputs: seq<Output>, k: nat)
    requires k <= |outputs|
    requires ApplyOutputs(accts, outputs[..k]).err.Some?
    ensures ApplyOutputs(accts, outputs) == ApplyOutputs(accts, outputs[..k])
    decreases |outputs| - k
  {
    if k < |outputs| {
      OutputsExtend(accts, outputs, k);
      OutputsStopAtFailure(accts, outputs, k + 1);
    } else {
      assert outputs[..k] == outputs;
    }
  }

  /** A pass of the input loop touches no account but the input's own. */
  lemma InputStepLeavesOthersAlone(prev: Transfer, locks: Locks, input: Input, a: Address)
    requires input.address != a
    ensures Untouched(prev.accounts, InputStep(prev, locks, input).accounts, a)
  {
    if prev.err.None? {
      SubtractLeavesOthersAlone(prev.accounts, locks, input.address, input.coins, a);
    }
  }

  /** A pass of the output loop touches no account but the output's own. */
  lemma OutputStepLeavesOthersAlone(prev: Transfer, output: Output, a: Address)
    requires output.address != a
    ensures Untouched(prev.accounts, OutputStep(prev, output).accounts, a)
  {
    if prev.err.None? {
      AddLeavesOthersAlone(prev.accounts, output.address, output.coins, a);
    }
  }

  /** The input loop touches no account that no input names. */
  lemma {:induction false} InputsLeaveOthersAlone(accts: Accounts, locks: Locks, inputs: seq<Input>, a: Address)
    requires Unnamed(inputs, a)
    ensures Untouched(accts, ApplyInputs(accts, locks, inputs).accounts, a)
  {
    if inputs != [] {
      var n := |inputs| - 1;
      assert Unnamed(inputs[..n], a);
      InputsLeaveOthersAlone(accts, locks, inputs[..n], a);
      InputStepLeavesOthersAlone(ApplyInputs(accts, locks, inputs[..n]), locks, inputs[n], a);
    }
  }

  /** The output loop touches no account that no output names. */
  lemma {:induction false} OutputsLeaveOthersAlone(accts: Accounts, outputs: seq<Output>, a: Address)
    requires Unnamed(outputs, a)
    ensures Untouched(accts, ApplyOutputs(accts, outputs).accounts, a)
  {
    if outputs != [] {
      var n := |outputs| - 1;
      assert Unnamed(outputs[..n], a);
      OutputsLeaveOthersAlone(accts, outputs[..n], a);
      OutputStepLeavesOthersAlone(ApplyOutputs(accts, outputs[..n]), outputs[n], a);
    }
  }

  /**
   * inputOutputCoins: validate the lists before any change, then subtract
   * every input before adding any output.
   */
  function InputOutput(accts: Accounts, locks: Locks, inputs: seq<Input>, outputs: seq<Output>): (r: Transfer)
    ensures ValidateInputsOutputs(inputs, outputs).Some? ==>
      r == Transfer(accts, [], ValidateInputsOutputs(inputs, outputs))
    ensures r.err.None? ==> r.tags == SenderTags(inputs) + RecipientTags(outputs)
    ensures r.err.None? ==> Total(inputs) == Total(outputs)
  {
    var bad := ValidateInputsOutputs(inputs, outputs);
    if bad.Some? then Transfer(accts, [], bad)
    else
      var i := ApplyInputs(accts, locks, inputs);
      if i.err.Some? then i
      else
        var o := ApplyOutputs(i.accounts, outputs);
        if o.err.Some? then o
        else Transfer(o.accounts, i.tags + o.tags, None)
  }

  /** inputOutputCoins touches no account that neither an input nor an output names. */
  lemma InputOutputLeavesOthersAlone(accts: Accounts, locks: Locks, inputs: seq<Input>, outputs: seq<Output>, a: Address)
    requires Unnamed(inputs, a) && Unnamed(outputs, a)
    ensures Untouched(accts, InputOutput(accts, locks, inputs, outputs).accounts, a)
  {
    InputsLeaveOthersAlone(accts, locks, inputs, a);
    OutputsLeaveOthersAlone(ApplyInputs(accts, locks, inputs).accounts, outputs, a);
  }

  /** A successful pass of the input loop debits the input's coins from its own address only. */
  lemma InputStepDebits(prev: Transfer, locks: Locks, input: Input, a: Address, d: Denom)
    requires prev.err.None? && InputStep(prev, locks, input).err.None?
    ensures AmountOf(Balance(InputStep(prev, locks, input).accounts, a), d) ==
      AmountOf(Balance(prev.accounts, a), d) - (if input.address == a then AmountOf(input.coins, d) else 0)
  {
    var s := Subtract(prev.accounts, locks, input.address, input.coins);
    if input.address == a {
      assert Balance(s.accounts, a) == s.coins;
    } else {
      SubtractLeavesOthersAlone(prev.accounts, locks, input.address, input.coins, a);
    }
  }

  /** A successful pass of the output loop credits the output's coins to its own address only. */
  lemma OutputStepCredits(prev: Transfer, output: Output, a: Address, d: Denom)
    requires prev.err.None? && OutputStep(prev, output).err.None?
    ensures AmountOf(Balance(OutputStep(prev, output).accounts, a), d) ==
      AmountOf(Balance(prev.accounts, a), d) + (if output.address == a then AmountOf(output.coins, d) else 0)
  {
    var s := Add(prev.accounts, output.address, output.coins);
    if output.address == a {
      assert Balance(s.accounts, a) == s.coins;
    } else {
      AddLeavesOthersAlone(prev.accounts, output.address, output.coins, a);
    }
  }

  /** After the input loop succeeds, each address has lost exactly what the inputs name it for. */
  lemma {:induction false} InputsDebitEachAddress(accts: Accounts, locks: Locks, inputs: seq<Input>, a: Address, d: Denom)
    requires ApplyInputs(accts, locks, inputs).err.None?
    ensures AmountOf(Balance(ApplyInputs(accts, locks, inputs).accounts, a), d) ==
      AmountOf(Balance(accts, a), d) - AmountOf(TotalFor(inputs, a), d)
  {
    if inputs != [] {
      var n := |inputs| - 1;
      InputsDebitEachAddress(accts, locks, inputs[..n], a, d);
      InputStepDebits(ApplyInputs(accts, locks, inputs[..n]), locks, inputs[n], a, d);
    }
  }

  /** After the output loop succeeds, each address has gained exactly what the outputs name it for. */
  lemma {:induction false} OutputsCreditEachAddress(accts: Accounts, outputs: seq<Output>, a: Address, d: Denom)
    requires ApplyOutputs(accts, outputs).err.None?
    ensures AmountOf(Balance(ApplyOutputs(accts, outputs).accounts, a), d) ==
      AmountOf(Balance(accts, a), d) + AmountOf(TotalFor(outputs, a), d)
  {
    if outputs != [] {
      var n := |outputs| - 1;
      OutputsCreditEachAddress(accts, outputs[..n], a, d);
      OutputStepCredits(ApplyOutputs(accts, outputs[..n]), outputs[n], a, d);
    }
  }

  /**
   * A successful multi-party transfer moves each address's balance by what
   * the outputs credit it minus what the inputs debit it, while the inputs
   * in total equal the outputs in total.
   */
  lemma InputOutputNetEffect(accts: Accounts, locks: Locks, inputs: seq<Input>, outputs: seq<Output>, a: Address, d: Denom)
    requires InputOutput(accts, locks, inputs, outputs).err.None?
    ensures AmountOf(Balance(InputOutput(accts, locks, inputs, outputs).accounts, a), d) ==
      AmountOf(Balance(accts, a), d) - AmountOf(TotalFor(inputs, a), d) + AmountOf(TotalFor(outputs, a), d)
    ensures Total(inputs) == Total(outputs)
  {
    var i := ApplyInputs(accts, locks, inputs);
    InputsDebitEachAddress(accts, locks, inputs, a, d);
    OutputsCreditEachAddress(i.accounts, outputs, a, d);
  }

  /**
   * Input k is the one the loop stops at: the inputs before it were all
   * debited, it cannot be, and the table is left as the earlier debits made it.
   */
  ghost predicate FailsAt(accts: Accounts, locks: Locks, inputs: seq<Input>, k: nat)
  {
    && k < |inputs|
    && ApplyInputs(accts, locks, inputs[..k]).err.None?
    && ApplyInputs(accts, locks, inputs).accounts == ApplyInputs(accts, locks, inputs[..k]).accounts
    && Subtract(ApplyInputs(accts, locks, inputs[..k]).accounts, locks, inputs[k].address, inputs[k].coins).err.Some?
  }

  /**
   * When the input loop fails, the table is the one left by the inputs
   * before the failing one: earlier debits stay in place.
   */
  lemma {:induction false} InputFailureKeepsEarlierDebits(accts: Accounts, locks: Locks, inputs: seq<Input>)
    requires ApplyInputs(accts, locks, inputs).err.Some?
    ensures exists k :: FailsAt(accts, locks, inputs, k)
  {
    var n := |inputs| - 1;
    var prev := ApplyInputs(accts, locks, inputs[..n]);
    if prev.err.Some? {
      InputFailureKeepsEarlierDebits(accts, locks, inputs[..n]);
      var k: nat :| FailsAt(accts, locks, inputs[..n], k);
      assert inputs[..n][..k] == inputs[..k];
      assert FailsAt(accts, locks, inputs, k);
    } else {
      assert FailsAt(accts, locks, inputs, n);
    }
  }

  /** The input loop keeps every balance non-negative. */
  lemma {:induction false} InputsKeepNonNegative(accts: Accounts, locks: Locks, inputs: seq<Input>)
    requires NonNegativeAccounts(accts)
    ensures NonNegativeAccounts(ApplyInputs(accts, locks, inputs).accounts)
  {
    if inputs != [] {
      var n := |inputs| - 1;
      InputsKeepNonNegative(accts, locks, inputs[..n]);
      var prev := ApplyInputs(accts, locks, inputs[..n]);
      if prev.err.None? {
        SubtractKeepsNonNegative(prev.accounts, locks, inputs[n].address, inputs[n].coins);
      }
    }
  }

  /** The output loop keeps every balance non-negative. */
  lemma {:induction false} OutputsKeepNonNegative(accts: Accounts, outputs: seq<Output>)
    requires NonNegativeAccounts(accts)
    ensures NonNegativeAccounts(ApplyOutputs(accts, outputs).accounts)
  {
    if outputs != [] {
      var n := |outputs| - 1;
      OutputsKeepNonNegative(accts, outputs[..n]);
      var prev := ApplyOutputs(accts, outputs[..n]);
      if prev.err.None? {
        AddKeepsNonNegative(prev.accounts, outputs[n].address, outputs[n].coins);
      }
    }
  }

  /** A pass of the output loop that credits valid coins to a non-negative table succeeds. */
  lemma OutputStepSucceeds(prev: Transfer, output: Output)
    requires prev.err.None? && NonNegativeAccounts(prev.accounts) && WellFormed(output)
    ensures OutputStep(prev, output).err.None?
  {
    ValidIsPositive(output.coins);
    AddNonNegativeSucceeds(prev.accounts, output.address, output.coins);
  }

  /** Crediting valid, non-empty outputs to a non-negative table never fails. */
  lemma {:induction false} WellFormedOutputsSucceed(accts: Accounts, outputs: seq<Output>)
    requires NonNegativeAccounts(accts)
    requires forall i :: 0 <= i < |outputs| ==> WellFormed(outputs[i])
    ensures ApplyOutputs(accts, outputs).err.None?
  {
    if outputs != [] {
      var n := |outputs| - 1;
      assert forall i :: 0 <= i < n ==> WellFormed(outputs[..n][i]);
      WellFormedOutputsSucceed(accts, outputs[..n]);
      OutputsKeepNonNegative(accts, outputs[..n]);
      OutputStepSucceeds(ApplyOutputs(accts, outputs[..n]), outputs[n]);
    }
  }

  /**
   * On a table with no negative balance, inputOutputCoins fails only by
   * validation (changing nothing) or by an input exceeding what its
   * address may spend; the output loop never fails.
   */
  lemma InputOutputFailures(accts: Accounts, locks: Locks, inputs: seq<Input>, outputs: seq<Output>)
    requires NonNegativeAccounts(accts)
    ensures var r := InputOutput(accts, locks, inputs, outputs);
      r.err.Some? ==>
        || (r.accounts == accts && r.err == ValidateInputsOutputs(inputs, outputs))
        || (r.err == Some(InsufficientCoins) && r == ApplyInputs(accts, locks, inputs))
  {
    if ValidateInputsOutputs(inputs, outputs).None? {
      var i := ApplyInputs(accts, locks, inputs);
      if i.err.None? {
        InputsKeepNonNegative(accts, locks, inputs);
        WellFormedOutputsSucceed(i.accounts, outputs);
      }
    }
  }

  // ---------------------------------------------------------------------
  // Exported entry points, which collect the transfer tax. The tax on an
  // amount is computed outside this model and passed in.

  /**
   * Keeper.SendCoins: debit the tax from the sender first, then amt
   * itself, then credit the receiver with the full amt. The amount is not
   * validated here, and a later failure does not refund the tax.
   */
  function TaxedSend(accts: Accounts, locks: Locks, from: Address, to: Address, amt: Coins, taxes: Coins): (r: Transfer)
    ensures Subtract(accts, locks, from, taxes).err.Some? ==> r == Transfer(accts, [], Some(InsufficientCoins))
    ensures r.err.Some? ==> r.tags == [] && r.err == Some(InsufficientCoins)
    ensures r.err.None? ==> r.tags == [Sender(from), Sender(from), Recipient(to)]
  {
    var t := Subtract(accts, locks, from, taxes);
    if t.err.Some? then Transfer(t.accounts, [], t.err)
    else
      var m := Move(t.accounts, locks, from, amt, to, amt);
      if m.err.Some? then m
      else Transfer(m.accounts, t.tags + m.tags, None)
  }

  /**
   * The order of Keeper.SendCoins: when the principal cannot be debited
   * the table is the one after the tax debit alone; on success the sender
   * has paid tax plus amount and (for a distinct receiver) the receiver
   * has gained the amount.
   */
  lemma TaxedSendEffect(accts: Accounts, locks: Locks, from: Address, to: Address, amt: Coins, taxes: Coins, d: Denom)
    requires Subtract(accts, locks, from, taxes).err.None?
    ensures var afterTax := Subtract(accts, locks, from, taxes).accounts;
      var r := TaxedSend(accts, locks, from, to, amt, taxes);
      && (Subtract(afterTax, locks, from, amt).err.Some? ==> r.accounts == afterTax)
      && (Subtract(afterTax, locks, from, amt).err.None? && r.err.Some? ==>
            r.accounts == Subtract(afterTax, locks, from, amt).accounts)
      && (r.err.None? && from != to ==>
            && AmountOf(Balance(r.accounts, from), d) == AmountOf(Balance(accts, from), d) - AmountOf(taxes, d) - AmountOf(amt, d)
            && AmountOf(Balance(r.accounts, to), d) == AmountOf(Balance(accts, to), d) + AmountOf(amt, d))
  {
    var t := Subtract(accts, locks, from, taxes);
    var m := Move(t.accounts, locks, from, amt, to, amt);
    if m.err.None? && from != to {
      assert Balance(t.accounts, from) == t.coins;
      SubtractLeavesOthersAlone(accts, locks, from, taxes, to);
      MoveAmounts(t.accounts, locks, from, amt, to, amt, d);
    }
  }

  /** Keeper.SendCoins touches no account but the sender's and the receiver's. */
  lemma TaxedSendLeavesOthersAlone(accts: Accounts, locks: Locks, from: Address, to: Address, amt: Coins, taxes: Coins, a: Address)
    requires a != from && a != to
    ensures Untouched(accts, TaxedSend(accts, locks, from, to, amt, taxes).accounts, a)
  {
    var t := Subtract(accts, locks, from, taxes);
    SubtractLeavesOthersAlone(accts, locks, from, taxes, a);
    if t.err.None? {
      MoveLeavesOthersAlone(t.accounts, locks, from, amt, to, amt, a);
    }
  }

  /** The tags of the taxed output loop: a sender then a recipient tag per output. */
  function TaxedOutputTags(outputs: seq<Output>): (r: seq<Tag>)
    ensures |r| == 2 * |outputs|
    ensures forall i :: 0 <= i < |outputs| ==>
      r[2 * i] == Sender(outputs[i].address) && r[2 * i + 1] == Recipient(outputs[i].address)
  {
    if outputs == [] then []
    else
      var n := |outputs| - 1;
      var prev := TaxedOutputTags(outputs[..n]);
      assert forall i :: 0 <= i < n ==> outputs[..n][i] == outputs[i];
      prev + [Sender(outputs[n].address), Recipient(outputs[n].address)]
  }

  /**
   * One pass of the output loop of Keeper.InputOutputCoins: after an
   * earlier failure nothing happens; otherwise debit the output's tax from
   * the output's own address, then credit the output's coins to it.
   */
  function TaxedOutputStep(prev: Transfer, locks: Locks, output: Output, tax: Coins): (r: Transfer)
    ensures prev.err.Some? ==> r == prev
    ensures prev.err.None? && r.err.Some? ==> r.err == Some(InsufficientCoins) && r.tags == []
    ensures prev.err.None? && r.err.None? ==>
      r.tags == prev.tags + [Sender(output.address), Recipient(output.address)]
  {
    if prev.err.Some? then prev
    else
      var m := Move(prev.accounts, locks, output.address, tax, output.address, output.coins);
      if m.err.Some? then m
      else Transfer(m.accounts, prev.tags + m.tags, None)
  }

  /**
   * The output loop of Keeper.InputOutputCoins, taxes[i] being the tax on
   * outputs[i].
   */
  function ApplyTaxedOutputs(accts: Accounts, locks: Locks, outputs: seq<Output>, taxes: seq<Coins>): (r: Transfer)
    requires |taxes| == |outputs|
    ensures r.err.Some? ==> r.err == Some(InsufficientCoins) && r.tags == []
    ensures r.err.None? ==> r.tags == TaxedOutputTags(outputs)
  {
    if outputs == [] then Transfer(accts, [], None)
    else
      var n := |outputs| - 1;
      TaxedOutputStep(ApplyTaxedOutputs(accts, locks, outputs[..n], taxes[..n]), locks, outputs[n], taxes[n])
  }

  /** Running the taxed output loop one output further is one more pass. */
  lemma TaxedOutputsExtend(accts: Accounts, locks: Locks, outputs: seq<Output>, taxes: seq<Coins>, k: nat)
    requires |taxes| == |outputs| && k < |outputs|
    ensures ApplyTaxedOutputs(accts, locks, outputs[..k + 1], taxes[..k + 1]) ==
      TaxedOutputStep(ApplyTaxedOutputs(accts, locks, outputs[..k], taxes[..k]), locks, outputs[k], taxes[k])
  {
    assert outputs[..k + 1][..k] == outputs[..k];
    assert taxes[..k + 1][..k] == taxes[..k];
  }

  /** The taxed output loop stops at its first failure: later outputs change nothing. */
  lemma {:induction false} TaxedOutputsStopAtFailure(accts: Accounts, locks: Locks, outputs: seq<Output>, taxes: seq<Coins>, k: nat)
    requires |taxes| == |outputs| && k <= |outputs|
    requires ApplyTaxedOutputs(accts, locks, outputs[..k], taxes[..k]).err.Some?
    ensures ApplyTaxedOutputs(accts, locks, outputs, taxes) == ApplyTaxedOutputs(accts, locks, outputs[..k], taxes[..k])
    decreases |outputs| - k
  {
    if k < |outputs| {
      TaxedOutputsExtend(accts, locks, outputs, taxes, k);
      TaxedOutputsStopAtFailure(accts, locks, outputs, taxes, k + 1);
    } else {
      assert outputs[..k] == outputs;
      assert taxes[..k] == taxes;
    }
  }

  /** A pass of the taxed output loop touches no account but the output's own. */
  lemma TaxedOutputStepLeavesOthersAlone(prev: Transfer, locks: Locks, output: Output, tax: Coins, a: Address)
    requires output.address != a
    ensures Untouched(prev.accounts, TaxedOutputStep(prev, locks, output, tax).accounts, a)
  {
    if prev.err.None? {
      MoveLeavesOthersAlone(prev.accounts, locks, output.address, tax, output.address, output.coins, a);
    }
  }

  /** The taxed output loop touches no account that no output names. */
  lemma {:induction false} TaxedOutputsLeaveOthersAlone(accts: Accounts, locks: Locks, outputs: seq<Output>, taxes: seq<Coins>, a: Address)
    requires |taxes| == |outputs|
    requires Unnamed(outputs, a)
    ensures Untouched(accts, ApplyTaxedOutputs(accts, locks, outputs, taxes).accounts, a)
  {
    if outputs != [] {
      var n := |outputs| - 1;
      assert Unnamed(outputs[..n], a);
      TaxedOutputsLeaveOthersAlone(accts, locks, outputs[..n], taxes[..n], a);
      TaxedOutputStepLeavesOthersAlone(ApplyTaxedOutputs(accts, locks, outputs[..n], taxes[..n]), locks, outputs[n], taxes[n], a);
    }
  }

  /**
   * Keeper.InputOutputCoins: subtract every input, then for each output
   * collect its tax from the output's address and credit its coins. The
   * lists are not validated here.
   */
  function TaxedInputOutput(accts: Accounts, locks: Locks, inputs: seq<Input>, outputs: seq<Output>, taxes: seq<Coins>): (r: Transfer)
    requires |taxes| == |outputs|
    ensures ApplyInputs(accts, locks, inputs).err.Some? ==> r == ApplyInputs(accts, locks, inputs)
    ensures r.err.Some? ==> r.err == Some(InsufficientCoins) && r.tags == []
    ensures r.err.None? ==> r.tags == SenderTags(inputs) + TaxedOutputTags(outputs)
  {
    var i := ApplyInputs(accts, locks, inputs);
    if i.err.Some? then i
    else
      var o := ApplyTaxedOutputs(i.accounts, locks, outputs, taxes);
      if o.err.Some? then o
      else Transfer(o.accounts, i.tags + o.tags, None)
  }

  /** Keeper.InputOutputCoins touches no account that neither an input nor an output names. */
  lemma TaxedInputOutputLeavesOthersAlone(accts: Accounts, locks: Locks, inputs: seq<Input>, outputs: seq<Output>, taxes: seq<Coins>, a: Address)
    requires |taxes| == |outputs|
    requires Unnamed(inputs, a) && Unnamed(outputs, a)
    ensures Untouched(accts, TaxedInputOutput(accts, locks, inputs, outputs, taxes).accounts, a)
  {
    InputsLeaveOthersAlone(accts, locks, inputs, a);
    TaxedOutputsLeaveOthersAlone(ApplyInputs(accts, locks, inputs).accounts, locks, outputs, taxes, a);
  }

  /**
   * Keeper.InputOutputCoins debits an output's tax from the output's own
   * address before crediting it: when the inputs and the outputs before
   * output k succeed but output k's address cannot spend its tax, the call
   * fails with the table those earlier steps left.
   */
  lemma TaxedOutputPaysTaxBeforeCredit(accts: Accounts, locks: Locks, inputs: seq<Input>, outputs: seq<Output>, taxes: seq<Coins>, k: nat)
    requires |taxes| == |outputs| && k < |outputs|
    requires ApplyInputs(accts, locks, inputs).err.None?
    requires ApplyTaxedOutputs(ApplyInputs(accts, locks, inputs).accounts, locks, outputs[..k], taxes[..k]).err.None?
    requires Exceeds(taxes[k], SpendableOf(ApplyTaxedOutputs(ApplyInputs(accts, locks, inputs).accounts, locks, outputs[..k], taxes[..k]).accounts, locks, outputs[k].address))
    ensures TaxedInputOutput(accts, locks, inputs, outputs, taxes) ==
      Transfer(ApplyTaxedOutputs(ApplyInputs(accts, locks, inputs).accounts, locks, outputs[..k], taxes[..k]).accounts, [], Some(InsufficientCoins))
  {
    var afterInputs := ApplyInputs(accts, locks, inputs).accounts;
    TaxedOutputsExtend(afterInputs, locks, outputs, taxes, k);
    TaxedOutputsStopAtFailure(afterInputs, locks, outputs, taxes, k + 1);
  }

  /** The sum of the taxes on the outputs that name address a. */
  function TaxesFor(outputs: seq<Output>, taxes: seq<Coins>, a: Address): (r: Coins)
    requires |taxes| == |outputs|
    ensures Canonical(r)
  {
    if outputs == [] then map[]
    else
      var n := |outputs| - 1;
      Plus(TaxesFor(outputs[..n], taxes[..n], a), if outputs[n].address == a then taxes[n] else map[])
  }

  /**
   * A successful pass of the taxed output loop takes the tax from the
   * output's own address and credits the output's coins to it; every
   * other address keeps its balance.
   */
  lemma TaxedOutputStepEffect(prev: Transfer, locks: Locks, output: Output, tax: Coins, a: Address, d: Denom)
    requires prev.err.None? && TaxedOutputStep(prev, locks, output, tax).err.None?
    ensures AmountOf(Balance(TaxedOutputStep(prev, locks, output, tax).accounts, a), d) ==
      AmountOf(Balance(prev.accounts, a), d) + (if output.address == a then AmountOf(output.coins, d) - AmountOf(tax, d) else 0)
  {
    if output.address == a {
      MoveAmounts(prev.accounts, locks, output.address, tax, output.address, output.coins, d);
    } else {
      MoveLeavesOthersAlone(prev.accounts, locks, output.address, tax, output.address, output.coins, a);
    }
  }

  /**
   * After the taxed output loop succeeds, each address has gained the
   * coins of the outputs naming it, less the taxes on those outputs.
   */
  lemma {:induction false} TaxedOutputsEachAddress(accts: Accounts, locks: Locks, outputs: seq<Output>, taxes: seq<Coins>, a: Address, d: Denom)
    requires |taxes| == |outputs|
    requires ApplyTaxedOutputs(accts, locks, outputs, taxes).err.None?
    ensures AmountOf(Balance(ApplyTaxedOutputs(accts, locks, outputs, taxes).accounts, a), d) ==
      AmountOf(Balance(accts, a), d) + AmountOf(TotalFor(outputs, a), d) - AmountOf(TaxesFor(outputs, taxes, a), d)
  {
    if outputs != [] {
      var n := |outputs| - 1;
      var prev := ApplyTaxedOutputs(accts, locks, outputs[..n], taxes[..n]);
      TaxedOutputsEachAddress(accts, locks, outputs[..n], taxes[..n], a, d);
      TaxedOutputStepEffect(prev, locks, outputs[n], taxes[n], a, d);
    }
  }

  /**
   * A successful Keeper.InputOutputCoins moves each address's balance by
   * what the outputs credit it, minus what the inputs debit it, minus the
   * taxes on the outputs that name it.
   */
  lemma TaxedInputOutputNetEffect(accts: Accounts, locks: Locks, inputs: seq<Input>, outputs: seq<Output>, taxes: seq<Coins>, a: Address, d: Denom)
    requires |taxes| == |outputs|
    requires TaxedInputOutput(accts, locks, inputs, outputs, taxes).err.None?
    ensures AmountOf(Balance(TaxedInputOutput(accts, locks, inputs, outputs, taxes).accounts, a), d) ==
      AmountOf(Balance(accts, a), d) - AmountOf(TotalFor(inputs, a), d)
        + AmountOf(TotalFor(outputs, a), d) - AmountOf(TaxesFor(outputs, taxes, a), d)
  {
    var i := ApplyInputs(accts, locks, inputs);
    InputsDebitEachAddress(accts, locks, inputs, a, d);
    TaxedOutputsEachAddress(i.accounts, locks, outputs, taxes, a, d);
  }
}
