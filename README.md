# Terra core: oracle parameters and the pay keeper, in Dafny

This project models two parts of the Terra `core` blockchain node:

* **Oracle parameters** (`x/oracle/internal/types/params.go`). This is the
  record of governance-set parameters for the price oracle: the voting
  period, the vote threshold, the reward band, the reward distribution
  period, the slashing window, the minimum valid-vote ratio, the slash
  fraction and the denomination whitelist. The model covers the default
  values and the `Validate` check. `sdk.Dec` fixed-point numbers are
  modelled as integers scaled by 10^18, so `DecWithPrec(i, p)` is
  `i * 10^(18-p)`. The `int64` fields use a 64-bit `newtype`.
* **The pay keeper** (`x/pay/keeper.go`). This is the module that moves
  coins between accounts: `getCoins`, `setCoins`, `hasCoins`,
  `subtractCoins`, `addCoins`, the untaxed `sendCoins` and
  `inputOutputCoins`, and the exported, taxed `Keeper.SendCoins` and
  `Keeper.InputOutputCoins`.

## Module layout

* `Coins` (coins.dfy) holds coin multisets. Each is a map from
  denomination to amount, with zero amounts omitted. The module provides
  the operations the keeper uses: `Plus`, `Minus`, `SafeMinus`,
  `IsAnyNegative`, `IsAllGTE` and `IsValid`. It also computes
  `Spendable`, which gives the coins an account may spend when its
  vesting schedule still locks some of them.
* `Ledger` (ledger.dfy) describes every keeper operation as a pure
  transition on the account table. Each transition returns the new table,
  the emitted tags and the error. The properties are proved here: what
  each transfer debits and credits, that no other account changes, that
  failures stop the loops, and that balances stay non-negative.
* `PayKeeper` (pay_keeper.dfy) contains the class `Keeper`. It owns the
  account table and the vesting locks, and updates the table in place
  with the source's own step-by-step code (including its two loops).
  Each method is proved to leave the table exactly as the matching
  `Ledger` function describes, and to return the same tags and error.
* `OracleParams` (oracle_params.dfy) holds the parameter record, its
  defaults and `Validate`.

The tax on each transfer is an input to the model. `calculateTaxes` is
not part of this model, so the exported operations take the computed tax
as a parameter: one coin set for `SendCoins`, one per output for
`InputOutputCoins`. What vesting still locks at the current block time
is also an input: the `locks` table, where a missing entry means nothing
is locked. Only vesting accounts lock coins, and a vesting account
already exists. So the keeper's invariant `Valid` requires every lock to
belong to an address with an account. An account that `setCoins`
creates (keeper.go:109-111) is therefore a plain account with nothing
locked. The keeper never changes `locks`, and accounts are never
removed, so the invariant is preserved.

The code shows some behaviour that the model states as lemmas:

* The exported `Keeper.SendCoins` and `Keeper.InputOutputCoins` do not
  validate their arguments. Only the untaxed `sendCoins` checks
  `amt.IsValid()`, and only the untaxed `inputOutputCoins` calls
  `bank.ValidateInputsOutputs`.
* The exported `Keeper.InputOutputCoins` takes each output's tax from the
  **output's own address**, before crediting that output. If output k's
  recipient cannot already cover its tax, the whole call fails at output
  k. The inputs and the outputs before k stay applied
  (`Ledger.TaxedOutputPaysTaxBeforeCredit`). On success, each address
  ends with its old balance, minus its inputs, plus its outputs, minus
  the taxes on its outputs (`Ledger.TaxedInputOutputNetEffect`).
* Neither loop undoes earlier debits when a later step fails, and a failed
  credit does not undo the debit before it (`Ledger.Move`). With a
  negative amount, which the unvalidated exported entry points accept,
  the credit can fail. The comment
  at keeper.go:204 leaves that to the caller. The model keeps the
  partial table (`Ledger.InputFailureKeepsEarlierDebits`).
* Two `Validate` error messages do not describe their own conditions.
  The check at params.go:82 compares the distribution period with the
  vote period, but its message names RewardBand. The check at
  params.go:85 rejects windows of 10 or fewer, but its message says
  "> 0". The model follows the conditions, not the messages.

## Model

| member | source | states |
|---|---|---|
| OracleParams.DecWithPrec | x/oracle/internal/types/params.go:35-39 | `sdk.NewDecWithPrec(i, prec)` is the decimal i·10^-prec: the result times 10^prec equals i at full 18-digit precision |
| OracleParams.BoundValues | x/oracle/internal/types/params.go:76-93 | the bounds Validate compares against are exactly 0.33, 0.01 and 1.0 in 18-digit fixed point |
| OracleParams.Validate | x/oracle/internal/types/params.go:72-95 | the result is Ok only if every condition holds; an error names a violated condition, and every condition checked before it holds |
| OracleParams.DefaultParams | x/oracle/internal/types/params.go:57-69 | the default parameters pass Validate, and the vote period fits within the distribution period |
| OracleParams.DefaultValues | x/oracle/internal/types/params.go:28-41 | the defaults are 50% threshold, 1% band, 5% minimum valid votes, 0.01% slash, a 1000-period window, 432,000-block distribution period and whitelist ukrw, usdr, uusd |
| OracleParams.DefaultsValidForAnyBlockRate | x/oracle/internal/types/params.go:28-41 | the defaults stay valid for any positive blocks-per-minute rate up to the blocks per month, so they do not rely on the value 10 |
| OracleParams.ValidateReportsFirstViolation | x/oracle/internal/types/params.go:72-94 | Validate returns error e exactly when e's condition fails and every condition checked earlier holds |
| OracleParams.WhitelistIgnored | x/oracle/internal/types/params.go:72-94 | Validate does not look at the whitelist; an empty whitelist is accepted |
| OracleParams.VotePeriodMustBePositive | x/oracle/internal/types/params.go:73-75 | Validate fails with the vote-period error exactly when VotePeriod ≤ 0 |
| OracleParams.VoteThresholdMustExceed33Percent | x/oracle/internal/types/params.go:76-78 | with the other parameters valid, a threshold is accepted exactly when it is strictly above 0.33 |
| OracleParams.RewardBandMustBeNonNegative | x/oracle/internal/types/params.go:79-81 | with the other parameters valid, a reward band is accepted exactly when it is ≥ 0, so zero is allowed |
| OracleParams.DistributionPeriodAtLeastVotePeriod | x/oracle/internal/types/params.go:82-84 | with the other parameters valid, a distribution period is accepted exactly when it is ≥ the vote period |
| OracleParams.VotePeriodWithinDistributionPeriod | x/oracle/internal/types/params.go:73-84 | with the other parameters valid, a vote period is accepted exactly when 0 < it ≤ the distribution period |
| OracleParams.VotesWindowMustExceedTen | x/oracle/internal/types/params.go:85-87 | with the other parameters valid, a slashing window is accepted exactly when it is > 10 |
| OracleParams.SlashFractionWithinOnePercent | x/oracle/internal/types/params.go:88-90 | with the other parameters valid, a slash fraction is accepted exactly when 0 ≤ it ≤ 0.01 |
| OracleParams.MinValidVotesWithinUnit | x/oracle/internal/types/params.go:91-93 | with the other parameters valid, a minimum valid-vote ratio is accepted exactly when 0 ≤ it ≤ 1 |
| Coins.Plus | x/pay/keeper.go:167 | `Coins.Plus` adds denomination by denomination and keeps no zero entries |
| Coins.Minus | x/pay/keeper.go:156 | `Coins.Minus` subtracts denomination by denomination and keeps no zero entries |
| Coins.SafeMinus | x/pay/keeper.go:149 | gives the denomination-wise difference, and the negative flag is set exactly when some denomination of the subtrahend exceeds the minuend |
| Coins.IsAnyNegativeMeaning | x/pay/keeper.go:169 | `IsAnyNegative` holds exactly when some denomination is below zero |
| Coins.IsAllGTEMeaning | x/pay/keeper.go:123-125 | on a non-negative holding, `IsAllGTE(a, b)` holds exactly when a has at least b's amount in every denomination |
| Coins.ValidIsPositive | x/pay/keeper.go:186-188 | valid coins have only positive amounts |
| Coins.SpendableAmount | x/pay/keeper.go:144-148 | what is spendable is between zero and the balance, and is the whole balance when nothing is locked |
| Coins.Spendable | x/pay/keeper.go:144 | the spendable coins are, denomination by denomination, the balance less what vesting locks |
| Coins.SpendableWithinBalance | x/pay/keeper.go:144-156 | spendable coins are non-negative and never exceed the balance, so the `Minus` after the check cannot go negative |
| Coins.UnlockedSpendableIsBalance | x/pay/keeper.go:147-148 | for an account with nothing locked (a non-vesting account) the spendable coins are the balance |
| Ledger.Subtract | x/pay/keeper.go:138-162 | subtractCoins fails exactly when amt exceeds the spendable coins, and then changes nothing; otherwise it stores balance − amt at addr and tags the sender |
| Ledger.SubtractKeepsNonNegative | x/pay/keeper.go:156 | subtracting never leaves a negative balance in a table that had none |
| Ledger.SubtractLeavesOthersAlone | x/pay/keeper.go:138-162 | subtractCoins touches only the account it debits |
| Ledger.Add | x/pay/keeper.go:165-180 | addCoins fails exactly when balance + amt would be negative somewhere, and then changes nothing; otherwise it stores the sum at addr and tags the recipient |
| Ledger.AddKeepsNonNegative | x/pay/keeper.go:165-180 | adding never leaves a negative balance in a table that had none |
| Ledger.AddLeavesOthersAlone | x/pay/keeper.go:165-180 | addCoins touches only the account it credits |
| Ledger.AddNonNegativeSucceeds | x/pay/keeper.go:167-173 | adding non-negative coins to a non-negative table cannot fail |
| Ledger.Move | x/pay/keeper.go:190-200 | the subtract-then-add sequence fails with insufficient coins and no tags if either step fails. A failed debit leaves the table unchanged; a failed credit leaves the debit in place. Success tags sender then recipient |
| Ledger.MoveLeavesOthersAlone | x/pay/keeper.go:190-200 | the debit-then-credit touches only its two addresses |
| Ledger.MoveAmounts | x/pay/keeper.go:190-200 | on success, from loses the debit and to gains the credit in every denomination, and both apply to the one account when from = to |
| Ledger.Send | x/pay/keeper.go:183-201 | sendCoins rejects invalid coins with InvalidCoins, changing nothing; otherwise it is the debit-then-credit of amt |
| Ledger.SendLeavesOthersAlone | x/pay/keeper.go:183-201 | sendCoins touches only sender and receiver |
| Ledger.SendMovesAmount | x/pay/keeper.go:183-201 | a successful sendCoins debits amt from the sender and credits it to the receiver in every denomination |
| Ledger.SendAllOrNothing | x/pay/keeper.go:183-201 | on a non-negative table sendCoins either changes nothing and reports an error, or succeeds completely; it fails exactly when amt is invalid or not spendable |
| Ledger.SendPreservesCombinedHolding | x/pay/keeper.go:183-201 | a successful send between two distinct accounts leaves their combined coins unchanged |
| Ledger.FirstMalformed | x/pay/keeper.go:208-210 | reports no error exactly when every entry has a non-empty address and valid, non-empty coins |
| Ledger.ValidateInputsOutputs | x/pay/keeper.go:208-210 | the lists pass exactly when every entry is well formed and inputs and outputs total the same coins |
| Ledger.InputStep | x/pay/keeper.go:214-220 | one pass of the inputs loop: after a failure nothing changes; a failing subtract drops the tags; a success appends one sender tag |
| Ledger.ApplyInputs | x/pay/keeper.go:214-220 | the inputs loop either fails with insufficient coins and no tags, or tags every input's address in order |
| Ledger.OutputStep | x/pay/keeper.go:222-228 | one pass of the outputs loop, stated as for InputStep with a recipient tag |
| Ledger.ApplyOutputs | x/pay/keeper.go:222-228 | the outputs loop either fails with no tags, or tags every output's address in order |
| Ledger.InputsStopAtFailure | x/pay/keeper.go:215-218 | once an input fails, the remaining inputs change nothing (the loop returns) |
| Ledger.OutputsStopAtFailure | x/pay/keeper.go:223-226 | once an output fails, the remaining outputs change nothing |
| Ledger.InputStepLeavesOthersAlone | x/pay/keeper.go:214-220 | a pass of the inputs loop touches only that input's address |
| Ledger.OutputStepLeavesOthersAlone | x/pay/keeper.go:222-228 | a pass of the outputs loop touches only that output's address |
| Ledger.InputsLeaveOthersAlone | x/pay/keeper.go:214-220 | the inputs loop never touches an address no input names |
| Ledger.OutputsLeaveOthersAlone | x/pay/keeper.go:222-228 | the outputs loop never touches an address no output names |
| Ledger.InputOutput | x/pay/keeper.go:205-231 | inputOutputCoins returns the validation error unchanged when the lists are malformed; on success inputs and outputs balance, and the tags are all senders then all recipients |
| Ledger.InputOutputLeavesOthersAlone | x/pay/keeper.go:205-231 | inputOutputCoins never touches an address that no input or output names |
| Ledger.InputStepDebits | x/pay/keeper.go:215 | a successful input pass lowers its own address by its coins and leaves every other address as it was |
| Ledger.OutputStepCredits | x/pay/keeper.go:223 | a successful output pass raises its own address by its coins and leaves every other address as it was |
| Ledger.InputsDebitEachAddress | x/pay/keeper.go:214-220 | after a successful inputs loop each address has lost exactly the sum of the inputs naming it |
| Ledger.OutputsCreditEachAddress | x/pay/keeper.go:222-228 | after a successful outputs loop each address has gained exactly the sum of the outputs naming it |
| Ledger.InputOutputNetEffect | x/pay/keeper.go:205-231 | after a successful inputOutputCoins each address holds its old amount − its inputs + its outputs, and the totals balance |
| Ledger.InputFailureKeepsEarlierDebits | x/pay/keeper.go:203-220 | when the inputs loop fails, some input k exceeded its spendable coins after inputs 0..k−1 had already been debited, and those debits are not reverted |
| Ledger.InputsKeepNonNegative | x/pay/keeper.go:214-220 | the inputs loop keeps every balance non-negative |
| Ledger.OutputsKeepNonNegative | x/pay/keeper.go:222-228 | the outputs loop keeps every balance non-negative |
| Ledger.OutputStepSucceeds | x/pay/keeper.go:223-226 | crediting valid coins to a non-negative table cannot fail |
| Ledger.WellFormedOutputsSucceed | x/pay/keeper.go:222-228 | with valid coins in every output and a non-negative table, the outputs loop cannot fail |
| Ledger.InputOutputFailures | x/pay/keeper.go:205-231 | on a non-negative table inputOutputCoins fails only by a validation error or by an input exceeding its spendable coins, never at an output |
| Ledger.TaxedSend | x/pay/keeper.go:40-65 | Keeper.SendCoins debits the tax from the sender first, and if that fails nothing changes; the error is insufficient coins with no tags; success tags sender, sender, recipient |
| Ledger.TaxedSendEffect | x/pay/keeper.go:44-62 | after the tax is paid, a failing principal debit leaves the tax debited (no refund), and a failing credit leaves tax and principal debited; a successful SendCoins debits amt from the sender and credits it to the receiver, so the sender pays amt + tax |
| Ledger.TaxedSendLeavesOthersAlone | x/pay/keeper.go:40-65 | Keeper.SendCoins touches only sender and receiver |
| Ledger.TaxedOutputStep | x/pay/keeper.go:79-95 | one pass of the taxed outputs loop: after a failure nothing changes; a failure in the pass reports insufficient coins and drops the tags; a success appends a sender and a recipient tag for the output's address |
| Ledger.TaxedOutputStepEffect | x/pay/keeper.go:81-94 | a successful taxed pass changes the output's own address by its coins minus its tax in every denomination, and no other address |
| Ledger.ApplyTaxedOutputs | x/pay/keeper.go:79-95 | the taxed outputs loop either fails with no tags, or tags sender and recipient for every output in order |
| Ledger.TaxedOutputsStopAtFailure | x/pay/keeper.go:82-93 | once an output fails, the remaining outputs change nothing |
| Ledger.TaxedOutputStepLeavesOthersAlone | x/pay/keeper.go:79-95 | a pass of the taxed outputs loop touches only that output's address |
| Ledger.TaxedOutputsEachAddress | x/pay/keeper.go:79-95 | after a successful taxed outputs loop each address has gained the coins of the outputs naming it, less the taxes on those outputs |
| Ledger.TaxedOutputsLeaveOthersAlone | x/pay/keeper.go:79-95 | the taxed outputs loop never touches an address no output names |
| Ledger.TaxedInputOutput | x/pay/keeper.go:68-98 | Keeper.InputOutputCoins does not validate; an input failure is the result of the inputs loop; errors carry no tags; success tags the inputs then sender and recipient per output |
| Ledger.TaxedInputOutputNetEffect | x/pay/keeper.go:68-98 | after a successful Keeper.InputOutputCoins each address holds its old amount − its inputs + its outputs − the taxes on its outputs |
| Ledger.TaxedInputOutputLeavesOthersAlone | x/pay/keeper.go:68-98 | Keeper.InputOutputCoins never touches an address no input or output names |
| Ledger.TaxedOutputPaysTaxBeforeCredit | x/pay/keeper.go:79-90 | if output k's address cannot cover its tax after the inputs and outputs before k, the whole call fails before output k is credited, leaving the table those earlier steps produced |
| PayKeeper.Keeper.constructor | x/pay/keeper.go:26-37 | a keeper starts with the given account table and vesting locks, which lock coins only on existing accounts (`Valid`) |
| PayKeeper.Keeper.GetCoins | x/pay/keeper.go:100-106 | an address without an account holds no coins; otherwise the account's coins |
| PayKeeper.Keeper.HasCoins | x/pay/keeper.go:123-125 | on a non-negative balance, the account holds at least amt in every denomination |
| PayKeeper.Keeper.SetCoins | x/pay/keeper.go:108-120 | stores amt as addr's coins, creating the account if needed, and changes nothing else; `Valid` is kept |
| PayKeeper.Keeper.SubtractCoins | x/pay/keeper.go:138-162 | the table, returned coins, tags and error are exactly those of Ledger.Subtract; `Valid` is kept |
| PayKeeper.Keeper.AddCoins | x/pay/keeper.go:165-180 | the table, returned coins, tags and error are exactly those of Ledger.Add; `Valid` is kept |
| PayKeeper.Keeper.MoveCoins | x/pay/keeper.go:190-200 | the table, tags and error are exactly those of Ledger.Move; `Valid` is kept |
| PayKeeper.Keeper.SendCoinsUntaxed | x/pay/keeper.go:183-201 | the table, tags and error are exactly those of Ledger.Send; `Valid` is kept |
| PayKeeper.Keeper.InputOutputCoinsUntaxed | x/pay/keeper.go:205-231 | the two loops leave the table, tags and error exactly as Ledger.InputOutput describes; `Valid` is kept |
| PayKeeper.Keeper.SendCoins | x/pay/keeper.go:40-65 | the table, tags and error are exactly those of Ledger.TaxedSend; `Valid` is kept |
| PayKeeper.Keeper.InputOutputCoins | x/pay/keeper.go:68-98 | the two loops leave the table, tags and error exactly as Ledger.TaxedInputOutput describes; `Valid` is kept |

## Left out

- `calculateTaxes`, `recordTaxProceeds` and `fk.AddCollectedFees` are not part of this model. The tax is a parameter, and the tax collected leaves the payer's account without being credited to any account in the table.
- `addIssuance` and `subtractIssuance` (keeper.go:158, 176) are not part of this model. The issuance counter is not represented.
- How an account's vesting schedule decides what is locked at the block time is not part of this model. The `Ledger` functions accept any `locks` table. Only `PayKeeper.Keeper` keeps locks on existing accounts (`Valid`), so a `Ledger` lemma about a table with a lock on a missing address describes a state the keeper never reaches. The `locks` table supplies the locked amount per denomination.
- The `sdk.Context`, the KV store, the codec and the `AccountKeeper` are replaced by the `accounts` field. Account fields other than coins (number, sequence, public key) are not modelled.
- `setCoins` panics when `acc.SetCoins` fails (keeper.go:113-117). The model's `SetCoins` always succeeds, because an account accepts any coin set there.
- `Coins.Minus` panics on a negative result in the SDK. The model's `Minus` never panics. `Ledger.SubtractKeepsNonNegative` shows that the case cannot arise after the spendable check.
- `sdk.Coins` is a sorted list. The model uses a map, so sorting and duplicate checks in `IsValid` have no counterpart. Denomination syntax is reduced to the absence of ASCII 'A'–'Z'. The SDK's denomination pattern and any Unicode case rules are not modelled.
- `sdk.Int` and `sdk.Dec` have a 256-bit bound and panic on overflow. The model uses unbounded integers.
- `bank.ValidateInputsOutputs` is not part of this model. `Ledger.ValidateInputsOutputs` reconstructs it from its use at keeper.go:208: every entry has an address and valid coins, and the input and output totals are equal. It reports one error kind per failure class, not the SDK's exact error.
- Error message texts and the tags' key/value encoding are left out. Tags are `Sender(address)` or `Recipient(address)`, and errors are the error kind alone.
- `getAccount` and `setAccount` (keeper.go:127-133) are thin store accessors, folded into `accounts`.
- `ParamSetPairs` and `String` (params.go:97-126) concern parameter-store keys and printing, and are left out.
- `core.BlocksPerMinute` and `core.BlocksPerMonth` come from the core types package, which is not part of this model. They are taken as 10 and 432,000, and `OracleParams.DefaultsValidForAnyBlockRate` shows that validity of the defaults does not depend on the first.
- The oracle's tally, ballots, prevote/vote commitments, slashing window and Tobin tax table use these parameters, but are not part of this model.
