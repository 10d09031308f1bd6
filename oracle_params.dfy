/**
 * Governance-tunable parameters of the price oracle and their validation
 * (x/oracle/internal/types/params.go).
 *
 * `sdk.Dec` is an 18-decimal fixed-point number; here a `Dec` is the integer
 * count of its 10^-18 units, so every comparison `Validate` makes is exact
 * integer arithmetic.
 */
module OracleParams {

  /** Number of decimal places of an `sdk.Dec`. */
  const Precision: nat := 18

  /** Powers of ten. */
  function Pow10(n: nat): (r: nat)
    ensures r > 0
  {
    if n == 0 then 1 else 10 * Pow10(n - 1)
  }

  lemma {:induction false} Pow10Add(m: nat, n: nat)
    ensures Pow10(m) * Pow10(n) == Pow10(m + n)
  {
    if m > 0 {
      Pow10Add(m - 1, n);
      assert Pow10(m) * Pow10(n) == 10 * (Pow10(m - 1) * Pow10(n));
    }
  }

  lemma ScaleBack(i: int, m: nat, n: nat)
    ensures (i * Pow10(m)) * Pow10(n) == i * Pow10(m + n)
  {
    calc {
      (i * Pow10(m)) * Pow10(n);
      i * (Pow10(m) * Pow10(n));
      { Pow10Add(m, n); }
      i * Pow10(m + n);
    }
  }

  /** An 18-decimal fixed-point value, held as a multiple of 10^-18. */
  type Dec = int

  /** The decimal 1.0 (`sdk.OneDec()`). */
  const DecOne: Dec := Pow10(Precision)

  /**
   * `sdk.NewDecWithPrec(i, prec)`: the decimal i / 10^prec. The result is
   * exact: scaled back by 10^prec it is i whole units.
   */
  function DecWithPrec(i: int, prec: nat): (r: Dec)
    requires prec <= Precision
    ensures r * Pow10(prec) == i * DecOne
  {
    ScaleBack(i, Precision - prec, prec);
    i * Pow10(Precision - prec)
  }

  /** Signed 64-bit integers, the width of the source's block-count fields. */
  newtype Int64 = x: int | -0x8000_0000_0000_0000 <= x < 0x8000_0000_0000_0000

  /** Asset symbols the oracle may activate (`DenomList`). */
  type Denom = string

  /** The oracle parameters record, field for field. */
  datatype Params = Params(
    VotePeriod: Int64,
    VoteThreshold: Dec,
    RewardBand: Dec,
    RewardDistributionPeriod: Int64,
    VotesWindow: Int64,
    MinValidVotesPerWindow: Dec,
    SlashFraction: Dec,
    Whitelist: seq<Denom>)

  /** Block-rate constants of the host chain: 1 minute and 30 days of blocks. */
  const BlocksPerMinute: Int64 := 10
  const BlocksPerMonth: Int64 := 432_000

  /** Default parameter values. */
  const DefaultVotePeriod: Int64 := BlocksPerMinute
  const DefaultVotesWindow: Int64 := 1000
  const DefaultVoteThreshold: Dec := DecWithPrec(50, 2)
  const DefaultRewardBand: Dec := DecWithPrec(1, 2)
  const DefaultRewardDistributionPeriod: Int64 := BlocksPerMonth
  const DefaultMinValidVotesPerWindow: Dec := DecWithPrec(5, 2)
  const DefaultSlashFraction: Dec := DecWithPrec(1, 4)
  const DefaultWhitelist: seq<Denom> := ["ukrw", "usdr", "uusd"]

  /** The bounds Validate compares against: 33%, 1% and 1.0. */
  const ThirtyThreePercent: Dec := DecWithPrec(33, 2)
  const OnePercent: Dec := DecWithPrec(1, 2)

  /** The three bounds as exact multiples of 10^-18. */
  lemma BoundValues()
    ensures ThirtyThreePercent == DecWithPrec(33, 2) == 330_000_000_000_000_000
    ensures OnePercent == DecWithPrec(1, 2) == 10_000_000_000_000_000
    ensures DecOne == 1_000_000_000_000_000_000
  {
    assert Pow10(16) == 10_000_000_000_000_000;
  }

  /** The seven checks of Validate, named after the bound each enforces. */
  datatype ParamError =
    | VotePeriodNotPositive
    | VoteThresholdTooLow
    | RewardBandNegative
    | DistributionPeriodTooShort
    | VotesWindowTooSmall
    | SlashFractionOutOfRange
    | MinValidVotesOutOfRange

  datatype Validity = Ok | Err(which: ParamError)

  /** Position of each check in the source, first to last. */
  function Order(e: ParamError): nat
  {
    match e
    case VotePeriodNotPositive => 0
    case VoteThresholdTooLow => 1
    case RewardBandNegative => 2
    case DistributionPeriodTooShort => 3
    case VotesWindowTooSmall => 4
    case SlashFractionOutOfRange => 5
    case MinValidVotesOutOfRange => 6
  }

  /**
   * The parameter invariants, one per check, written as the bound the
   * parameter must meet (the positive form of each rejection condition).
   */
  predicate Meets(p: Params, e: ParamError)
  {
    match e
    case VotePeriodNotPositive => 0 < p.VotePeriod
    case VoteThresholdTooLow => ThirtyThreePercent < p.VoteThreshold
    case RewardBandNegative => 0 <= p.RewardBand
    case DistributionPeriodTooShort => p.VotePeriod <= p.RewardDistributionPeriod
    case VotesWindowTooSmall => 10 < p.VotesWindow
    case SlashFractionOutOfRange => 0 <= p.SlashFraction <= OnePercent
    case MinValidVotesOutOfRange => 0 <= p.MinValidVotesPerWindow <= DecOne
  }

  /**
   * `Params.Validate`: seven ordered bounds checks, the first violated one
   * is reported. The error is identified by the condition that failed; the
   * source's message texts for the fourth and fifth checks name other
   * bounds than the ones compared, and are not modelled.
   */
  function Validate(p: Params): (r: Validity)
    ensures r == Ok ==> forall e :: Meets(p, e)
    ensures r.Err? ==> !Meets(p, r.which)
    ensures r.Err? ==> forall e :: Order(e) < Order(r.which) ==> Meets(p, e)
  {
    if p.VotePeriod <= 0 then Err(VotePeriodNotPositive)
    else if p.VoteThreshold <= DecWithPrec(33, 2) then Err(VoteThresholdTooLow)
    else if p.RewardBand < 0 then Err(RewardBandNegative)
    else if p.RewardDistributionPeriod < p.VotePeriod then Err(DistributionPeriodTooShort)
    else if p.VotesWindow <= 10 then Err(VotesWindowTooSmall)
    else if p.SlashFraction > DecWithPrec(1, 2) || p.SlashFraction < 0 then Err(SlashFractionOutOfRange)
    else if p.MinValidVotesPerWindow < 0 || p.MinValidVotesPerWindow > DecOne then Err(MinValidVotesOutOfRange)
    else Ok
  }

  /** `DefaultParams`: the default record, which passes validation. */
  function DefaultParams(): (p: Params)
    ensures Validate(p) == Ok
    ensures p.VotePeriod <= p.RewardDistributionPeriod
  {
    Params(
      DefaultVotePeriod,
      DefaultVoteThreshold,
      DefaultRewardBand,
      DefaultRewardDistributionPeriod,
      DefaultVotesWindow,
      DefaultMinValidVotesPerWindow,
      DefaultSlashFraction,
      DefaultWhitelist)
  }

  /**
   * The default values as exact decimals: threshold 0.50, band 0.01,
   * minimum valid votes 0.05, slash fraction 0.0001, window 1000 periods,
   * distribution period 432,000 blocks.
   */
  lemma DefaultValues()
    ensures DefaultParams().VoteThreshold == 500_000_000_000_000_000
    ensures DefaultParams().RewardBand == 10_000_000_000_000_000
    ensures DefaultParams().MinValidVotesPerWindow == 50_000_000_000_000_000
    ensures DefaultParams().SlashFraction == 100_000_000_000_000
    ensures DefaultParams().VotesWindow == 1000
    ensures DefaultParams().RewardDistributionPeriod == 432_000
    ensures DefaultParams().Whitelist == ["ukrw", "usdr", "uusd"]
  {
  }

  /**
   * The defaults stay valid for every block rate whose minute of blocks
   * fits in the month-long reward distribution period.
   */
  lemma DefaultsValidForAnyBlockRate(blocksPerMinute: Int64)
    requires 0 < blocksPerMinute <= BlocksPerMonth
    ensures Validate(DefaultParams().(VotePeriod := blocksPerMinute)) == Ok
  {
  }

  /** The reported error is exactly the first violated invariant in source order. */
  lemma ValidateReportsFirstViolation(p: Params, e: ParamError)
    ensures Validate(p) == Err(e) <==> !Meets(p, e) && forall f :: Order(f) < Order(e) ==> Meets(p, f)
  {
  }

  /** Validation never consults the whitelist: even an empty one passes. */
  lemma WhitelistIgnored(p: Params, w: seq<Denom>)
    ensures Validate(p.(Whitelist := w)) == Validate(p)
    ensures Validate(p) == Ok ==> Validate(p.(Whitelist := [])) == Ok
  {
  }

  /** Any VotePeriod <= 0 is rejected first, whatever the other fields hold. */
  lemma VotePeriodMustBePositive(p: Params)
    ensures p.VotePeriod <= 0 <==> Validate(p) == Err(VotePeriodNotPositive)
  {
  }

  /**
   * Changing only VoteThreshold in a valid record: exactly 33% and below is
   * rejected, anything above passes.
   */
  lemma VoteThresholdMustExceed33Percent(p: Params, t: Dec)
    requires Validate(p) == Ok
    ensures Validate(p.(VoteThreshold := t)) == if t <= 330_000_000_000_000_000 then Err(VoteThresholdTooLow) else Ok
  {
    BoundValues();
  }

  /** Changing only RewardBand in a valid record: negative fails, zero passes. */
  lemma RewardBandMustBeNonNegative(p: Params, b: Dec)
    requires Validate(p) == Ok
    ensures Validate(p.(RewardBand := b)) == if b < 0 then Err(RewardBandNegative) else Ok
  {
  }

  /**
   * Changing only RewardDistributionPeriod in a valid record: shorter than
   * VotePeriod fails, equal passes.
   */
  lemma DistributionPeriodAtLeastVotePeriod(p: Params, n: Int64)
    requires Validate(p) == Ok
    ensures Validate(p.(RewardDistributionPeriod := n)) ==
      if n < p.VotePeriod then Err(DistributionPeriodTooShort) else Ok
  {
  }

  /**
   * Changing only VotePeriod in a valid record: it must be positive and may
   * not exceed the distribution period.
   */
  lemma VotePeriodWithinDistributionPeriod(p: Params, v: Int64)
    requires Validate(p) == Ok
    ensures Validate(p.(VotePeriod := v)) ==
      if v <= 0 then Err(VotePeriodNotPositive)
      else if p.RewardDistributionPeriod < v then Err(DistributionPeriodTooShort)
      else Ok
  {
  }

  /**
   * Changing only VotesWindow in a valid record: 10 and below is rejected
   * (the source's message claims "> 0"), 11 and above passes.
   */
  lemma VotesWindowMustExceedTen(p: Params, w: Int64)
    requires Validate(p) == Ok
    ensures Validate(p.(VotesWindow := w)) == if w <= 10 then Err(VotesWindowTooSmall) else Ok
  {
  }

  /** Changing only SlashFraction in a valid record: [0, 0.01] passes, both ends included. */
  lemma SlashFractionWithinOnePercent(p: Params, s: Dec)
    requires Validate(p) == Ok
    ensures Validate(p.(SlashFraction := s)) ==
      if s < 0 || s > 10_000_000_000_000_000 then Err(SlashFractionOutOfRange) else Ok
  {
    BoundValues();
  }

  /** Changing only MinValidVotesPerWindow in a valid record: [0, 1] passes, both ends included. */
  lemma MinValidVotesWithinUnit(p: Params, m: Dec)
    requires Validate(p) == Ok
    ensures Validate(p.(MinValidVotesPerWindow := m)) ==
      if m < 0 || m > 1_000_000_000_000_000_000 then Err(MinValidVotesOutOfRange) else Ok
  {
    BoundValues();
  }
}
