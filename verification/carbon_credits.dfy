/** The carbon-credits program: an industry account per company that posts a bond, is
    verified by an administrator, buys carbon-credit tokens (CCT) and burns them against
    its reported emissions, and an emission report account per report. */
module CarbonCredits {
  import opened Primitives

  datatype ComplianceStatus = Pending | Compliant | NonCompliant | Warning

  datatype ErrorCode = InsufficientBond | NotVerified | AlreadyVerified | InsufficientCCT | NotCompliant

  /** The smallest bond register_industry accepts: 1000 USDC in six-decimal base units. */
  const MIN_BOND: int := 1_000_000_000

  /** The fields of an industry account. */
  datatype IndustryState = IndustryState(
    authority: Pubkey, companyName: string, bondAmount: u64, verified: bool,
    cctBalance: u64, totalPurchased: u64, totalBurned: u64,
    complianceStatus: ComplianceStatus, createdAt: i64)

  /** The account invariant: the token balance is what was bought less what was burned, an
      account has left Pending exactly when it is verified, and Warning is never reached. */
  ghost predicate Invariant(s: IndustryState) {
    && s.cctBalance + s.totalBurned == s.totalPurchased
    && (s.verified <==> s.complianceStatus != Pending)
    && s.complianceStatus != Warning
  }

  // ---------------------------------------------------------------------------
  // One instruction each, on the account's fields. An Err leaves the account as it was.
  // ---------------------------------------------------------------------------

  /** register_industry: the bond must be at least MIN_BOND; the account starts
      unverified and Pending with all token counters at zero. */
  function Register(authority: Pubkey, companyName: string, bondAmount: u64, now: i64)
    : (r: Result<IndustryState, Abort<ErrorCode>>)
    ensures r.Ok? <==> bondAmount >= MIN_BOND
    ensures r.Err? ==> r.error == Program(InsufficientBond)
    ensures r.Ok? ==> Invariant(r.value) && !r.value.verified && r.value.complianceStatus == Pending
    ensures r.Ok? ==> r.value.cctBalance == 0 && r.value.totalPurchased == 0 && r.value.totalBurned == 0
  {
    if bondAmount < MIN_BOND then Err(Program(InsufficientBond))
    else Ok(IndustryState(authority, companyName, bondAmount, false, 0, 0, 0, Pending, now))
  }

  /** verify_industry: an unverified account becomes verified and Compliant. */
  function Verify(s: IndustryState): (r: Result<IndustryState, Abort<ErrorCode>>)
    ensures r.Ok? <==> !s.verified
    ensures r.Err? ==> r.error == Program(AlreadyVerified)
    ensures r.Ok? ==> r.value.verified && r.value.complianceStatus == Compliant
    ensures r.Ok? ==> r.value.(verified := s.verified, complianceStatus := s.complianceStatus) == s
  {
    if s.verified then Err(Program(AlreadyVerified))
    else Ok(s.(verified := true, complianceStatus := Compliant))
  }

  /** deposit_bond: a verified account transfers amount into the bond vault and its bond
      grows by amount; the addition is unchecked. */
  function Deposit(s: IndustryState, amount: u64, transferOk: bool): (r: Result<IndustryState, Abort<ErrorCode>>)
    ensures !s.verified ==> r == Err(Program(NotVerified))
    ensures s.verified && !transferOk ==> r == Err(CpiFailed)
    ensures r.Ok? <==> s.verified && transferOk && s.bondAmount + amount < U64_LIMIT
    ensures r.Ok? ==> r.value == s.(bondAmount := s.bondAmount + amount)
  {
    if !s.verified then Err(Program(NotVerified))
    else if !transferOk then Err(CpiFailed)
    else if s.bondAmount + amount >= U64_LIMIT then Err(ArithmeticPanic)
    else Ok(s.(bondAmount := s.bondAmount + amount))
  }

  /** purchase_cct: a verified account has amount tokens minted to it; its balance and
      its purchase total each grow by amount, both additions unchecked. */
  function Purchase(s: IndustryState, amount: u64, mintOk: bool): (r: Result<IndustryState, Abort<ErrorCode>>)
    ensures !s.verified ==> r == Err(Program(NotVerified))
    ensures s.verified && !mintOk ==> r == Err(CpiFailed)
    ensures r.Ok? ==> r.value.cctBalance == s.cctBalance + amount
    ensures r.Ok? ==> r.value.totalPurchased == s.totalPurchased + amount
    ensures r.Ok? ==> r.value.(cctBalance := s.cctBalance, totalPurchased := s.totalPurchased) == s
  {
    if !s.verified then Err(Program(NotVerified))
    else if !mintOk then Err(CpiFailed)
    else if s.cctBalance + amount >= U64_LIMIT || s.totalPurchased + amount >= U64_LIMIT then Err(ArithmeticPanic)
    else Ok(s.(cctBalance := s.cctBalance + amount, totalPurchased := s.totalPurchased + amount))
  }

  /** burn_cct_for_compliance: a verified account burns amount tokens it holds; the burn
      makes it Compliant when it covers emissionAmount and NonCompliant otherwise. */
  function Burn(s: IndustryState, amount: u64, emissionAmount: u64, burnOk: bool)
    : (r: Result<IndustryState, Abort<ErrorCode>>)
    ensures !s.verified ==> r == Err(Program(NotVerified))
    ensures s.verified && s.cctBalance < amount ==> r == Err(Program(InsufficientCCT))
    ensures s.verified && s.cctBalance >= amount && !burnOk ==> r == Err(CpiFailed)
    ensures r.Ok? ==> r.value.cctBalance == s.cctBalance - amount
    ensures r.Ok? ==> r.value.totalBurned == s.totalBurned + amount
    ensures r.Ok? ==> r.value.complianceStatus == if amount >= emissionAmount then Compliant else NonCompliant
    ensures r.Ok? ==>
      r.value.(cctBalance := s.cctBalance, totalBurned := s.totalBurned, complianceStatus := s.complianceStatus) == s
  {
    if !s.verified then Err(Program(NotVerified))
    else if s.cctBalance < amount then Err(Program(InsufficientCCT))
    else if !burnOk then Err(CpiFailed)
    // `total_burned += amount` is unchecked
    else if s.totalBurned + amount >= U64_LIMIT then Err(ArithmeticPanic)
    else
      Ok(s.(cctBalance := s.cctBalance - amount,
            totalBurned := s.totalBurned + amount,
            complianceStatus := if amount >= emissionAmount then Compliant else NonCompliant))
  }

  /** withdraw_bond: a Compliant account takes amount back out of the bond vault. */
  function Withdraw(s: IndustryState, amount: u64, transferOk: bool): (r: Result<IndustryState, Abort<ErrorCode>>)
    ensures s.complianceStatus != Compliant ==> r == Err(Program(NotCompliant))
    ensures s.complianceStatus == Compliant && s.bondAmount < amount ==> r == Err(Program(InsufficientBond))
    ensures r.Ok? <==> s.complianceStatus == Compliant && s.bondAmount >= amount && transferOk
    ensures r.Ok? ==> r.value == s.(bondAmount := s.bondAmount - amount)
  {
    if s.complianceStatus != Compliant then Err(Program(NotCompliant))
    else if s.bondAmount < amount then Err(Program(InsufficientBond))
    else if !transferOk then Err(CpiFailed)
    else Ok(s.(bondAmount := s.bondAmount - amount))
  }

  // ---------------------------------------------------------------------------
  // What the invariant buys
  // ---------------------------------------------------------------------------

  /** Under the invariant the unchecked additions of purchase_cct panic exactly when the
      purchase total would overflow, burn_cct_for_compliance never panics, and only a
      verified account can withdraw its bond. */
  lemma InvariantConsequences(s: IndustryState, amount: u64, emissionAmount: u64, cpiOk: bool)
    requires Invariant(s)
    ensures Purchase(s, amount, cpiOk).Ok? <==> s.verified && cpiOk && s.totalPurchased + amount < U64_LIMIT
    ensures Burn(s, amount, emissionAmount, cpiOk).Ok? <==> s.verified && amount <= s.cctBalance && cpiOk
    ensures Withdraw(s, amount, cpiOk).Ok? ==> s.verified
  {
  }

  /** The instructions an existing industry account can receive after registration. */
  datatype Instruction =
    | VerifyCall
    | DepositCall(amount: u64, transferOk: bool)
    | PurchaseCall(amount: u64, mintOk: bool)
    | BurnCall(amount: u64, emissionAmount: u64, burnOk: bool)
    | WithdrawCall(amount: u64, transferOk: bool)
    | ReportCall

  /** One instruction on the account; submit_emission_report reads the account and
      changes nothing in it. */
  function Execute(s: IndustryState, ins: Instruction): Result<IndustryState, Abort<ErrorCode>> {
    match ins
    case VerifyCall => Verify(s)
    case DepositCall(amount, ok) => Deposit(s, amount, ok)
    case PurchaseCall(amount, ok) => Purchase(s, amount, ok)
    case BurnCall(amount, emission, ok) => Burn(s, amount, emission, ok)
    case WithdrawCall(amount, ok) => Withdraw(s, amount, ok)
    case ReportCall => Ok(s)
  }

  /** The account after a sequence of instructions, an aborted one leaving it as it was. */
  function Run(s: IndustryState, instrs: seq<Instruction>): IndustryState
    decreases |instrs|
  {
    if instrs == [] then s
    else
      var r := Execute(s, instrs[0]);
      Run(if r.Ok? then r.value else s, instrs[1..])
  }

  /** How many instructions of a run succeed as verify_industry. */
  function Verifications(s: IndustryState, instrs: seq<Instruction>): nat
    decreases |instrs|
  {
    if instrs == [] then 0
    else
      var r := Execute(s, instrs[0]);
      (if instrs[0] == VerifyCall && r.Ok? then 1 else 0)
        + Verifications(if r.Ok? then r.value else s, instrs[1..])
  }

  lemma ExecuteKeepsInvariant(s: IndustryState, ins: Instruction)
    requires Invariant(s)
    ensures Execute(s, ins).Ok? ==> Invariant(Execute(s, ins).value)
    ensures s.verified && Execute(s, ins).Ok? ==> Execute(s, ins).value.verified
  {
  }

  /** Every run of instructions keeps the invariant; in particular no account ever burns
      more than it bought. */
  lemma {:induction false} RunKeepsInvariant(s: IndustryState, instrs: seq<Instruction>)
    requires Invariant(s)
    ensures Invariant(Run(s, instrs))
    ensures Run(s, instrs).totalBurned <= Run(s, instrs).totalPurchased
    decreases |instrs|
  {
    if instrs != [] {
      ExecuteKeepsInvariant(s, instrs[0]);
      var r := Execute(s, instrs[0]);
      RunKeepsInvariant(if r.Ok? then r.value else s, instrs[1..]);
    }
  }

  /** Nothing undoes verification: a verified account stays verified along any run. */
  lemma {:induction false} VerifiedIsPermanent(s: IndustryState, instrs: seq<Instruction>)
    requires Invariant(s) && s.verified
    ensures Run(s, instrs).verified
    decreases |instrs|
  {
    if instrs != [] {
      ExecuteKeepsInvariant(s, instrs[0]);
      var r := Execute(s, instrs[0]);
      VerifiedIsPermanent(if r.Ok? then r.value else s, instrs[1..]);
    }
  }

  /** verify_industry succeeds at most once per account, and never on a verified one. */
  lemma {:induction false} VerifySucceedsAtMostOnce(s: IndustryState, instrs: seq<Instruction>)
    requires Invariant(s)
    ensures Verifications(s, instrs) <= if s.verified then 0 else 1
    decreases |instrs|
  {
    if instrs != [] {
      ExecuteKeepsInvariant(s, instrs[0]);
      var r := Execute(s, instrs[0]);
      var next := if r.Ok? then r.value else s;
      VerifySucceedsAtMostOnce(next, instrs[1..]);
      if instrs[0] == VerifyCall && r.Ok? {
        assert next.verified;
      }
    }
  }

  // ---------------------------------------------------------------------------
  // The accounts
  // ---------------------------------------------------------------------------

  class IndustryAccount {
    var authority: Pubkey
    var companyName: string
    var bondAmount: u64
    var verified: bool
    var cctBalance: u64
    var totalPurchased: u64
    var totalBurned: u64
    var complianceStatus: ComplianceStatus
    var createdAt: i64

    function State(): IndustryState
      reads this
    {
      IndustryState(authority, companyName, bondAmount, verified, cctBalance, totalPurchased,
                    totalBurned, complianceStatus, createdAt)
    }

    ghost predicate Valid()
      reads this
    {
      Invariant(State())
    }

    constructor Init(s: IndustryState)
      ensures State() == s
    {
      authority := s.authority;
      companyName := s.companyName;
      bondAmount := s.bondAmount;
      verified := s.verified;
      cctBalance := s.cctBalance;
      totalPurchased := s.totalPurchased;
      totalBurned := s.totalBurned;
      complianceStatus := s.complianceStatus;
      createdAt := s.createdAt;
    }

    /** verify_industry. */
    method VerifyIndustry() returns (result: Result<(), Abort<ErrorCode>>)
      modifies this
      ensures result.Ok? <==> Verify(old(State())).Ok?
      ensures result.Ok? ==> State() == Verify(old(State())).value
      ensures result.Err? ==> result.error == Verify(old(State())).error && unchanged(this)
      ensures old(Valid()) ==> Valid()
    {
      if verified {
        return Err(Program(AlreadyVerified));
      }
      verified := true;
      complianceStatus := Compliant;
      return Ok(());
    }

    /** deposit_bond; transferOk says whether the token transfer into the vault succeeds. */
    method DepositBond(amount: u64, transferOk: bool) returns (result: Result<(), Abort<ErrorCode>>)
      modifies this
      ensures result.Ok? <==> Deposit(old(State()), amount, transferOk).Ok?
      ensures result.Ok? ==> State() == Deposit(old(State()), amount, transferOk).value
      ensures result.Err? ==> result.error == Deposit(old(State()), amount, transferOk).error && unchanged(this)
      ensures old(Valid()) ==> Valid()
    {
      if !verified {
        return Err(Program(NotVerified));
      }
      if !transferOk {
        return Err(CpiFailed);
      }
      if bondAmount + amount >= U64_LIMIT {
        return Err(ArithmeticPanic);
      }
      bondAmount := bondAmount + amount;
      return Ok(());
    }

    /** purchase_cct; mintOk says whether minting to the industry's token account succeeds. */
    method PurchaseCct(amount: u64, mintOk: bool) returns (result: Result<(), Abort<ErrorCode>>)
      modifies this
      ensures result.Ok? <==> Purchase(old(State()), amount, mintOk).Ok?
      ensures result.Ok? ==> State() == Purchase(old(State()), amount, mintOk).value
      ensures result.Err? ==> result.error == Purchase(old(State()), amount, mintOk).error && unchanged(this)
      ensures old(Valid()) ==> Valid()
    {
      if !verified {
        return Err(Program(NotVerified));
      }
      if !mintOk {
        return Err(CpiFailed);
      }
      if cctBalance + amount >= U64_LIMIT || totalPurchased + amount >= U64_LIMIT {
        return Err(ArithmeticPanic);
      }
      cctBalance := cctBalance + amount;
      totalPurchased := totalPurchased + amount;
      return Ok(());
    }

    /** burn_cct_for_compliance; burnOk says whether the token burn succeeds. */
    method BurnCctForCompliance(amount: u64, emissionAmount: u64, burnOk: bool)
      returns (result: Result<(), Abort<ErrorCode>>)
      modifies this
      ensures result.Ok? <==> Burn(old(State()), amount, emissionAmount, burnOk).Ok?
      ensures result.Ok? ==> State() == Burn(old(State()), amount, emissionAmount, burnOk).value
      ensures result.Err? ==>
                result.error == Burn(old(State()), amount, emissionAmount, burnOk).error && unchanged(this)
      ensures old(Valid()) ==> Valid()
    {
      if !verified {
        return Err(Program(NotVerified));
      }
      if cctBalance < amount {
        return Err(Program(InsufficientCCT));
      }
      if !burnOk {
        return Err(CpiFailed);
      }
      if totalBurned + amount >= U64_LIMIT {
        return Err(ArithmeticPanic);
      }
      cctBalance := cctBalance - amount;
      totalBurned := totalBurned + amount;
      if amount >= emissionAmount {
        complianceStatus := Compliant;
      } else {
        complianceStatus := NonCompliant;
      }
      return Ok(());
    }

    /** withdraw_bond; transferOk says whether the transfer out of the vault succeeds. */
    method WithdrawBond(amount: u64, transferOk: bool) returns (result: Result<(), Abort<ErrorCode>>)
      modifies this
      ensures result.Ok? <==> Withdraw(old(State()), amount, transferOk).Ok?
      ensures result.Ok? ==> State() == Withdraw(old(State()), amount, transferOk).value
      ensures result.Err? ==> result.error == Withdraw(old(State()), amount, transferOk).error && unchanged(this)
      ensures old(Valid()) ==> Valid()
    {
      if complianceStatus != Compliant {
        return Err(Program(NotCompliant));
      }
      if bondAmount < amount {
        return Err(Program(InsufficientBond));
      }
      if !transferOk {
        return Err(CpiFailed);
      }
      bondAmount := bondAmount - amount;
      return Ok(());
    }
  }

  /** register_industry: on success the result is the new industry account. */
  method RegisterIndustry(authority: Pubkey, companyName: string, bondAmount: u64, now: i64)
    returns (result: Result<IndustryAccount, Abort<ErrorCode>>)
    ensures result.Ok? <==> Register(authority, companyName, bondAmount, now).Ok?
    ensures result.Err? ==> result.error == Register(authority, companyName, bondAmount, now).error
    ensures result.Ok? ==>
              fresh(result.value) && result.value.Valid()
              && result.value.State() == Register(authority, companyName, bondAmount, now).value
  {
    if bondAmount < MIN_BOND {
      return Err(Program(InsufficientBond));
    }
    var account := new IndustryAccount.Init(IndustryState(authority, companyName, bondAmount, false, 0, 0, 0, Pending, now));
    return Ok(account);
  }

  class EmissionReport {
    var industry: IndustryAccount
    var co2Emitted: u64
    var reportPeriod: string
    var submittedAt: i64
    var verified: bool

    constructor (industry: IndustryAccount, co2Emitted: u64, reportPeriod: string, submittedAt: i64)
      ensures this.industry == industry && this.co2Emitted == co2Emitted
      ensures this.reportPeriod == reportPeriod && this.submittedAt == submittedAt
      ensures !verified
    {
      this.industry := industry;
      this.co2Emitted := co2Emitted;
      this.reportPeriod := reportPeriod;
      this.submittedAt := submittedAt;
      verified := false;
    }
  }

  /** submit_emission_report: a new, unverified report of the industry's emissions; the
      industry account is read and not changed. */
  method SubmitEmissionReport(industry: IndustryAccount, co2Emitted: u64, reportPeriod: string, now: i64)
    returns (report: EmissionReport)
    ensures fresh(report)
    ensures report.industry == industry && report.co2Emitted == co2Emitted
    ensures report.reportPeriod == reportPeriod && report.submittedAt == now && !report.verified
  {
    report := new EmissionReport(industry, co2Emitted, reportPeriod, now);
  }
}
