/** The Dutch-auction program: an auction account whose price decays linearly from a
    start price to a reserve price, bid accounts that escrow the price at bid time, and a
    settlement step that refunds each bidder the difference to the clearing price. */
module DutchAuction {
  import opened Primitives

  datatype AuctionStatus = Active | Completed | Finalized | Cancelled

  datatype BidStatus = Pending | Accepted | Refunded

  datatype ErrorCode =
    | InvalidPricing
    | InvalidDuration
    | AuctionNotActive
    | AuctionEnded
    | InsufficientTokens
    | MathOverflow
    | InvalidAuctionStatus
    | AuctionNotEnded
    | AuctionNotFinalized
    | BidAlreadyProcessed
    | HasParticipants

  /** The status moves an instruction may make: Active to any other status, Completed to
      Finalized, and nothing out of Finalized or Cancelled. */
  predicate StatusStep(from: AuctionStatus, to: AuctionStatus) {
    || from == to
    || (from == Active && to != Active)
    || (from == Completed && to == Finalized)
  }

  /** Once an auction is Finalized or Cancelled, every later status along a run of
      instructions is that same status. */
  lemma {:induction false} TerminalStatusIsFinal(run: seq<AuctionStatus>)
    requires |run| > 0 && (run[0] == Finalized || run[0] == Cancelled)
    requires forall i :: 0 <= i < |run| - 1 ==> StatusStep(run[i], run[i + 1])
    ensures forall i :: 0 <= i < |run| ==> run[i] == run[0]
  {
    if |run| > 1 {
      assert StatusStep(run[0], run[1]);
      var rest := run[1..];
      forall i | 0 <= i < |rest| - 1 ensures StatusStep(rest[i], rest[i + 1]) {
        assert rest[i] == run[i + 1] && rest[i + 1] == run[i + 2];
      }
      TerminalStatusIsFinal(rest);
      forall i | 0 <= i < |run| ensures run[i] == run[0] {
        if i > 0 { assert run[i] == rest[i - 1]; }
      }
    }
  }

  // ---------------------------------------------------------------------------
  // Arithmetic facts used by the price schedule
  // ---------------------------------------------------------------------------

  lemma MulMonotone(a: int, b: int, c: int)
    requires 0 <= a && b <= c
    ensures a * b <= a * c
  {
    assert a * c - a * b == a * (c - b);
  }

  lemma DivMonotone(a: int, b: int, d: int)
    requires 0 <= a <= b && 0 < d
    ensures a / d <= b / d
  {
    if a / d > b / d {
      MulMonotone(d, b / d + 1, a / d);
      assert false;
    }
  }

  /** The decay never exceeds the price range while the elapsed time is within the duration. */
  lemma DecayWithinRange(range: int, elapsed: int, duration: int)
    requires 0 <= range && 0 <= elapsed <= duration && 0 < duration
    ensures 0 <= range * elapsed / duration <= range
  {
    MulMonotone(range, elapsed, duration);
    MulMonotone(range, 0, elapsed);
    DivMonotone(range * elapsed, range * duration, duration);
    assert range * duration / duration == range;
  }

  /** A u64 price range times a positive i64 elapsed time fits in a u128. */
  lemma ProductFitsU128(range: int, elapsed: int)
    requires 0 <= range < U64_LIMIT && 0 <= elapsed < I64_LIMIT
    ensures range * elapsed < U128_LIMIT
  {
    MulMonotone(range, elapsed, I64_LIMIT);
    MulMonotone(I64_LIMIT, range, U64_LIMIT);
  }

  // ---------------------------------------------------------------------------
  // Price schedule
  // ---------------------------------------------------------------------------

  /** The linear decay schedule in exact integers: the start price up to the start time,
      the reserve price from the end time on, and in between the start price less the
      price range scaled by the elapsed fraction of the duration, rounded toward the
      start price. */
  function LinearDecayPrice(startPrice: int, reservePrice: int, startTime: int, endTime: int, t: int): int
    requires startTime < endTime
  {
    if t >= endTime then reservePrice
    else if t <= startTime then startPrice
    else startPrice - (startPrice - reservePrice) * (t - startTime) / (endTime - startTime)
  }

  lemma LinearDecayWithinPrices(startPrice: int, reservePrice: int, startTime: int, endTime: int, t: int)
    requires reservePrice <= startPrice && startTime < endTime
    ensures reservePrice <= LinearDecayPrice(startPrice, reservePrice, startTime, endTime, t) <= startPrice
  {
    if startTime < t < endTime {
      DecayWithinRange(startPrice - reservePrice, t - startTime, endTime - startTime);
    }
  }

  lemma LinearDecayNonIncreasing(startPrice: int, reservePrice: int, startTime: int, endTime: int, t1: int, t2: int)
    requires reservePrice <= startPrice && startTime < endTime && t1 <= t2
    ensures LinearDecayPrice(startPrice, reservePrice, startTime, endTime, t2)
         <= LinearDecayPrice(startPrice, reservePrice, startTime, endTime, t1)
  {
    var range, duration := startPrice - reservePrice, endTime - startTime;
    LinearDecayWithinPrices(startPrice, reservePrice, startTime, endTime, t1);
    LinearDecayWithinPrices(startPrice, reservePrice, startTime, endTime, t2);
    if startTime < t1 && t2 < endTime {
      MulMonotone(range, t1 - startTime, t2 - startTime);
      MulMonotone(range, 0, t1 - startTime);
      DivMonotone(range * (t1 - startTime), range * (t2 - startTime), duration);
    }
  }

  const MathOverflowError: Result<u64, Abort<ErrorCode>> := Err(Program(MathOverflow))

  /** calculate_current_price, with its u64/u128/i64 arithmetic. Its checked operations
      never fail: the only failures are the unchecked i64 subtraction for the duration and
      the unchecked u64 subtraction for the price range, both of which panic. */
  function CalculateCurrentPrice(startPrice: u64, reservePrice: u64, startTime: i64, endTime: i64, currentTime: i64)
    : (r: Result<u64, Abort<ErrorCode>>)
    ensures currentTime >= endTime ==> r == Ok(reservePrice)
    ensures currentTime < endTime && currentTime <= startTime ==> r == Ok(startPrice)
    ensures r.Err? <==> startTime < currentTime < endTime && (!IsI64(endTime - startTime) || startPrice < reservePrice)
    ensures r.Err? ==> r.error == ArithmeticPanic
    ensures r.Ok? && reservePrice <= startPrice ==> reservePrice <= r.value <= startPrice
  {
    if currentTime >= endTime then Ok(reservePrice)
    else if currentTime <= startTime then Ok(startPrice)
    // `end_time - start_time` is an unchecked i64 subtraction
    else if !IsI64(endTime - startTime) then Err(ArithmeticPanic)
    // `start_price - reserve_price` is an unchecked u64 subtraction
    else if startPrice < reservePrice then Err(ArithmeticPanic)
    else
      var duration := endTime - startTime;
      var elapsed := currentTime - startTime;
      var priceRange := startPrice - reservePrice;
      // both casts to u128 keep the value, since duration and elapsed are positive here
      ProductFitsU128(priceRange, elapsed);
      var product := priceRange * elapsed;
      if product >= U128_LIMIT then MathOverflowError
      else
        // checked_div fails only on a zero divisor, and duration is positive;
        // `as u64` keeps the low 64 bits of the quotient
        DecayWithinRange(priceRange, elapsed, duration);
        var decay := (product / duration) % U64_LIMIT;
        if startPrice < decay then MathOverflowError
        else Ok(Max(startPrice - decay, reservePrice))
  }

  /** For the parameters an auction can have, calculate_current_price succeeds and equals
      the exact linear decay schedule: the u128 product, the truncating cast, the checked
      subtraction and the final `max` with the reserve price change nothing. */
  lemma CurrentPriceIsLinearDecay(startPrice: u64, reservePrice: u64, startTime: i64, endTime: i64, t: i64)
    requires reservePrice <= startPrice && startTime < endTime && IsI64(endTime - startTime)
    ensures CalculateCurrentPrice(startPrice, reservePrice, startTime, endTime, t)
         == Ok(LinearDecayPrice(startPrice, reservePrice, startTime, endTime, t))
  {
    if startTime < t < endTime {
      DecayWithinRange(startPrice - reservePrice, t - startTime, endTime - startTime);
    }
  }

  /** For fixed auction parameters the price never rises as time passes. */
  lemma CurrentPriceNonIncreasing(startPrice: u64, reservePrice: u64, startTime: i64, endTime: i64, t1: i64, t2: i64)
    requires reservePrice <= startPrice && startTime < endTime && IsI64(endTime - startTime) && t1 <= t2
    ensures CalculateCurrentPrice(startPrice, reservePrice, startTime, endTime, t1).Ok?
    ensures CalculateCurrentPrice(startPrice, reservePrice, startTime, endTime, t2).Ok?
    ensures CalculateCurrentPrice(startPrice, reservePrice, startTime, endTime, t2).value
         <= CalculateCurrentPrice(startPrice, reservePrice, startTime, endTime, t1).value
  {
    CurrentPriceIsLinearDecay(startPrice, reservePrice, startTime, endTime, t1);
    CurrentPriceIsLinearDecay(startPrice, reservePrice, startTime, endTime, t2);
    LinearDecayNonIncreasing(startPrice, reservePrice, startTime, endTime, t1, t2);
  }

  // ---------------------------------------------------------------------------
  // Bids and settlement
  // ---------------------------------------------------------------------------

  /** What a bid fixes when it is placed: tokens, price per token and the escrowed cost. */
  datatype BidTerms = BidTerms(tokenAmount: u64, pricePerToken: u64, totalCost: u64)

  function TokensSold(bids: seq<BidTerms>): nat {
    if bids == [] then 0 else TokensSold(bids[..|bids| - 1]) + bids[|bids| - 1].tokenAmount
  }

  function AmountRaised(bids: seq<BidTerms>): nat {
    if bids == [] then 0 else AmountRaised(bids[..|bids| - 1]) + bids[|bids| - 1].totalCost
  }

  lemma SumsAppend(bids: seq<BidTerms>, b: BidTerms)
    ensures TokensSold(bids + [b]) == TokensSold(bids) + b.tokenAmount
    ensures AmountRaised(bids + [b]) == AmountRaised(bids) + b.totalCost
  {
    assert (bids + [b])[..|bids|] == bids;
  }


  /** The refund computation of claim_tokens: the escrowed cost less the tokens at the
      clearing price. The product is an unchecked u64 multiplication (it panics on
      overflow); the subtraction is checked and fails with MathOverflow. */
  function Refund(totalCost: u64, tokenAmount: u64, clearingPrice: u64): (r: Result<u64, Abort<ErrorCode>>)
    ensures r.Ok? <==> tokenAmount * clearingPrice <= totalCost
    ensures r.Ok? ==> r.value + tokenAmount * clearingPrice == totalCost
    ensures r.Err? ==>
      r.error == if tokenAmount * clearingPrice >= U64_LIMIT then ArithmeticPanic else Program(MathOverflow)
  {
    var owed := tokenAmount * clearingPrice;
    MulMonotone(tokenAmount, 0, clearingPrice);
    if owed >= U64_LIMIT then Err(ArithmeticPanic)
    else if totalCost < owed then Err(Program(MathOverflow))
    else Ok(totalCost - owed)
  }

  /** For a bid that escrowed tokens times its own price, the refund succeeds exactly when
      the clearing price does not exceed that price (or the bid is for no tokens), and it
      is then the tokens times the price difference. */
  lemma RefundOfWellPricedBid(b: BidTerms, clearingPrice: u64)
    requires b.totalCost == b.tokenAmount * b.pricePerToken
    ensures Refund(b.totalCost, b.tokenAmount, clearingPrice).Ok?
        <==> b.tokenAmount == 0 || clearingPrice <= b.pricePerToken
    ensures clearingPrice <= b.pricePerToken ==>
      Refund(b.totalCost, b.tokenAmount, clearingPrice)
        == Ok(b.tokenAmount * (b.pricePerToken - clearingPrice))
  {
    var owed := b.tokenAmount * clearingPrice;
    if clearingPrice <= b.pricePerToken {
      MulMonotone(b.tokenAmount, clearingPrice, b.pricePerToken);
      assert b.totalCost - owed == b.tokenAmount * (b.pricePerToken - clearingPrice);
    } else if b.tokenAmount > 0 {
      MulMonotone(b.tokenAmount, b.pricePerToken + 1, clearingPrice);
      assert owed > b.totalCost;
    }
  }

  /** Every bid escrowed exactly its tokens times its price. */
  ghost predicate WellPriced(bids: seq<BidTerms>) {
    forall i :: 0 <= i < |bids| ==> bids[i].totalCost == bids[i].tokenAmount * bids[i].pricePerToken
  }

  /** What settlement owes the bidders at a clearing price: each bid's tokens times the
      amount by which its price exceeds the clearing price. */
  function RefundsOwed(bids: seq<BidTerms>, clearingPrice: int): int {
    if bids == [] then 0
    else
      var b := bids[|bids| - 1];
      RefundsOwed(bids[..|bids| - 1], clearingPrice) + b.tokenAmount * (b.pricePerToken - clearingPrice)
  }

  /** The escrow balances exactly: the funds raised are the tokens sold at the clearing
      price plus the refunds owed at that price. */
  lemma {:induction false} EscrowBalances(bids: seq<BidTerms>, clearingPrice: int)
    requires WellPriced(bids)
    ensures AmountRaised(bids) == clearingPrice * TokensSold(bids) + RefundsOwed(bids, clearingPrice)
  {
    if bids != [] {
      var init, b := bids[..|bids| - 1], bids[|bids| - 1];
      assert WellPriced(init) by {
        forall i | 0 <= i < |init| ensures init[i].totalCost == init[i].tokenAmount * init[i].pricePerToken {
          assert init[i] == bids[i];
        }
      }
      EscrowBalances(init, clearingPrice);
      assert b.totalCost == clearingPrice * b.tokenAmount + b.tokenAmount * (b.pricePerToken - clearingPrice);
      assert clearingPrice * TokensSold(bids) == clearingPrice * TokensSold(init) + clearingPrice * b.tokenAmount;
    }
  }

  /** No bid is owed a negative refund when the clearing price undercuts no bid, so the
      refunds never exceed the funds raised. */
  lemma {:induction false} RefundsWithinEscrow(bids: seq<BidTerms>, clearingPrice: int)
    requires WellPriced(bids) && 0 <= clearingPrice
    requires forall i :: 0 <= i < |bids| ==> clearingPrice <= bids[i].pricePerToken
    ensures 0 <= RefundsOwed(bids, clearingPrice) <= AmountRaised(bids)
  {
    if bids != [] {
      var init, b := bids[..|bids| - 1], bids[|bids| - 1];
      assert forall i :: 0 <= i < |init| ==> init[i] == bids[i];
      RefundsWithinEscrow(init, clearingPrice);
      MulMonotone(b.tokenAmount, 0, b.pricePerToken - clearingPrice);
    }
    EscrowBalances(bids, clearingPrice);
    MulMonotone(clearingPrice, 0, TokensSold(bids));
  }

  class Bid {
    var auction: Auction
    var bidder: Pubkey
    var tokenAmount: u64
    var pricePerToken: u64
    var totalCost: u64
    var timestamp: i64
    var status: BidStatus

    constructor (auction: Auction, bidder: Pubkey, tokenAmount: u64, pricePerToken: u64, totalCost: u64, timestamp: i64)
      ensures this.auction == auction && this.bidder == bidder
      ensures this.tokenAmount == tokenAmount && this.pricePerToken == pricePerToken
      ensures this.totalCost == totalCost && this.timestamp == timestamp
      ensures status == Pending
    {
      this.auction := auction;
      this.bidder := bidder;
      this.tokenAmount := tokenAmount;
      this.pricePerToken := pricePerToken;
      this.totalCost := totalCost;
      this.timestamp := timestamp;
      status := Pending;
    }

    /** A bid escrows exactly its tokens times its price. */
    ghost predicate Valid()
      reads this
    {
      totalCost == tokenAmount * pricePerToken
    }

    function Terms(): BidTerms
      reads this
    {
      BidTerms(tokenAmount, pricePerToken, totalCost)
    }
  }

  // ---------------------------------------------------------------------------
  // The auction account
  // ---------------------------------------------------------------------------

  /** The fields of an auction account, together with the terms of every bid placed on it
      (oldest first) and the clock reading from which its current price was last computed. */
  datatype AuctionState = AuctionState(
    authority: Pubkey, batchNumber: u32, totalTokens: u64, tokensRemaining: u64,
    startPrice: u64, currentPrice: u64, reservePrice: u64, startTime: i64, endTime: i64,
    status: AuctionStatus, totalRaised: u64, participantCount: u32,
    bids: seq<BidTerms>, priceTime: int)

  /** The auction invariant: the pricing and timing create_auction admits with every bid
      and the current price on the schedule, tokens and funds accounted for by the bids,
      and the status agreeing with the remaining tokens and the participants. */
  ghost predicate Invariant(s: AuctionState) {
    PricingValid(s) && Accounted(s) && StatusConsistent(s)
  }

  ghost predicate PricingValid(s: AuctionState) {
    && s.reservePrice < s.startPrice
    && s.startTime < s.endTime && IsI64(s.endTime - s.startTime)
    && s.reservePrice <= s.currentPrice <= s.startPrice
    && (s.status == Active || s.status == Completed ==>
          s.currentPrice == LinearDecayPrice(s.startPrice, s.reservePrice, s.startTime, s.endTime, s.priceTime))
    && forall i :: 0 <= i < |s.bids| ==> s.reservePrice <= s.bids[i].pricePerToken <= s.startPrice
  }

  ghost predicate Accounted(s: AuctionState) {
    && s.tokensRemaining <= s.totalTokens
    && s.participantCount == |s.bids|
    && s.totalTokens - s.tokensRemaining == TokensSold(s.bids)
    && s.totalRaised == AmountRaised(s.bids)
  }

  ghost predicate StatusConsistent(s: AuctionState) {
    && (s.status == Completed ==> s.tokensRemaining == 0)
    && (s.status == Active && s.tokensRemaining == 0 ==> s.participantCount == 0)
    && (s.status == Cancelled ==> s.participantCount == 0)
  }

  /** No bid was placed at a price below the current (after finalization: clearing) price. */
  ghost predicate ClearingWithinBids(s: AuctionState) {
    forall i :: 0 <= i < |s.bids| ==> s.currentPrice <= s.bids[i].pricePerToken
  }

  /** The state change of a successful place_bid: the tokens leave the pool, the cost joins
      the funds raised, the participant is counted, the bid's price becomes the current
      price, and the auction is Completed when no tokens remain. */
  ghost function AfterBid(s: AuctionState, terms: BidTerms, now: i64): (r: AuctionState)
    requires terms.tokenAmount <= s.tokensRemaining
    requires s.totalRaised + terms.totalCost < U64_LIMIT && s.participantCount + 1 < U32_LIMIT
    ensures r.tokensRemaining + terms.tokenAmount == s.tokensRemaining
    ensures r.totalRaised == s.totalRaised + terms.totalCost && r.participantCount == s.participantCount + 1
    ensures s.status == Active ==> (r.status == Completed <==> r.tokensRemaining == 0)
    ensures s.status == Active ==> StatusStep(s.status, r.status)
    ensures r.tokensRemaining != 0 ==> r.status == s.status
    ensures r.bids == s.bids + [terms] && r.currentPrice == terms.pricePerToken
    ensures r.(tokensRemaining := s.tokensRemaining, totalRaised := s.totalRaised,
               participantCount := s.participantCount, currentPrice := s.currentPrice,
               status := s.status, bids := s.bids, priceTime := s.priceTime) == s
  {
    var remaining := s.tokensRemaining - terms.tokenAmount;
    s.(tokensRemaining := remaining,
       totalRaised := s.totalRaised + terms.totalCost,
       participantCount := s.participantCount + 1,
       currentPrice := terms.pricePerToken,
       status := if remaining == 0 then Completed else s.status,
       bids := s.bids + [terms],
       priceTime := now)
  }

  lemma BidKeepsPricing(s: AuctionState, terms: BidTerms, now: i64)
    requires PricingValid(s) && s.status == Active
    requires terms.tokenAmount <= s.tokensRemaining
    requires terms.pricePerToken == LinearDecayPrice(s.startPrice, s.reservePrice, s.startTime, s.endTime, now)
    requires s.totalRaised + terms.totalCost < U64_LIMIT && s.participantCount + 1 < U32_LIMIT
    ensures PricingValid(AfterBid(s, terms, now))
  {
    var r := AfterBid(s, terms, now);
    LinearDecayWithinPrices(s.startPrice, s.reservePrice, s.startTime, s.endTime, now);
    forall i | 0 <= i < |r.bids| ensures s.reservePrice <= r.bids[i].pricePerToken <= s.startPrice {
      if i < |s.bids| {
        assert r.bids[i] == s.bids[i];
      }
    }
  }

  lemma BidKeepsAccounts(s: AuctionState, terms: BidTerms, now: i64)
    requires Accounted(s)
    requires terms.tokenAmount <= s.tokensRemaining
    requires s.totalRaised + terms.totalCost < U64_LIMIT && s.participantCount + 1 < U32_LIMIT
    ensures Accounted(AfterBid(s, terms, now))
  {
    SumsAppend(s.bids, terms);
  }

  lemma BidKeepsClearing(s: AuctionState, terms: BidTerms, now: i64)
    requires PricingValid(s) && s.status == Active && ClearingWithinBids(s) && now >= s.priceTime
    requires terms.tokenAmount <= s.tokensRemaining
    requires terms.pricePerToken == LinearDecayPrice(s.startPrice, s.reservePrice, s.startTime, s.endTime, now)
    requires s.totalRaised + terms.totalCost < U64_LIMIT && s.participantCount + 1 < U32_LIMIT
    ensures ClearingWithinBids(AfterBid(s, terms, now))
  {
    var r := AfterBid(s, terms, now);
    LinearDecayNonIncreasing(s.startPrice, s.reservePrice, s.startTime, s.endTime, s.priceTime, now);
    forall i | 0 <= i < |r.bids| ensures r.currentPrice <= r.bids[i].pricePerToken {
      if i < |s.bids| {
        assert r.bids[i] == s.bids[i];
      }
    }
  }

  lemma AppendKeepsWellPriced(bids: seq<BidTerms>, terms: BidTerms)
    requires WellPriced(bids) && terms.totalCost == terms.tokenAmount * terms.pricePerToken
    ensures WellPriced(bids + [terms])
  {
    forall i | 0 <= i < |bids| + 1
      ensures (bids + [terms])[i].totalCost == (bids + [terms])[i].tokenAmount * (bids + [terms])[i].pricePerToken
    {
      if i < |bids| {
        assert (bids + [terms])[i] == bids[i];
      }
    }
  }

  /** A bid at the scheduled price, placed while the auction is Active, keeps the
      invariant; with a clock that does not run backwards it also keeps every earlier bid
      priced at or above the new current price. */
  lemma BidKeepsInvariant(s: AuctionState, terms: BidTerms, now: i64)
    requires Invariant(s) && s.status == Active
    requires terms.tokenAmount <= s.tokensRemaining
    requires terms.pricePerToken == LinearDecayPrice(s.startPrice, s.reservePrice, s.startTime, s.endTime, now)
    requires terms.totalCost == terms.tokenAmount * terms.pricePerToken
    requires s.totalRaised + terms.totalCost < U64_LIMIT && s.participantCount + 1 < U32_LIMIT
    ensures Invariant(AfterBid(s, terms, now))
    ensures ClearingWithinBids(s) && now >= s.priceTime ==> ClearingWithinBids(AfterBid(s, terms, now))
    ensures WellPriced(s.bids) ==> WellPriced(AfterBid(s, terms, now).bids)
  {
    BidKeepsPricing(s, terms, now);
    BidKeepsAccounts(s, terms, now);
    if ClearingWithinBids(s) && now >= s.priceTime {
      BidKeepsClearing(s, terms, now);
    }
    if WellPriced(s.bids) {
      AppendKeepsWellPriced(s.bids, terms);
    }
  }

  /** The state change of a successful finalize_auction: the status becomes Finalized and
      the current price becomes the clearing price, the last bid price when every token
      was sold and the reserve price otherwise. */
  function AfterFinalize(s: AuctionState): (r: AuctionState)
    ensures r.status == Finalized
    ensures r.tokensRemaining != 0 ==> r.currentPrice == r.reservePrice
    ensures r.tokensRemaining == 0 ==> r.currentPrice == s.currentPrice
    ensures r.(status := s.status, currentPrice := s.currentPrice) == s
  {
    s.(status := Finalized, currentPrice := if s.tokensRemaining == 0 then s.currentPrice else s.reservePrice)
  }

  /** Settlement is covered: in a valid auction whose clearing price undercuts no bid, the
      refunds owed to all bidders together are within the funds raised. */
  lemma SettlementWithinRaised(s: AuctionState)
    requires Invariant(s) && ClearingWithinBids(s) && WellPriced(s.bids)
    ensures 0 <= RefundsOwed(s.bids, s.currentPrice) <= s.totalRaised
  {
    RefundsWithinEscrow(s.bids, s.currentPrice);
  }

  class Auction {
    var authority: Pubkey
    var batchNumber: u32
    var totalTokens: u64
    var tokensRemaining: u64
    var startPrice: u64
    var currentPrice: u64
    var reservePrice: u64
    var startTime: i64
    var endTime: i64
    var status: AuctionStatus
    var totalRaised: u64
    var participantCount: u32

    /** The terms of every bid placed on this auction, oldest first. */
    ghost var bids: seq<BidTerms>
    /** The clock reading from which currentPrice was last computed on the schedule. */
    ghost var priceTime: int

    ghost function State(): AuctionState
      reads this
    {
      AuctionState(authority, batchNumber, totalTokens, tokensRemaining, startPrice, currentPrice,
                   reservePrice, startTime, endTime, status, totalRaised, participantCount, bids, priceTime)
    }

    ghost predicate Valid()
      reads this
    {
      Invariant(State())
    }

    constructor Init(authority: Pubkey, batchNumber: u32, totalTokens: u64, startPrice: u64,
                     reservePrice: u64, startTime: i64, endTime: i64)
      requires reservePrice < startPrice && startTime < endTime && IsI64(endTime - startTime)
      ensures Valid() && ClearingWithinBids(State())
      ensures State() == AuctionState(authority, batchNumber, totalTokens, totalTokens, startPrice, startPrice,
                                      reservePrice, startTime, endTime, Active, 0, 0, [], startTime)
    {
      this.authority := authority;
      this.batchNumber := batchNumber;
      this.totalTokens := totalTokens;
      tokensRemaining := totalTokens;
      this.startPrice := startPrice;
      currentPrice := startPrice;
      this.reservePrice := reservePrice;
      this.startTime := startTime;
      this.endTime := endTime;
      status := Active;
      totalRaised := 0;
      participantCount := 0;
      bids := [];
      priceTime := startTime;
    }

    /** The scheduled price at clock reading t. */
    ghost function PriceAt(t: int): int
      reads this
      requires startTime < endTime
    {
      LinearDecayPrice(startPrice, reservePrice, startTime, endTime, t)
    }

    /** place_bid: buy tokenAmount tokens at the scheduled price for `now`, escrowing
        their cost through the token program (transferOk says whether that call succeeds). */
    method PlaceBid(bidder: Pubkey, tokenAmount: u64, now: i64, transferOk: bool)
      returns (result: Result<Bid, Abort<ErrorCode>>)
      requires Valid()
      modifies this
      ensures Valid()
      ensures StatusStep(old(status), status)
      ensures result.Err? ==> unchanged(this)
      ensures old(status) != Active ==> result == Err(Program(AuctionNotActive))
      ensures old(status) == Active && now >= endTime ==> result == Err(Program(AuctionEnded))
      ensures old(status) == Active && now < endTime && tokenAmount > old(tokensRemaining)
              ==> result == Err(Program(InsufficientTokens))
      ensures old(status) == Active && now < endTime && tokenAmount <= old(tokensRemaining) ==>
                var cost := tokenAmount * old(PriceAt(now));
                && (cost >= U64_LIMIT ==> result == Err(Program(MathOverflow)))
                && (cost < U64_LIMIT && !transferOk ==> result == Err(CpiFailed))
                && (cost < U64_LIMIT && transferOk ==>
                      (result.Ok? <==> old(totalRaised) + cost < U64_LIMIT && old(participantCount) + 1 < U32_LIMIT))
                && (cost < U64_LIMIT && transferOk && !result.Ok? ==> result == Err(ArithmeticPanic))
      ensures result.Ok? ==>
                var bid := result.value;
                && fresh(bid) && bid.Valid()
                && bid.auction == this && bid.bidder == bidder && bid.timestamp == now
                && bid.tokenAmount == tokenAmount && bid.pricePerToken == old(PriceAt(now))
                && bid.status == Pending
                && tokenAmount <= old(tokensRemaining)
                && old(totalRaised) + bid.totalCost < U64_LIMIT && old(participantCount) + 1 < U32_LIMIT
                && State() == AfterBid(old(State()), bid.Terms(), now)
      ensures old(ClearingWithinBids(State())) && now >= old(priceTime) ==> ClearingWithinBids(State())
      ensures old(WellPriced(bids)) ==> WellPriced(bids)
    {
      if status != Active {
        return Err(Program(AuctionNotActive));
      }
      if now >= endTime {
        return Err(Program(AuctionEnded));
      }
      if tokenAmount > tokensRemaining {
        return Err(Program(InsufficientTokens));
      }
      // The `?` on calculate_current_price never fires for a valid auction.
      CurrentPriceIsLinearDecay(startPrice, reservePrice, startTime, endTime, now);
      var price := CalculateCurrentPrice(startPrice, reservePrice, startTime, endTime, now).value;
      // checked_mul
      MulMonotone(tokenAmount, 0, price);
      if tokenAmount * price >= U64_LIMIT {
        return Err(Program(MathOverflow));
      }
      var totalCost: u64 := tokenAmount * price;
      if !transferOk {
        return Err(CpiFailed);
      }
      if totalRaised + totalCost >= U64_LIMIT || participantCount + 1 >= U32_LIMIT {
        return Err(ArithmeticPanic);
      }
      var bid := new Bid(this, bidder, tokenAmount, price, totalCost, now);
      ApplyBid(bid.Terms(), now);
      return Ok(bid);
    }

    /** The account update of place_bid once every check has passed, as AfterBid states it. */
    method ApplyBid(terms: BidTerms, now: i64)
      requires Valid() && status == Active && now < endTime
      requires terms.tokenAmount <= tokensRemaining
      requires terms.pricePerToken == PriceAt(now)
      requires terms.totalCost == terms.tokenAmount * terms.pricePerToken
      requires totalRaised + terms.totalCost < U64_LIMIT && participantCount + 1 < U32_LIMIT
      modifies this
      ensures Valid()
      ensures State() == AfterBid(old(State()), terms, now)
      ensures old(ClearingWithinBids(State())) && now >= old(priceTime) ==> ClearingWithinBids(State())
      ensures old(WellPriced(bids)) ==> WellPriced(bids)
    {
      ghost var before := State();
      BidKeepsInvariant(before, terms, now);
      currentPrice := terms.pricePerToken;
      tokensRemaining := tokensRemaining - terms.tokenAmount;
      totalRaised := totalRaised + terms.totalCost;
      participantCount := participantCount + 1;
      if tokensRemaining == 0 {
        status := Completed;
      }
      bids := bids + [terms];
      priceTime := now;
      assert State() == AfterBid(before, terms, now);
    }

    /** finalize_auction: close the auction once it has ended or sold out, fixing the
        clearing price: the last bid price if every token was sold, else the reserve. */
    method FinalizeAuction(now: i64) returns (result: Result<(), Abort<ErrorCode>>)
      requires Valid()
      modifies this
      ensures Valid()
      ensures StatusStep(old(status), status)
      ensures result.Err? ==> unchanged(this)
      ensures old(status) != Active && old(status) != Completed
              ==> result == Err(Program(InvalidAuctionStatus))
      ensures (old(status) == Active || old(status) == Completed) && now < endTime && old(tokensRemaining) != 0
              ==> result == Err(Program(AuctionNotEnded))
      ensures result.Ok? <==>
                (old(status) == Active || old(status) == Completed) && (now >= endTime || old(tokensRemaining) == 0)
      ensures result.Ok? ==> State() == AfterFinalize(old(State()))
      // Finalizing with unsold tokens clears at the reserve, below every bid.
      ensures result.Ok? && (old(ClearingWithinBids(State())) || old(tokensRemaining) != 0)
              ==> ClearingWithinBids(State())
    {
      if status != Active && status != Completed {
        return Err(Program(InvalidAuctionStatus));
      }
      if !(now >= endTime || tokensRemaining == 0) {
        return Err(Program(AuctionNotEnded));
      }
      var clearingPrice := if tokensRemaining == 0 then currentPrice else reservePrice;
      status := Finalized;
      currentPrice := clearingPrice;
      return Ok(());
    }

    /** cancel_auction: only an Active auction nobody has bid on can be cancelled. */
    method CancelAuction() returns (result: Result<(), Abort<ErrorCode>>)
      requires Valid()
      modifies this`status
      ensures Valid()
      ensures StatusStep(old(status), status)
      ensures old(status) != Active ==> result == Err(Program(InvalidAuctionStatus))
      ensures old(status) == Active && participantCount != 0 ==> result == Err(Program(HasParticipants))
      ensures result.Ok? <==> old(status) == Active && participantCount == 0
      ensures status == if result.Ok? then Cancelled else old(status)
    {
      if status != Active {
        return Err(Program(InvalidAuctionStatus));
      }
      if participantCount != 0 {
        return Err(Program(HasParticipants));
      }
      status := Cancelled;
      return Ok(());
    }
  }

  /** create_auction: the clock reading `now` becomes the start time. On success the result
      is the new auction account; on failure no account is created. */
  method CreateAuction(authority: Pubkey, batchNumber: u32, totalTokens: u64, startPrice: u64,
                       reservePrice: u64, durationSeconds: i64, now: i64)
    returns (result: Result<Auction, Abort<ErrorCode>>)
    ensures startPrice <= reservePrice ==> result == Err(Program(InvalidPricing))
    ensures startPrice > reservePrice && durationSeconds <= 0 ==> result == Err(Program(InvalidDuration))
    // `clock.unix_timestamp + duration_seconds` is an unchecked i64 addition
    ensures startPrice > reservePrice && durationSeconds > 0 && !IsI64(now + durationSeconds)
            ==> result == Err(ArithmeticPanic)
    ensures result.Ok? <==> startPrice > reservePrice && durationSeconds > 0 && IsI64(now + durationSeconds)
    ensures result.Ok? ==>
              var a := result.value;
              && fresh(a) && a.Valid() && ClearingWithinBids(a.State())
              && a.authority == authority && a.batchNumber == batchNumber
              && a.totalTokens == totalTokens && a.tokensRemaining == totalTokens
              && a.startPrice == startPrice && a.currentPrice == startPrice
              && a.reservePrice == reservePrice
              && a.startTime == now && a.endTime == now + durationSeconds
              && a.status == Active && a.totalRaised == 0 && a.participantCount == 0
              && a.bids == [] && a.priceTime == now
  {
    if startPrice <= reservePrice {
      return Err(Program(InvalidPricing));
    }
    if durationSeconds <= 0 {
      return Err(Program(InvalidDuration));
    }
    if !IsI64(now + durationSeconds) {
      return Err(ArithmeticPanic);
    }
    var auction := new Auction.Init(authority, batchNumber, totalTokens, startPrice, reservePrice,
                                    now, now + durationSeconds);
    return Ok(auction);
  }

  /** claim_tokens: settle a pending bid against a finalized auction, returning the refund
      paid out of escrow (transferOk says whether that transfer succeeds). The source does
      not check that the bid belongs to the auction; the last postcondition is the guarantee
      for a bid that does. */
  method ClaimTokens(auction: Auction, bid: Bid, transferOk: bool) returns (result: Result<u64, Abort<ErrorCode>>)
    modifies bid`status
    ensures auction.status != Finalized ==> result == Err(Program(AuctionNotFinalized))
    ensures auction.status == Finalized && old(bid.status) != Pending
            ==> result == Err(Program(BidAlreadyProcessed))
    ensures auction.status == Finalized && old(bid.status) == Pending ==>
              var refund := Refund(bid.totalCost, bid.tokenAmount, auction.currentPrice);
              && (refund.Err? ==> result == Err(refund.error))
              && (refund.Ok? && refund.value > 0 && !transferOk ==> result == Err(CpiFailed))
              && (refund.Ok? && (refund.value == 0 || transferOk) ==> result == Ok(refund.value))
    ensures bid.status == if result.Ok? then Accepted else old(bid.status)
    // A pending bid of this auction, settled under a clearing price no bid undercuts,
    // never hits the overflow or underflow paths, and is refunded its overpayment.
    ensures auction.Valid() && ClearingWithinBids(auction.State()) && auction.status == Finalized
            && old(bid.status) == Pending && bid.Valid() && bid.Terms() in auction.bids ==>
              && (result.Ok? || result == Err(CpiFailed))
              && (result.Ok? ==> result.value == bid.tokenAmount * (bid.pricePerToken - auction.currentPrice))
  {
    if auction.status != Finalized {
      return Err(Program(AuctionNotFinalized));
    }
    if bid.status != Pending {
      return Err(Program(BidAlreadyProcessed));
    }
    if bid.Terms() in auction.bids && ClearingWithinBids(auction.State()) && bid.Valid() {
      var i :| 0 <= i < |auction.bids| && auction.bids[i] == bid.Terms();
      assert auction.currentPrice <= auction.bids[i].pricePerToken;
      RefundOfWellPricedBid(bid.Terms(), auction.currentPrice);
    }
    var refund := Refund(bid.totalCost, bid.tokenAmount, auction.currentPrice);
    if refund.Err? {
      return Err(refund.error);
    }
    if refund.value > 0 && !transferOk {
      return Err(CpiFailed);
    }
    bid.status := Accepted;
    return Ok(refund.value);
  }

  /** Claiming the same bid twice: once the first claim succeeds, the second fails with
      BidAlreadyProcessed and leaves the bid Accepted. */
  method ClaimTwice(auction: Auction, bid: Bid, firstTransferOk: bool, secondTransferOk: bool)
    returns (first: Result<u64, Abort<ErrorCode>>, second: Result<u64, Abort<ErrorCode>>)
    modifies bid`status
    ensures first.Ok? ==> second == Err(Program(BidAlreadyProcessed)) && bid.status == Accepted
  {
    first := ClaimTokens(auction, bid, firstTransferOk);
    second := ClaimTokens(auction, bid, secondTransferOk);
  }
}
