# Carbon-credit auction and ledger programs, and the waitlist route, in Dafny

This project models three pieces of a carbon-credit platform and proves properties of them.

- **The Dutch-auction Solana program** (`DutchAuction`, in `dutch_auction.dfy`). An auction account sells a batch of carbon-credit tokens. Its price decays linearly from a start price to a reserve price over the auction's duration. Each bid escrows its cost at the price current when it is placed. Finalizing fixes a clearing price. Claiming settles a bid and refunds the excess it paid over that clearing price.
  - The auction and bid accounts are classes whose methods update their fields, as the instruction handlers do.
  - The price function `calculate_current_price` is a pure function. Its exact u64/u128/i64 arithmetic is written out.
  - Each auction carries two ghost fields: the list of bid terms placed on it, and the clock reading of its last price. These let the invariant tie the counters to the bids.
- **The carbon-credits Solana program** (`CarbonCredits`, in `carbon_credits.dfy`). An industry account posts a bond. It is then verified, deposits and withdraws bond, buys carbon-credit tokens (CCT) and burns them against its emissions. Emission reports are separate accounts.
  - Each handler is a pure step function on the account's fields, giving an `Err` or the new fields.
  - The `IndustryAccount` class methods update the fields in place, and are proved equal to those step functions.
  - Runs of instructions are modelled in order to state invariants over whole histories.
- **The waitlist sign-up route** (`Waitlist`, in `waitlist.dfy`). POST `/api/waitlists` with a JSON body carrying an email.
  - The route tests the email against the pattern `^[^\s@]+@[^\s@]+\.[^\s@]+$`, looks it up in the waitlist table, inserts it when it is new and mails a thank-you note.
  - It answers 400, 409, 201 or 500.
  - The table is a `set<string>` field of a `Store` class. The outside calls, and whether each one fails, are parameters.

`primitives.dfy` (`Primitives`) holds the machine integer types, `Result`, and `Abort`, the reason an instruction aborts.

Conventions shared by both programs:

- **Atomicity.** A Solana instruction is atomic. Every handler that returns an error is proved to leave its accounts unchanged.
- **Unchecked arithmetic.** Unchecked `+`, `-` and `*` on account fields are taken to panic on overflow, since Anchor programs are built with overflow checks. They are modelled as `Abort.ArithmeticPanic`. Checked operations that fail give the program's own `MathOverflow` code.
- **Token-program calls.** Every SPL token call (transfer, mint, burn) is a boolean parameter saying whether it succeeds. When it fails, the instruction aborts with `Abort.CpiFailed`.
- **Clock.** The clock reading (`Clock::get()?.unix_timestamp`) is a parameter.

The web app's auction pages run on mock data and are not modelled. The on-chain program is the auction mechanism modelled here.

## Model

| member | source | states |
|---|---|---|
| DutchAuction.TerminalStatusIsFinal | programs/dutch-auction/src/lib.rs:111-114 | Along any run of status moves the handlers allow (`StatusStep`: place_bid's and cancel_auction's Active guard at 51 and 181, finalize's Active-or-Completed guard), a Finalized or Cancelled auction keeps that status for ever. |
| DutchAuction.CalculateCurrentPrice | programs/dutch-auction/src/lib.rs:195-226 | Gives the reserve price from the end time on, and the start price up to the start time. It fails only when the unchecked i64 duration or u64 price-range subtraction panics; its checked u128 multiply, checked divide and checked subtraction never fail. When reserve ≤ start, the result lies in [reserve, start]. |
| DutchAuction.LinearDecayWithinPrices | programs/dutch-auction/src/lib.rs:214-225 | The exact linear-decay schedule start − range·elapsed/duration always lies between the reserve and the start price. |
| DutchAuction.LinearDecayNonIncreasing | programs/dutch-auction/src/lib.rs:214-225 | The exact linear-decay schedule never rises as time advances. |
| DutchAuction.CurrentPriceIsLinearDecay | programs/dutch-auction/src/lib.rs:210-225 | For parameters an auction can hold, calculate_current_price succeeds and equals the exact linear-decay schedule. The u128 product, the `as u64` cast and the final `max` with the reserve change nothing. |
| DutchAuction.CurrentPriceNonIncreasing | programs/dutch-auction/src/lib.rs:202-225 | For fixed auction parameters, the price at a later time is never above the price at an earlier time. |
| DutchAuction.Refund | programs/dutch-auction/src/lib.rs:142-146 | The refund succeeds exactly when tokens·clearing ≤ total cost, and then refund + tokens·clearing = total cost. When it fails, the error is a panic if the unchecked product overflows u64, and `MathOverflow` if the checked subtraction goes negative. |
| DutchAuction.RefundOfWellPricedBid | programs/dutch-auction/src/lib.rs:142-149 | For a bid that escrowed tokens × its price, the refund succeeds exactly when the clearing price is at most that price (or the bid is for no tokens). The refund is then tokens × (price − clearing). |
| DutchAuction.EscrowBalances | programs/dutch-auction/src/lib.rs:142-146 | The funds raised by a list of well-priced bids equal the tokens sold at the clearing price plus the refunds owed at that price. |
| DutchAuction.RefundsWithinEscrow | programs/dutch-auction/src/lib.rs:142-168 | When the clearing price undercuts no bid, the refunds owed are non-negative and at most the funds raised. |
| DutchAuction.AfterBid | programs/dutch-auction/src/lib.rs:92-100 | A successful bid has these effects: tokens_remaining drops by the bid's tokens; total_raised rises by its cost; participant_count rises by one; the bid's price becomes current_price; the bid joins the bid list. From Active, the status becomes Completed exactly when no tokens remain. Every other field is unchanged. |
| DutchAuction.BidKeepsInvariant | programs/dutch-auction/src/lib.rs:51-100 | A bid at the scheduled price on an Active auction keeps the auction invariant. With a clock that does not run backwards, every earlier bid stays priced at or above the new current price. |
| DutchAuction.AfterFinalize | programs/dutch-auction/src/lib.rs:120-128 | Finalizing sets the status to Finalized. The clearing price is the reserve whenever tokens remain, and otherwise the last bid price. No other field changes. |
| DutchAuction.SettlementWithinRaised | programs/dutch-auction/src/lib.rs:120-146 | In a valid auction whose clearing price undercuts no bid, all the refunds owed together are within total_raised. |
| DutchAuction.Bid.constructor | programs/dutch-auction/src/lib.rs:83-90 | A new bid records the auction, bidder, tokens, price, cost and timestamp, with status Pending. |
| DutchAuction.Auction.Init | programs/dutch-auction/src/lib.rs:25-36 | A new auction has all tokens remaining, the start price as current price, status Active, nothing raised and no participants, and it satisfies the invariant. |
| DutchAuction.CreateAuction | programs/dutch-auction/src/lib.rs:11-40 | Fails with InvalidPricing unless start > reserve, then with InvalidDuration unless duration > 0, then panics if start time + duration overflows i64. Otherwise it succeeds and returns a fresh valid auction with end = start + duration and the initial fields. |
| DutchAuction.Auction.PlaceBid | programs/dutch-auction/src/lib.rs:43-104 | Fails, leaving the auction unchanged, in this order: AuctionNotActive, AuctionEnded, InsufficientTokens, MathOverflow when tokens·price overflows u64, a failed transfer, a panic on the unchecked counter additions. On success it returns a fresh Pending bid at the scheduled price and applies `AfterBid`. It keeps the invariant and allows only `StatusStep` moves. |
| DutchAuction.Auction.ApplyBid | programs/dutch-auction/src/lib.rs:83-100 | The account updates of place_bid leave the auction equal to `AfterBid` of the old state, and valid. |
| DutchAuction.Auction.FinalizeAuction | programs/dutch-auction/src/lib.rs:107-132 | Succeeds exactly when the status is Active or Completed and the auction has ended or sold out; otherwise it fails with InvalidAuctionStatus or AuctionNotEnded, changing nothing. On success the auction equals `AfterFinalize` of the old state. The clearing price then undercuts no bid if tokens remain, or if no bid was priced below the current price before. |
| DutchAuction.Auction.CancelAuction | programs/dutch-auction/src/lib.rs:178-188 | Succeeds exactly from Active with no participants, and sets Cancelled. Otherwise it fails with InvalidAuctionStatus or HasParticipants and keeps the status. |
| DutchAuction.ClaimTokens | programs/dutch-auction/src/lib.rs:135-175 | Fails with AuctionNotFinalized, then BidAlreadyProcessed, then with the `Refund` error, then on a failed transfer of a non-zero refund. On success it returns the refund and marks the bid Accepted; on failure the bid is unchanged. For a valid well-priced bid of this auction, when no bid of the auction is priced below the clearing price (true while the clock never runs backwards), settlement never overflows and the refund is tokens × (price − clearing). |
| DutchAuction.ClaimTwice | programs/dutch-auction/src/lib.rs:139-171 | Once a claim on a bid succeeds, a second claim on it fails with BidAlreadyProcessed. |
| CarbonCredits.Register | programs/carbon-credits/src/lib.rs:18-39 | Succeeds exactly when the bond is at least 1 000 000 000, and otherwise fails with InsufficientBond. The new account is unverified and Pending, with every CCT counter at zero, and satisfies the invariant. |
| CarbonCredits.Verify | programs/carbon-credits/src/lib.rs:42-52 | Succeeds exactly on an unverified account, and otherwise fails with AlreadyVerified. The account becomes verified and Compliant, and nothing else changes. |
| CarbonCredits.Deposit | programs/carbon-credits/src/lib.rs:55-77 | Fails with NotVerified on an unverified account, or on a failed transfer. It succeeds exactly when verified, the transfer succeeds and the bond does not overflow. The bond then rises by the amount and nothing else changes. |
| CarbonCredits.Purchase | programs/carbon-credits/src/lib.rs:80-110 | Fails with NotVerified on an unverified account, or on a failed mint. On success cct_balance and total_purchased each rise by the amount and no other field changes. |
| CarbonCredits.Burn | programs/carbon-credits/src/lib.rs:113-148 | Fails with NotVerified, then InsufficientCCT when the balance is below the amount, then on a failed burn. On success the balance drops and total_burned rises by the amount. The status is Compliant if the amount covers the emission amount and NonCompliant otherwise. Nothing else changes. |
| CarbonCredits.Withdraw | programs/carbon-credits/src/lib.rs:169-202 | Fails with NotCompliant, then InsufficientBond. It succeeds exactly when Compliant, the bond covers the amount and the transfer succeeds. The bond then drops by the amount and nothing else changes. |
| CarbonCredits.InvariantConsequences | programs/carbon-credits/src/lib.rs:105-137 | Under the account invariant, a purchase panics only when total_purchased would overflow. A burn never panics. Only a verified account can withdraw its bond. |
| CarbonCredits.ExecuteKeepsInvariant | programs/carbon-credits/src/lib.rs:31-137 | Every instruction on an industry account keeps the invariant: balance + burned = purchased, verified exactly when not Pending, never Warning. No instruction unverifies an account. |
| CarbonCredits.RunKeepsInvariant | programs/carbon-credits/src/lib.rs:31-137 | Any run of instructions keeps the invariant, so total_burned never exceeds total_purchased. |
| CarbonCredits.VerifiedIsPermanent | programs/carbon-credits/src/lib.rs:45-47 | A verified account stays verified along any run of instructions. |
| CarbonCredits.VerifySucceedsAtMostOnce | programs/carbon-credits/src/lib.rs:45-48 | Along any run, verify_industry succeeds at most once, and never on an account already verified. |
| CarbonCredits.IndustryAccount.VerifyIndustry | programs/carbon-credits/src/lib.rs:42-52 | The in-place handler succeeds exactly when `Verify` does, and leaves the account equal to its result. On failure it returns the same error and changes nothing. It keeps the invariant. |
| CarbonCredits.IndustryAccount.DepositBond | programs/carbon-credits/src/lib.rs:55-77 | The in-place handler agrees with `Deposit` on success, result and error, changes nothing on failure, and keeps the invariant. |
| CarbonCredits.IndustryAccount.PurchaseCct | programs/carbon-credits/src/lib.rs:80-110 | The in-place handler agrees with `Purchase` on success, result and error, changes nothing on failure, and keeps the invariant. |
| CarbonCredits.IndustryAccount.BurnCctForCompliance | programs/carbon-credits/src/lib.rs:113-148 | The in-place handler agrees with `Burn` on success, result and error, changes nothing on failure, and keeps the invariant. |
| CarbonCredits.IndustryAccount.WithdrawBond | programs/carbon-credits/src/lib.rs:169-202 | The in-place handler agrees with `Withdraw` on success, result and error, changes nothing on failure, and keeps the invariant. |
| CarbonCredits.RegisterIndustry | programs/carbon-credits/src/lib.rs:18-39 | Succeeds exactly when `Register` does, with the same error otherwise. It returns a fresh account that satisfies the invariant and holds `Register`'s fields. |
| CarbonCredits.EmissionReport.constructor | programs/carbon-credits/src/lib.rs:158-162 | A new report records the industry, the CO2 amount, the period and the time, and is unverified. |
| CarbonCredits.SubmitEmissionReport | programs/carbon-credits/src/lib.rs:151-166 | Returns a fresh unverified report with the given emission, period and submission time. It modifies no existing object, so the industry account is unchanged. |
| Waitlist.EmailFormatMatchesPattern | src/app/api/waitlists/route.ts:11-12 | The scanning check (no whitespace; one '@', not first; a '.' in the domain that is neither its first nor its last character) accepts exactly the strings the regular expression matches. |
| Waitlist.InvalidEmailTouchesNothing | src/app/api/waitlists/route.ts:9-14 | For a body that parses to a non-null JSON value, the answer is 400 exactly when the email is missing, empty or falsy, or does not match the pattern; the table is then neither read nor written. (A body that is not JSON, or is null, gets 500 instead; see `Waitlist.StatusPrecedence`.) |
| Waitlist.ListedEmailConflicts | src/app/api/waitlists/route.ts:17-27 | A valid email already listed gets 409 after one lookup, with no insert, no mail and the table unchanged. |
| Waitlist.NewEmailSubscribes | src/app/api/waitlists/route.ts:29-57 | A new valid email with no failing call gets 201, after exactly one lookup, one insert and one thank-you mail to that address, and the table grows by exactly that one entry. |
| Waitlist.MailFailureKeepsEntry | src/app/api/waitlists/route.ts:29-63 | When the mail fails after the insert, the answer is 500 but the new entry stays, since the insert is not rolled back. |
| Waitlist.SubmitTwice | src/app/api/waitlists/route.ts:17-32 | The same new valid email sent twice gets 201 then 409, and the second call leaves the table's size as the first left it. |
| Waitlist.StatusPrecedence | src/app/api/waitlists/route.ts:7-64 | The status codes follow a fixed precedence: 400 exactly for a rejected email in a parsed body; 409 exactly for a listed string email whose lookup succeeded; 201 exactly for a new string email when lookup, insert and mail all succeed; 500 in every other case, including a body that is not JSON or is null. |
| Waitlist.TableOnlyGrows | src/app/api/waitlists/route.ts:7-64 | Whatever the body and whatever fails, the table only grows, by at most the submitted string email, and only when the insert was called. |
| Waitlist.Store.Post | src/app/api/waitlists/route.ts:7-64 | The handler's answer, the table afterwards and the calls it makes, in order, are those of the decision sequence `Handle`. That sequence is: a body that is not JSON or is null gets 500; a rejected email gets 400; a non-string email that passes the test gets 500; then lookup, 409 if listed, insert, mail, 201, with a failure at any call giving 500. |

## Left out

- SPL token program calls (`token::transfer`, `token::mint_to`, `token::burn`) are a success flag per call. Token account balances, the escrow and the bond vault are not modelled.
- Anchor account constraints are not modelled: PDA seeds and address collisions, `init` and `init_if_needed`, `space` and `max_len`, signer checks. The handlers' own logic is modelled as written, including what it does not check:
  - claim_tokens does not check that the bid belongs to the auction, or that the signer is its bidder;
  - finalize_auction and cancel_auction do not check the signer against the auction's authority;
  - verify_industry does not check its admin signer.
- `msg!` logging, `declare_id!` and initialize_mint, whose handler only logs, are left out.
- A failing `Clock::get()` is not modelled. The clock reading is a parameter.
- BidStatus `Refunded` and ComplianceStatus `Warning` are declared but never set by the programs. The model keeps them as values only.
- The programs' Cargo build settings are not part of this model. Unchecked arithmetic is taken to panic (overflow checks on) rather than wrap.
- DutchAuction.Auction.PlaceBid: keeps "no bid priced below the current price" only when the clock reading is not earlier than the one the current price was computed at, because the program trusts the clock.
- DutchAuction.ClaimTokens: the no-overflow refund guarantee is stated only for a bid whose terms are among the auction's bids, because claim_tokens accepts any bid account, and only when no bid of the auction is priced below the clearing price. That second hypothesis holds while the clock never runs backwards. If a later bid is placed at an earlier clock reading, at a higher price, and sells out the auction, then the clearing price exceeds an earlier bid's price. That earlier bid's claim then fails with MathOverflow every time, and its escrow stays locked.
- register_industry records the bond amount without any transfer, and purchase_cct mints without any payment. The model records the same counters. Whether withdraw_bond can draw from other industries' deposits in the shared vault is outside it.
- `cct_balance` is a counter on the industry account. Its agreement with the real token account is not modelled.
- Concurrent requests to the waitlist route, and the check-then-insert race between them, are not modelled. A unique-constraint failure on insert is one of the insert faults.
- The count route (`src/app/api/count/route.ts`) only counts the table. It is not part of this model.
- The route's SMTP configuration, the mail body, the JSON message texts of the answers and `console.error` logging are left out. Only whether the send fails is modelled.
- JavaScript strings are UTF-16 code units; the model's are Unicode scalar values. The pattern test's verdict is the same for well-formed strings.
- A non-string email that passes the pattern test is taken to make the database client throw, giving 500, before any query. That client is not part of this model.
- The React pages and components, which run on mock data, are not part of this model.
