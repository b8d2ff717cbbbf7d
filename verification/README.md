# Intents: a verified model

A model in Dafny of the hard parts of the Intents contracts on NEAR, with proofs of what they are
for:

- **the escrow swap**: one maker sells a source token for a destination token at a fixed price. The
  fill arithmetic (prices, rounding, fees) is in `EscrowFill`, the protocol of calls and callbacks as
  a transition system in `Escrow`, when its calls succeed in `EscrowCalls`, its runs in `EscrowRuns`,
  `EscrowLock` and `EscrowBounce`, the transfers it makes in `EscrowTransfers`, its holdings in
  `EscrowSolvency`, and the contract as the object it is in `EscrowContract`;
- **the verifier** (`contracts/defuse`): signed batches. Replay protection over versioned and legacy
  nonces, garbage collection, salts and locks (`Replay`, `Revocation`, `Salts`, `VersionedNonce`,
  `BitMap256`), and money: deltas, closures, the transfer matcher, balances and supplies, refunds,
  locks (`TokenDiff`, `TransferMatcher`, `Ledger`, `LedgerConditions`, `Movements`, `Backing`, `Locks`,
  `Settlement`, `DefuseContract`, `Amounts`);
- **the wallet**: nonce windows, the SDK's nonce generator, on-chain requests through chains of
  extensions and off-chain authorizations under NEP-641 (`WalletNonces`, `ConcurrentNonces`,
  `WalletState`, `WalletRequest`, `WalletChain`, `WalletAuth`, `OffchainResolver`);
- **the libraries underneath**: decimals and their text form, pips, 128-bit multiply-divide, default
  entries of maps, bitmaps (`Decimal`, `DecimalText`, `Pips`, `Numbers`, `DefaultMap`, `BitMap`,
  `Bits`).

Each component has functions on values that say what an operation computes; theorems over all runs
are about these. Where the source updates fields in place there is a class whose methods are proved
against the functions, loops included. A call that fails is undone by the host: its class method
restores what it changed. Integers are unbounded, and widths, checked operations and saturations of the
source are written out, but for those named under "Left out".

What comes from outside is a parameter: the clock (`now`, never running backwards over a run of the
nonce windows), random numbers, the outcome of every promise and the order callbacks come back in,
signature verification, hash-derived salts, and the order a hash map is walked in. An escrow's
parameters stand for their hash.

Where the code and what is said about it differ, the model follows the code:

- The in-flight counter of an escrow is not always the number of callbacks still to come. A callback
  panics when the lost dst no longer fits 128 bits, and its decrement is undone with it.
  `EscrowBounce.CallbackCanFail` gives a family of runs, `Escrow.CallbackFailsIff` the exact condition, and
  `EscrowRuns.InFlightIsOutstanding` the bound under which it never happens.
- The verifier's refund callbacks unwrap. Those of deposits and transfers never fail
  (`Backing.RefundsFromBalancesNeverFail`). Those of withdrawals deposit the refund again and panic when
  its supply has no room left: `Backing.WithdrawRefundCanFail` gives a family of runs after which the
  withdrawn amount is on no balance, `Backing.WithdrawRefundFailsIff` the exact condition, and
  `Backing.WithdrawRefundSucceeds` a bound under which it does not happen.
- A comment on the wallet's old window says that it holds the nonces accepted from two timeouts up to
  one timeout ago. What it holds is counted from the last rotation, not from now:
  `WalletNonces.OldWithinIff` gives exactly the ages it covers after a clean-up, as a condition on how
  long ago the rotation was. By `WalletNonces.DocumentedWindow` the documented start is right exactly
  when the rotation is now, the documented end exactly when it is a timeout ago, and three timeouts
  always bound it.

## Model

| member | source | states |
|---|---|---|
| `Numbers.MulDivFloor` | crates/num-utils/src/mul_div.rs:15-21 | the quotient is bracketed by the product, and missing exactly for a zero divisor or a quotient over 128 bits |
| `Numbers.MulDivCeil` | crates/num-utils/src/mul_div.rs:24-33 | the least number covering the exact quotient, missing exactly for a zero divisor or when it does not fit |
| `Numbers.MulDivCeilSigned` | crates/num-utils/src/mul_div.rs:24-33 | the same for signed amounts and divisors of either sign, missing exactly for a zero divisor or when it does not fit |
| `Numbers.MulDivEuclidSigned` | crates/num-utils/src/mul_div.rs:36-45 | the only quotient of the exact product that leaves a remainder from zero to below the divisor, missing only for a zero divisor or when it does not fit |
| `Numbers.ProductFitsDoubleWidth` | crates/num-utils/src/mul_div.rs:53-62 | no product of two 128-bit numbers, signed or not, overflows the 256-bit intermediate |
| `Pips.FeeCeil` | crates/primitives/fees/src/lib.rs:117-121 | the least fee covering the exact share, at most the amount, zero exactly for a zero rate or amount; the unreachable branch is not reached |
| `Pips.FeeIsComplement` | crates/primitives/fees/src/lib.rs:105-121 | minus an amount plus its fee is the rounded-up share under the inverted rate |
| `Decimal.New` | crates/primitives/decimal/src/lib.rs:38-66 | the loops that strip zeros give the canonical decimal of the value, and fail exactly when there is none |
| `Decimal.Strip` | crates/primitives/decimal/src/lib.rs:38-66 | one loop strips a power of ten as often as it divides, keeping the value's lowest terms |
| `Decimal.NormalizedIsExact` | crates/primitives/decimal/src/lib.rs:38-66 | normalising keeps the value, gives a canonical decimal, and fails only where no canonical decimal has the value |
| `Decimal.ReduceSkips` | crates/primitives/decimal/src/lib.rs:47-63 | stripping several zeros at once reaches the same lowest terms as one at a time |
| `Decimal.LowestTermsUnique` | crates/primitives/decimal/src/lib.rs:24-25 | two decimals in lowest terms of the same value are identical, so derived equality is equality of value |
| `Decimal.CmpIsRationalOrder` | crates/primitives/decimal/src/ops.rs:10-26 | the comparison, overflow branch included, is the order of the rationals |
| `Decimal.CmpEqualIsIdentity` | crates/primitives/decimal/src/ops.rs:10-33 | canonical decimals compare equal exactly when they are identical |
| `Decimal.CmpTransitive` | crates/primitives/decimal/src/ops.rs:10-33 | the comparison is transitive |
| `Decimal.TimesFloor` | crates/primitives/decimal/src/ops.rs:35-40 | amount times price rounded down, missing exactly on overflow |
| `Decimal.TimesCeil` | crates/primitives/decimal/src/ops.rs:42-44 | amount times price rounded up, missing exactly on overflow |
| `Decimal.OverFloor` | crates/primitives/decimal/src/ops.rs:56-60 | the most the amount can buy at the price, missing exactly for a zero price or on overflow |
| `DecimalText.ParseExact` | crates/primitives/decimal/src/str.rs:33-80 | a spelling parses to a decimal exactly when that is the canonical decimal of the spelled value, and to nothing when there is none |
| `DecimalText.ParseOnlySpelled` | crates/primitives/decimal/src/str.rs:33-80 | only strings of the grammar parse |
| `DecimalText.PrintParseRoundTrip` | crates/primitives/decimal/src/str.rs:16-80 | printing any canonical decimal and parsing it back gives the decimal |
| `EscrowFill.CollectFees` | contracts/escrow-swap/src/contract/fill.rs:150-183 | the non-zero fees are sent in order, what is left is the start less all fees, and it fails exactly when they exceed the start |
| `EscrowFill.SwapBounds` | contracts/escrow-swap/src/contract/fill.rs:127-148 | the swap stays within both amounts and covers the taker's price; the second rounding never overflows |
| `EscrowFill.SwapOptimal` | contracts/escrow-swap/src/contract/fill.rs:127-148 | no more src is affordable, and for a full fill no smaller payment covers it |
| `EscrowFill.SwapSucceedsIff` | contracts/escrow-swap/src/contract/fill.rs:127-148 | exactly when the swap goes through, as a condition on its inputs |
| `EscrowFill.AddRatesIsSum` | contracts/escrow-swap/src/state.rs:161-170 | the checked total of the rates is their sum, missing exactly above 100% |
| `EscrowFill.ValidateIff` | contracts/escrow-swap/src/state.rs:173-200 | parameters pass exactly if the tokens differ, the price is not zero, and all base rates together are at most a quarter |
| `EscrowFill.IntegratorFeesBound` | contracts/escrow-swap/src/contract/fill.rs:50-54 | the integrators' fees exceed their exact share by less than one unit per charging collector |
| `EscrowFill.ProtocolFeeTotal` | contracts/escrow-swap/src/contract/fill.rs:186-206 | once the payment covers the maker's price, the protocol fee cannot fail, the subtraction does not clip, and the surplus fee is the rounded-up share of exactly the surplus |
| `EscrowFill.CoversMakerPrice` | contracts/escrow-swap/src/contract/fill.rs:29-37 | a payment that covers the taker's price covers the maker's |
| `EscrowFill.FillGuarantees` | contracts/escrow-swap/src/contract/fill.rs:19-125 | a fill stays within both amounts, is at the maker's price or better, gives the maker something, is the taker's swap, and splits the payment exactly |
| `EscrowFill.FillCharges` | contracts/escrow-swap/src/contract/fill.rs:45-89 | who is charged for a fill and how much: the protocol its rates of the payment and of the surplus over the maker's price, every integrator its rate of the payment, rounded up |
| `EscrowFill.FillSucceedsIff` | contracts/escrow-swap/src/contract/fill.rs:19-125 | exactly when a fill succeeds |
| `EscrowFill.SplitSucceedsIff` | contracts/escrow-swap/src/contract/fill.rs:45-89 | given the maker's price is covered, the split fails exactly when the fees leave nothing |
| `EscrowFill.BaseFeesBound` | contracts/escrow-swap/src/state.rs:153-200 | under validated parameters the base fees on any payment are at most a quarter of it and one unit per charging collector |
| `EscrowFill.MakerShare` | contracts/escrow-swap/src/state.rs:153-200 | under validated parameters the maker gets the price less a quarter of the payment and one unit per charging collector |
| `Escrow.ResolveUsed` | contracts/escrow-swap/src/contract/tokens/mod.rs:158-192 | for every promise result, exactly when less than everything counts as used, and when a part does and which |
| `Escrow.ResolveRefund` | contracts/escrow-swap/src/contract/tokens/mod.rs:153-155 | the refund for every kind of transfer and result: none for a failed call, all or nothing for a plain transfer, the missing part of a call's amount, all of a call without a readable amount |
| `Escrow.CleanupKeepsInv` | contracts/escrow-swap/src/contract/cleanup.rs:45-110 | closing an expired escrow and deleting it keep the invariant |
| `Escrow.LostFoundKeepsInv` | contracts/escrow-swap/src/contract/lost_found.rs:28-70 | taking both amounts out and registering their callback keeps the invariant |
| `Escrow.ReceiveKeepsInv` | contracts/escrow-swap/src/contract/tokens/mod.rs:22-65 | funding and filling keep the invariant |
| `EscrowCalls.ReceiveIff` | contracts/escrow-swap/src/contract/tokens/mod.rs:22-65 | a transfer is accepted exactly if it is not empty, is for these parameters, comes in time, and funds in src or fills in dst under the conditions of a fill; what it adds, takes out and sends |
| `EscrowCalls.CloseIff` | contracts/escrow-swap/src/contract/close.rs:27-51 | closing succeeds exactly for anyone past the deadline, for the maker once nothing is left, and for the only whitelisted taker; everything is given back to the receivers the maker chose |
| `EscrowCalls.LostFoundIff` | contracts/escrow-swap/src/contract/lost_found.rs:28-70 | claiming succeeds for anyone with room for a callback, gives back the lost dst and, of a closed escrow only, the src |
| `EscrowCalls.CleanupIff` | contracts/escrow-swap/src/contract/cleanup.rs:45-110 | an escrow is deleted exactly if it is past its deadline, owes nothing and awaits nothing, and otherwise closed exactly if it was or is past it |
| `EscrowCalls.ResolveIff` | contracts/escrow-swap/src/contract/resolve.rs:41-78 | a callback is accepted exactly if one is awaited and what came back fits; what its own results say came back is owed again, as remaining src and as lost dst |
| `Escrow.InvokeKeepsInv` | contracts/escrow-swap/src/contract/mod.rs:25-41 | every call by anyone at any time keeps the invariant |
| `Escrow.DeliverKeepsInv` | contracts/escrow-swap/src/contract/resolve.rs:25-78 | every callback, in any order and with any results, keeps the invariant, whether it succeeds or panics |
| `Escrow.StepKeepsInv` | contracts/escrow-swap/src/contract/cleanup.rs:14-110 | every step of an escrow keeps the invariant |
| `EscrowRuns.ReachableInv` | contracts/escrow-swap/src/state.rs:51-66 | the invariant holds in every reachable escrow |
| `EscrowRuns.Conservation` | contracts/escrow-swap/src/contract/lost_found.rs:28-70 | for every interleaving of calls and callbacks both tokens are accounted for to the unit, and a deleted escrow owes nothing |
| `Escrow.CallbackFailsIff` | contracts/escrow-swap/src/contract/resolve.rs:41-78 | a pending callback always finds the escrow alive and registered, and fails exactly when the lost dst no longer fits 128 bits |
| `EscrowRuns.InFlightIsOutstanding` | contracts/escrow-swap/src/contract/cleanup.rs:67-85 | the counter is the callbacks to come plus those that failed, none fails while all dst due fits 128 bits, and every callback reads the results of its own transfers, each as the kind of transfer it was, which go to the receivers the maker chose |
| `EscrowBounce.CallbackCanFail` | contracts/escrow-swap/src/contract/resolve.rs:53-78 | two returned payments above half the range leave the counter at one with nothing outstanding |
| `EscrowRuns.FailedOnlyGrows` | contracts/escrow-swap/src/contract/cleanup.rs:67-85 | a failed callback is never made up for |
| `EscrowRuns.FailedCallbackBlocksDeletion` | contracts/escrow-swap/src/contract/cleanup.rs:99-110 | an escrow one of whose callbacks failed is never deleted |
| `EscrowRuns.DeletedStaysDeleted` | contracts/escrow-swap/src/contract/cleanup.rs:21-56 | after deletion every call and callback changes nothing |
| `EscrowRuns.CloseRoundDeletes` | contracts/escrow-swap/src/contract/close.rs:27-51 | past the deadline with nothing outstanding, one close by anyone and one callback reporting delivery end in deletion |
| `EscrowLock.MakerCannotTakeBack` | contracts/escrow-swap/src/contract/close.rs:27-51 | over every run up to the deadline without a close by the only whitelisted taker, everything funded is still there or was paid to takers |
| `EscrowLock.StepKeepsLocked` | contracts/escrow-swap/src/contract/close.rs:27-51 | the step of that theorem: closing before the deadline is possible for the maker only once nothing is left |
| `EscrowTransfers.FillSendsEverything` | contracts/escrow-swap/src/contract/fill.rs:87-124 | the transfers of a fill carry exactly the payment in dst, the src bought, and no other token |
| `EscrowTransfers.FillPays` | contracts/escrow-swap/src/contract/fill.rs:87-124 | how much of each token every account gets from a fill: the taker or whom it chose the src, the maker or whom it chose its share, every collector its fees |
| `EscrowTransfers.RefundPays` | contracts/escrow-swap/src/contract/lost_found.rs:28-70 | of what is given back every account gets exactly what the maker chose for it, and the maker what no one was chosen for |
| `EscrowSolvency.OperateMoves` | contracts/escrow-swap/src/contract/lost_found.rs:28-70 | every call changes what is owed of each token by exactly what the caller sent of that token less the change, and by what goes out |
| `EscrowSolvency.BackCoversRefunds` | contracts/escrow-swap/src/contract/resolve.rs:53-78 | a callback records no more of either token than has come back, if the token contracts keep their word |
| `EscrowSolvency.AlwaysSolvent` | contracts/escrow-swap/src/contract/resolve.rs:41-78 | over every run on which the dst due fits 128 bits, with what callers sent of each token counted by the token they sent, the escrow holds what it owes of both tokens and beyond that exactly what came back unrecorded |
| `EscrowContract.Account.constructor` | contracts/escrow-swap/src/state.rs:51-66 | a new escrow is open, empty and has nothing in flight |
| `EscrowContract.Account.Register` | contracts/escrow-swap/src/contract/cleanup.rs:69-76 | counts one callback, or refuses at the top of its range |
| `EscrowContract.Account.MaybeCleanup` | contracts/escrow-swap/src/contract/cleanup.rs:45-110 | updates the fields as the clean-up of the transition system |
| `EscrowContract.Account.TakeLostFound` | contracts/escrow-swap/src/contract/lost_found.rs:28-70 | the take-then-register sequence has the effect and callback of the transition system |
| `EscrowContract.Account.Receive` | contracts/escrow-swap/src/contract/tokens/mod.rs:42-65 | the checks in source order, then fund or fill, as the transition system |
| `EscrowContract.Account.Fill` | contracts/escrow-swap/src/contract/fill.rs:19-125 | the in-place fill computes the specified fill and takes exactly its src out |
| `EscrowContract.Account.Split` | contracts/escrow-swap/src/contract/fill.rs:45-89 | collecting fees one by one gives the specified split and error |
| `EscrowContract.Account.Execute` | contracts/escrow-swap/src/contract/mod.rs:25-41 | each entry point steps as the transition system, and a failed call leaves everything as it was |
| `EscrowContract.Account.ResolveTransfers` | contracts/escrow-swap/src/contract/resolve.rs:11-78 | the loop over what was sent pairs each amount with its own result and agrees with the transition system, failure included |
| `DefaultMap.Put` | crates/map-utils/src/cleanup.rs:178-275 | writing through an entry changes that key only, and keeps no default |
| `DefaultMap.SameValuesSameMap` | crates/map-utils/src/cleanup.rs:13-44 | two maps without defaults that read the same are the same |
| `DefaultMap.PutSame` | crates/map-utils/src/cleanup.rs:200-275 | writing a value back leaves the map as it was exactly when no default was stored there |
| `DefaultMap.Entry.constructor` | crates/map-utils/src/cleanup.rs:34-44 | the entry reads the stored value or the default |
| `DefaultMap.Entry.Assign` | crates/map-utils/src/cleanup.rs:117-129 | sets the entry's value and nothing else |
| `DefaultMap.Entry.Drop` | crates/map-utils/src/cleanup.rs:200-275 | dropping the entry stores its value, or removes the key for a default, and leaves the other keys alone |
| `BitMap.MembersHas` | crates/bitmap/src/lib.rs:48-54 | the numbers in a bitmap are those whose bit is set |
| `BitMap.WithBitHas` | crates/bitmap/src/lib.rs:69-94 | setting or clearing a number changes that number only |
| `BitMap.WithBitMembers` | crates/bitmap/src/lib.rs:69-94 | as sets, the bitmap gains or loses exactly that number |
| `BitMap.SameMembersSameMap` | crates/bitmap/src/lib.rs:172-175 | bitmaps without empty words that hold the same numbers are equal |
| `BitMap.BitMap.constructor` | crates/bitmap/src/lib.rs:30-32 | a new bitmap is empty |
| `BitMap.BitMap.GetBit` | crates/bitmap/src/lib.rs:48-54 | tells whether the number is in the set |
| `BitMap.BitMap.SetBit` | crates/bitmap/src/lib.rs:69-74 | adds the number and returns whether it was there |
| `BitMap.BitMap.ClearBit` | crates/bitmap/src/lib.rs:89-94 | removes the number and returns whether it was there |
| `BitMap.BitMap.ToggleBit` | crates/bitmap/src/lib.rs:110-115 | flips the number and returns whether it was there |
| `BitMap.BitMap.Update` | crates/bitmap/src/lib.rs:172-188 | one masked write through an entry has the effect of its operation on the set and drops empty words |
| `BitMap.BitMap.AsIter` | crates/bitmap/src/lib.rs:156-169 | over an ordered map, lists every number of the set once, in ascending order |
| `VersionedNonce.EncodeDecode` | contracts/defuse/core/src/nonce/versioned.rs:21-43 | every versioned nonce encodes to 32 bytes that decode to it |
| `VersionedNonce.DecodeEncode` | contracts/defuse/core/src/nonce/versioned.rs:21-43 | a nonce that decodes is the encoding of what it decodes to, so no two nonces share a reading |
| `VersionedNonce.IntoNonce` | contracts/defuse/core/src/nonce/versioned.rs:31-43 | writing the fields into the buffer gives the encoding |
| `VersionedNonce.PrefixSharesFields` | contracts/defuse/core/src/nonce/versioned.rs:11-43 | nonces with the same 31-byte prefix are versioned together and share salt and deadline |
| `BitMap256.WithBitHas` | crates/bitmap/src/b256.rs:55-69 | setting or clearing a nonce changes that nonce only |
| `BitMap256.WithoutPrefixHas` | crates/bitmap/src/b256.rs:49-51 | dropping a prefix removes its 256 nonces and no others |
| `BitMap256.BitMap256.GetBit` | crates/bitmap/src/b256.rs:29-37 | tells whether the nonce is in the set |
| `BitMap256.BitMap256.ByteOf` | crates/bitmap/src/b256.rs:40-46 | the byte and the one-bit mask that hold the nonce, in a row created when it was missing |
| `BitMap256.BitMap256.SetBit` | crates/bitmap/src/b256.rs:55-60 | adds the nonce and returns whether it was there |
| `BitMap256.BitMap256.ClearBit` | crates/bitmap/src/b256.rs:64-69 | removes the nonce and returns whether it was there |
| `BitMap256.BitMap256.ToggleBit` | crates/bitmap/src/b256.rs:73-78 | flips the nonce and returns whether it was there |
| `BitMap256.BitMap256.CleanupByPrefix` | crates/bitmap/src/b256.rs:49-51 | erases the prefix and returns whether it was stored |
| `BitMap256.AccountNonces.Commit` | contracts/defuse/src/contract/accounts/account/nonces.rs:46-58 | refused exactly for a nonce used in either layout, otherwise exactly that nonce becomes used |
| `BitMap256.AccountNonces.CleanupByPrefix` | contracts/defuse/src/contract/accounts/account/nonces.rs:70-72 | erases from the new layout only |
| `Salts.DeriveNext` | contracts/defuse/src/contract/state/salt_registry.rs:48-53 | a derived salt that was never issued, or nothing when all were |
| `Salts.DeriveNextIsFirst` | contracts/defuse/src/contract/state/salt_registry.rs:48-53 | it is the first unissued one in order of derivation |
| `Salts.SetNewFollows` | contracts/defuse/src/contract/state/salt_registry.rs:57-64 | rotation keeps every issued salt, the old current one valid, revives no revoked one, and makes an unissued one current |
| `Salts.InvalidateRevokes` | contracts/defuse/src/contract/state/salt_registry.rs:68-77 | invalidation succeeds exactly for issued salts, given a replacement for the current one, revokes the salt, revives none, leaves every other valid salt valid, and replaces only a current one |
| `Salts.InvalidateAllFollows` | contracts/defuse/src/contract/salts.rs:32-50 | a list of invalidations keeps every issued salt and revives none |
| `Salts.InvalidateAllRevokes` | contracts/defuse/src/contract/salts.rs:32-50 | every issued salt of a list is revoked, the current one too unless no unissued salt can be derived, and every valid salt not listed stays valid |
| `Salts.RunFollows` | contracts/defuse/src/contract/salts.rs:12-59 | over every run, issued salts stay issued, and a revoked one is never valid again |
| `Salts.NeverIssuedAgain` | contracts/defuse/src/contract/state/salt_registry.rs:48-92 | once a run has moved on from a current salt, it never becomes current again |
| `Salts.SaltRegistry.DeriveNextSalt` | contracts/defuse/src/contract/state/salt_registry.rs:48-53 | the search loop returns the first unissued salt |
| `Salts.SaltRegistry.SetNewSalt` | contracts/defuse/src/contract/state/salt_registry.rs:57-64 | rotates as specified, or fails unchanged |
| `Salts.SaltRegistry.InvalidateSalt` | contracts/defuse/src/contract/state/salt_registry.rs:68-77 | invalidates as specified, or fails unchanged |
| `Salts.SaltRegistry.InvalidateSalts` | contracts/defuse/src/contract/salts.rs:32-50 | the loop invalidates as specified, reports exactly the issued salts of the list, the current one too unless no unissued salt can be derived, leaves every valid salt not listed valid, and returns the current salt |
| `Replay.SpentIsRefused` | contracts/defuse/core/src/engine/mod.rs:42-111 | a payload whose nonce is recorded, expired or of a revoked salt is refused |
| `Replay.ExecuteOneIff` | contracts/defuse/core/src/engine/mod.rs:42-111 | a payload is executed exactly if its signature is valid, by a key of a signer that is not locked, for this contract and in time, its nonce is not used, of a valid salt and with a deadline neither past nor before the payload's, and its intents succeed; then exactly that nonce is added |
| `Replay.ExecuteAllIff` | contracts/defuse/src/contract/intents/mod.rs:27-42 | a batch is executed exactly if its deltas match, every payload is admissible where it starts and no nonce is in it twice; then exactly its nonces become used |
| `Replay.ExecutedWasAdmissible` | contracts/defuse/core/src/engine/mod.rs:32-111 | over every run, whatever was executed came from a payload that met all these conditions when it was executed |
| `Replay.CleanupOneUsed` | contracts/defuse/src/contract/garbage_collector.rs:30-43 | a nonce erases exactly the nonces of that account that share its prefix, if it can be cleaned up, and none of the older layout |
| `Replay.CleanupAllUsed` | contracts/defuse/src/contract/garbage_collector.rs:13-27 | exactly what a garbage collection erases, as a condition on the state before it |
| `Replay.CommitKeepsUsed` | contracts/defuse/src/contract/intents/state.rs:124-130 | committing a nonce makes exactly that account's nonce used |
| `Replay.CleanupKeepsSpent` | contracts/defuse/src/contract/garbage_collector.rs:13-43 | garbage collection may forget nonces, but never one that could execute again |
| `Replay.CleanableIff` | contracts/defuse/src/contract/garbage_collector.rs:30-43 | a nonce can be cleaned up exactly if no payload with it passes the checks of nonces any more |
| `Replay.ExecuteOneKeepsInv` | contracts/defuse/core/src/engine/mod.rs:42-83 | executing a payload keeps every executed nonce spent and repeats none |
| `Replay.StepKeepsInv` | contracts/defuse/src/contract/intents/mod.rs:25-42 | every event keeps the invariant |
| `Replay.AtMostOnce` | contracts/defuse/core/src/engine/mod.rs:32-111 | over every run of batches, garbage collection, salts, locks and time, no account's nonce executes twice |
| `Replay.LegacyNeverErased` | contracts/defuse/src/contract/garbage_collector.rs:30-43 | a used nonce without a version or of the older layout stays used through every run, whenever it was recorded |
| `Replay.ExecutedLegacyIsRecorded` | contracts/defuse/src/contract/garbage_collector.rs:30-43 | every executed nonce without a version is recorded at the end of every run |
| `Revocation.LockSets` | contracts/defuse/src/contract/accounts/force.rs:22-52 | locking and unlocking set the lock of one account and nothing else |
| `Revocation.SaltsAndTime` | contracts/defuse/src/contract/salts.rs:12-59 | rotating and invalidating salts touch no nonce and no account, and neither does the passing of time |
| `Revocation.DeadIsNeverExecuted` | contracts/defuse/core/src/engine/mod.rs:85-111 | over every run no nonce that has expired or is of a revoked salt is executed, whatever is signed |
| `Revocation.LockedExecutesNothing` | contracts/defuse/src/accounts.rs:53-66 | over every run that does not unlock it, nothing is executed for a locked account |
| `Revocation.RevokingEndsNonces` | contracts/defuse/src/contract/salts.rs:32-50 | after salts were invalidated no run executes a nonce of one of them, unless it is still the current salt |
| `Replay.Contract.ExecuteIntents` | contracts/defuse/src/contract/intents/mod.rs:27-42 | the loop over the payloads executes the batch as specified or leaves the state as it was |
| `Replay.Contract.CleanupNonces` | contracts/defuse/src/contract/garbage_collector.rs:13-27 | the nested loops collect as specified |
| `WalletNonces.CleanupForgets` | contracts/wallet/src/nonces.rs:137-153 | exactly which stored nonces a clean-up keeps, which of them as current, and when it rotates |
| `WalletNonces.CommitIff` | contracts/wallet/src/nonces.rs:114-133 | a nonce is accepted exactly if its message is not from the future, not older than its own timeout nor the wallet's, and the nonce is not in the windows; which error it is otherwise |
| `WalletNonces.CommitRecords` | contracts/wallet/src/nonces.rs:114-133 | exactly the accepted nonce is recorded, beyond what a clean-up leaves |
| `WalletNonces.AcceptedInTime` | contracts/wallet/src/nonces.rs:114-133 | over every run every message is accepted after it was created and within its own timeout and the wallet's |
| `WalletNonces.CleanupKeepsInv` | contracts/wallet/src/nonces.rs:137-153 | rotating keeps every nonce that could still be replayed |
| `WalletNonces.CommitKeepsInv` | contracts/wallet/src/nonces.rs:114-133 | recording a nonce keeps the invariant |
| `WalletNonces.RunKeepsInv` | contracts/wallet/src/nonces.rs:80-153 | the invariant holds over every run |
| `WalletNonces.NoMessageTwice` | contracts/wallet/src/nonces.rs:91-153 | over every run no message is accepted twice, and a nonce is accepted again only more than a timeout later, for a newer message |
| `WalletNonces.Retention` | contracts/wallet/src/nonces.rs:68-71 | after every run a current nonce was accepted since the last rotation and an old one in the two timeouts before it |
| `WalletNonces.RetentionFromNow` | contracts/wallet/src/nonces.rs:68-71 | right after a clean-up the rotation is at most a timeout ago, so current nonces are of the last timeout and old ones of the last three |
| `WalletNonces.RetentionIsTight` | contracts/wallet/src/nonces.rs:68-71 | for every timeout, nonce and age of the rotation, a run that keeps a nonce for two timeouts and that age |
| `WalletNonces.RecentCanBeOld` | contracts/wallet/src/nonces.rs:68-71 | and one that makes a nonce old which was accepted in the last nanosecond before the rotation |
| `WalletNonces.OldWithinIff` | contracts/wallet/src/nonces.rs:68-153 | which interval of ages holds for every old nonce after every clean-up, as an exact condition on the age of the last rotation |
| `WalletNonces.DocumentedWindow` | contracts/wallet/src/nonces.rs:68-71 | when either end of the documented window is right, and that both never are |
| `WalletNonces.Nonces.constructor` | contracts/wallet/src/nonces.rs:82-89 | a new store is empty |
| `WalletNonces.Nonces.CheckCleanupAt` | contracts/wallet/src/nonces.rs:137-153 | rotates in place as specified |
| `WalletNonces.Nonces.CommitAt` | contracts/wallet/src/nonces.rs:114-133 | rotates, then accepts or refuses in place as specified |
| `ConcurrentNonces.CountOn` | crates/wallet/sdk/src/nonces.rs:44-59 | nonces count on by one within a block and start anew at each boundary |
| `ConcurrentNonces.WrapKeepsPosition` | crates/wallet/sdk/src/nonces.rs:44-59 | the wrapping increment keeps the position in the block, at the end of the range too |
| `ConcurrentNonces.Generator.Next` | crates/wallet/sdk/src/nonces.rs:44-59 | the k-th call returns the block's draw plus k modulo 32 |
| `ConcurrentNonces.ConsecutiveDistinct` | crates/wallet/sdk/src/nonces.rs:26-59 | any 32 consecutive nonces are distinct, across boundaries too |
| `ConcurrentNonces.CommittedWords` | crates/wallet/sdk/src/nonces.rs:26-59 | the words written are those of the blocks drawn |
| `ConcurrentNonces.StorageBound` | crates/wallet/sdk/src/nonces.rs:10-59 | n nonces take at most n/32 words of the wallet's bitmap, rounded up |
| `OffchainResolver.ResolveAuth` | crates/signatures/nep641/src/resolver/mod.rs:163-252 | whatever the order of completion, a payload is returned exactly when the recursive rule accepts it within both limits |
| `OffchainResolver.ChildrenStandForPending` | crates/signatures/nep641/src/lib.rs:32-41 | queuing a node's pending list with the node put in front of the path is as good as the list itself |
| `OffchainResolver.ResolvedNode` | crates/signatures/nep641/src/resolver/mod.rs:201-252 | a resolved node is accepted exactly when its pending list is, within the depth limit |
| `OffchainResolver.PoolWithout` | crates/signatures/nep641/src/resolver/mod.rs:201-252 | taking any task out of the pool splits off its acceptance and its count |
| `OffchainResolver.Enqueue` | crates/signatures/nep641/src/resolver/mod.rs:201-252 | adding a node's tasks to the pool keeps what is still to be decided |
| `OffchainResolver.Complete` | crates/signatures/nep641/src/resolver/mod.rs:201-252 | completing any task of the pool keeps what is still to be decided |
| `WalletAuth.AcceptedIff` | contracts/wallet/src/contract.rs:351-408 | an authorization is accepted exactly when it unwraps, through enabled extensions within the depth limit, to a good signature whose path is that chain |
| `WalletAuth.PathEndsAtTop` | crates/signatures/nep641/src/lib.rs:32-41 | the path seen by the signer is the chain backwards and ends where resolution started |
| `WalletAuth.AcceptedMeansSigned` | crates/signatures/nep641/src/message.rs:185-190 | an accepted authorization was signed for the account it is accepted at, with the chain in its path |
| `WalletAuth.WrapOffchainMsg` | crates/wallet/sdk/src/lib.rs:734-747 | the fold wraps one layer for every account of the chain but the last |
| `WalletAuth.SignedResolves` | crates/wallet/sdk/src/lib.rs:681-747 | a good signature wrapped for a chain is accepted at its end exactly when the chain is enabled and within the depth limit |
| `WalletAuth.LastEnabled` | contracts/wallet/src/contract.rs:290-295 | a chain is enabled exactly when its last hop and the rest are |
| `WalletAuth.OuterLayer` | contracts/wallet/src/message.rs:270-276 | the outermost layer is accepted exactly when the extension is enabled and the rest is accepted there |
| `WalletAuth.SdkMessageResolves` | crates/wallet/sdk/src/lib.rs:681-747 | the message the SDK builds and has signed is accepted for its payload, from any starting path, exactly when the wallet may sign, its time has come, the chain is enabled and within the depth limit |
| `WalletAuth.SignAndResolve` | crates/wallet/sdk/src/lib.rs:681-747 | the SDK and the resolver together return the signed payload |
| `WalletAuth.WrapCount` | crates/wallet/sdk/src/lib.rs:734-747 | a wrapped authorization has at most one sub-authorization for each account of the chain |
| `WalletRequest.OpPassesLockoutCheck` | contracts/wallet/src/contract.rs:236-303 | after any operation that succeeds the wallet passes the lock-out check, however it was deployed |
| `WalletRequest.OpIs` | contracts/wallet/src/contract.rs:236-303 | when each operation succeeds, and that it changes the signature mode or the one extension it names and nothing else |
| `WalletRequest.OpsAre` | contracts/wallet/src/contract.rs:224-234 | what a list of operations that succeeds leaves behind: the last mode set, and of each extension the last thing done to it |
| `WalletRequest.PromisesIff` | contracts/wallet/src/contract.rs:305-329 | the promises of a request are refused exactly if one of them is for the wallet itself or has an unsupported action |
| `WalletRequest.SignedIff` | contracts/wallet/src/contract.rs:169-206 | a signed request is executed exactly if signatures are allowed, it is for this wallet and chain, in time, not seen, verifies and can be carried out; what it then changes |
| `WalletRequest.ExtensionIff` | contracts/wallet/src/contract.rs:208-222 | a request by another account is executed exactly if a deposit comes with it, the account is an enabled extension and the request can be carried out; what it then changes |
| `WalletRequest.StepIff` | contracts/wallet/src/contract.rs:165-222 | a call that can be executed at its time is, with exactly these changes, and any other changes nothing |
| `WalletRequest.OpsPassLockoutCheck` | contracts/wallet/src/contract.rs:224-234 | so it does after any request with operations, and one without leaves the access as it was |
| `WalletChain.WrapRequestMsg` | crates/wallet/sdk/src/lib.rs:616-643 | the fold nests the request once for every account of the chain |
| `WalletChain.OneHop` | contracts/wallet/src/contract.rs:208-222 | one hop succeeds exactly if the sender is an extension of the next account and what it carries passes there; no other wallet changes |
| `WalletChain.WrappedArrivesIff` | contracts/wallet/src/contract.rs:208-329 | a wrapped request, executed at every hop as a request by an extension, gets through exactly when each account is an extension of the next and the request passes at the last; it is executed there and changes no other access |
| `WalletChain.SdkWallet.AsExtensionOf` | crates/wallet/sdk/src/lib.rs:350-361 | extends the chain, refusing exactly an account that is on it already |
| `WalletChain.SdkWallet.ChainArrives` | crates/wallet/sdk/src/lib.rs:350-361 | on a chain built this way no hop is refused as a self-call: with each account an extension of the next, the request arrives exactly if it passes at the last |
| `WalletRequest.StepKeepsInv` | contracts/wallet/src/contract.rs:169-222 | every call keeps the nonce store in step with the messages executed, for every wallet |
| `WalletRequest.StepPassesLockoutCheck` | contracts/wallet/src/contract.rs:169-222 | every call leaves the access as it was or passing the lock-out check |
| `WalletRequest.StepNeedsAuthority` | contracts/wallet/src/contract.rs:169-222 | a call that changes the access or executes a message is a signed request that verifies or a request by an enabled extension |
| `WalletRequest.EveryChangeAuthorized` | contracts/wallet/src/contract.rs:165-222 | over every run, whoever changed the access could act for the wallet just before |
| `WalletRequest.ExecutedWasSigned` | contracts/wallet/src/contract.rs:169-206 | over every run, every executed message came with a proof that verifies, for this wallet and this chain |
| `WalletRequest.ExecutedInTime` | contracts/wallet/src/nonces.rs:114-133 | over every run of a new wallet every signed message is executed within its own timeout |
| `WalletRequest.NoReplayNoLockout` | contracts/wallet/src/contract.rs:165-329 | over every run of any wallet, also one deployed without a way in, no signed message executes twice, and the lock-out check is passed from deployment or from the first change on |
| `WalletRequest.WalletContract.Execute` | contracts/wallet/src/contract.rs:224-329 | the loops over operations and promises change the fields as specified |
| `WalletRequest.WalletContract.ExecuteSignedAt` | contracts/wallet/src/contract.rs:169-206 | the checks in source order, then the request; a failure leaves everything as it was |
| `WalletRequest.WalletContract.ExecuteExtensionAt` | contracts/wallet/src/contract.rs:208-222 | the same for a call by an extension |
| `Amounts.CheckedApply` | contracts/defuse/core/src/amounts.rs:137-141 | writes the new amount without keeping a zero, and a failed update leaves the map alone exactly when no zero was stored |
| `Amounts.SumPut` | contracts/defuse/core/src/amounts.rs:35-141 | a write changes the sum of all amounts by the difference |
| `TokenDiff.SupplyDeltaFits` | contracts/defuse/core/src/intents/token_diff.rs:169-183 | a supply delta always fits, and a negative one only shrinks |
| `TokenDiff.ClosureBalances` | contracts/defuse/core/src/intents/token_diff.rs:189-204 | a closure's supply delta is exactly the negated total, both roundings included |
| `TokenDiff.ClosureIsCheapest` | contracts/defuse/core/src/intents/token_diff.rs:189-204 | no other delta that balances costs the closer less |
| `TokenDiff.NoClosureMeansNone` | contracts/defuse/core/src/intents/token_diff.rs:189-204 | where there is no closure, no delta balances |
| `TokenDiff.ClosureNonZero` | contracts/defuse/core/src/intents/token_diff.rs:189-204 | a closure of a non-zero total is not zero and at least as large as the total |
| `TokenDiff.ClosureDeltaBalances` | contracts/defuse/core/src/intents/token_diff.rs:163-165 | the closure of a single delta cancels its supply delta, and where there is none no delta does |
| `TokenDiff.SupplyDeltasSum` | contracts/defuse/core/src/intents/token_diff.rs:139-157 | the folded totals are the sums of the supply deltas, per token |
| `TokenDiff.ComputeClosure` | contracts/defuse/core/src/intents/token_diff.rs:139-157 | the two folds give the specified closure, in any order of the tokens |
| `TokenDiff.ClosureExistsIff` | contracts/defuse/core/src/intents/token_diff.rs:139-157 | a list has a closure exactly if every running total fits 128 bits and on every token some delta balances the total |
| `TokenDiff.ClosureSettles` | contracts/defuse/core/src/intents/token_diff.rs:120-157 | on every token the list and its closure cancel, with no zero entry and each cost minimal |
| `TokenDiff.FeeAndDelta` | contracts/defuse/core/src/intents/token_diff.rs:169-216 | what the signer loses less what the collector gains is the supply delta |
| `TransferMatcher.SubAddNets` | contracts/defuse/core/src/engine/state/deltas.rs:316-333 | moving an amount between the two sides changes one account's net by exactly that amount |
| `TransferMatcher.DepositNets` | contracts/defuse/core/src/engine/state/deltas.rs:297-299 | a deposit raises the account's net by the amount and nobody else's |
| `TransferMatcher.WithdrawNets` | contracts/defuse/core/src/engine/state/deltas.rs:302-304 | a withdrawal lowers it |
| `TransferMatcher.DepositIff` | contracts/defuse/core/src/engine/state/deltas.rs:297-333 | a deposit is recorded exactly if the net it leads to fits 128 bits |
| `TransferMatcher.WithdrawIff` | contracts/defuse/core/src/engine/state/deltas.rs:302-333 | the same for a withdrawal |
| `TransferMatcher.FinalizeInto` | contracts/defuse/core/src/engine/state/deltas.rs:337-391 | for any order, transfers of distinct pairs that give every account its amounts exactly when both totals agree, and otherwise their difference |
| `TransferMatcher.MatchToken` | contracts/defuse/core/src/engine/state/deltas.rs:337-391 | one token's moves are explained exactly when it balances |
| `TransferMatcher.Finalize` | contracts/defuse/core/src/engine/state/deltas.rs:267-283 | succeeds exactly when every token balances, with transfers that explain every account, and otherwise reports every imbalance or an overflow |
| `Ledger.CreditMoves` | contracts/defuse/core/src/engine/state/deltas.rs:136-149 | a credit moves the balance, the token's total and the recorded net by the amount |
| `Ledger.DebitMoves` | contracts/defuse/core/src/engine/state/deltas.rs:151-164 | a debit moves them back by the amount |
| `Ledger.CreditIff` | contracts/defuse/src/contract/intents/state.rs:147-169 | a credit goes through exactly if the amount is not zero and fits, for locked accounts too |
| `Ledger.DebitIff` | contracts/defuse/src/contract/intents/state.rs:171-195 | a debit goes through exactly if the account is there, is not locked and has the amount, which is not zero |
| `Ledger.FeeOnIs` | contracts/defuse/core/src/intents/token_diff.rs:206-216 | only what goes in is charged, never a non-fungible token nor a single unit of a multi-token, and the charge is the rounded-up share |
| `Ledger.ApplyAllShifts` | contracts/defuse/core/src/engine/state/mod.rs:91-105 | applying a diff shifts every token by its deltas |
| `Ledger.DeltasAndFees` | contracts/defuse/core/src/intents/token_diff.rs:42-101 | a diff's deltas and fees add up to its supply deltas |
| `Ledger.DiffChangesSupply` | contracts/defuse/core/src/intents/token_diff.rs:42-101 | executing a diff changes the sum of all balances of every token by exactly its supply deltas |
| `Ledger.DiffBalances` | contracts/defuse/core/src/intents/token_diff.rs:42-101 | whose balance a diff changes and by how much: the signer's by its deltas and the collector's by its fees, by both where they are one account |
| `Ledger.TransferKeeps` | contracts/defuse/core/src/intents/tokens.rs:83-128 | a transfer changes no token's total |
| `Ledger.TransferBalances` | contracts/defuse/core/src/intents/tokens.rs:83-128 | a transfer takes its amounts from the sender and gives them to the receiver, another account, and changes no other balance |
| `Ledger.MintSameGap` | contracts/defuse/src/contract/tokens/mod.rs:18-74 | a deposit moves supply and balances together |
| `Ledger.BurnSameGap` | contracts/defuse/src/contract/tokens/mod.rs:76-128 | a withdrawal, forced or not, moves supply and balances together |
| `Ledger.IntentSameGap` | contracts/defuse/core/src/intents/mod.rs:115-150 | every intent leaves balances less supply less imbalance as it was, for every token |
| `Ledger.BatchSameGap` | contracts/defuse/core/src/intents/mod.rs:97-113 | so does every batch |
| `Ledger.SettledBatchIsBacked` | contracts/defuse/core/src/engine/mod.rs:32-40 | a batch that settles leaves every token's balances equal to its supply |
| `Movements.MoveHands` | contracts/defuse/src/contract/tokens/nep245/core.rs:163-215 | one token of a transfer by call, forced or not, goes from one account to the other, to the unit |
| `Movements.MoveManyHands` | contracts/defuse/src/contract/tokens/nep245/core.rs:163-215 | a transfer by call hands over exactly its amounts and leaves every total and supply alone |
| `Movements.MoveIff` | contracts/defuse/src/contract/tokens/nep245/core.rs:163-215 | a token changes hands exactly if the sender is there, is not locked or is forced, and has it, and the receiver, locked or not, has room |
| `Movements.Asked` | contracts/defuse/src/contract/tokens/mod.rs:152-220 | what a receiver asks back: what it answers, or everything if there is no answer of the right length |
| `Movements.Refund` | contracts/defuse/src/contract/tokens/mod.rs:188-193 | a refund is the least of what was sent, what is asked for and what the receiver still has |
| `Movements.BurnCannotFail` | contracts/defuse/src/contract/tokens/mod.rs:201-212 | while every token is backed, taking a part of a balance out of the supply succeeds |
| `Movements.MoveCannotFail` | contracts/defuse/src/contract/tokens/nep245/resolver.rs:80-92 | while every token is backed, handing a part of a balance to anyone succeeds |
| `Movements.RefundTokensSafe` | contracts/defuse/src/contract/tokens/mod.rs:152-220 | refunding a deposit never fails for any answer, refunds no more than was deposited, and takes exactly the refunds from balances and supplies |
| `Movements.ReturnTokensSafe` | contracts/defuse/src/contract/tokens/nep245/resolver.rs:16-122 | refunding a transfer never fails for any answer, and what is not reported as used goes back to the sender, to the unit |
| `Movements.MintManyEnters` | contracts/defuse/src/contract/tokens/mod.rs:18-74 | a deposit adds exactly its amounts to the owner's balances and to the supplies |
| `Movements.BurnManyEnters` | contracts/defuse/src/contract/tokens/mod.rs:76-128 | a withdrawal takes exactly its amounts out of both |
| `Movements.BurnIff` | contracts/defuse/src/contract/tokens/mod.rs:76-128 | a token leaves exactly if the owner is there, is not locked or is forced, and the owner and the supply have it |
| `Movements.UsedIs` | contracts/defuse/src/contract/tokens/nep245/withdraw.rs:216-244 | for every outcome of a withdrawal's transfer, exactly when less than everything counts as used, and when a part does and which |
| `Movements.RefundsAndUsed` | contracts/defuse/src/contract/tokens/nep245/withdraw.rs:235-255 | what is used and what is refunded of a withdrawal add up to it |
| `Movements.MintIff` | contracts/defuse/src/contract/tokens/mod.rs:18-74 | into backed books a token can be deposited exactly if the amount is not zero and its supply has room: no balance overflows before the supply |
| `Movements.MintManyIff` | contracts/defuse/src/contract/tokens/mod.rs:18-74 | the same for any list of tokens, with repetitions |
| `Movements.DepositManyIff` | contracts/defuse/src/contract/tokens/mod.rs:18-74 | the same for a deposit, which also keeps every token backed |
| `Movements.ResolveWithdrawIff` | contracts/defuse/src/contract/tokens/nep245/withdraw.rs:203-256 | refunding a withdrawal succeeds exactly if the supplies have room for the refunds, and then what is not used is back on the owner's balances, to the unit |
| `Movements.NothingRefunded` | contracts/defuse/src/contract/tokens/nep245/withdraw.rs:203-256 | with nothing to refund nothing changes, but that a multi-token's callback creates the account |
| `Backing.PerformAtRest` | contracts/defuse/src/contract/tokens/mod.rs:17-220 | every deposit, withdrawal, transfer, refund and lock keeps every token backed and every non-fungible token single |
| `Backing.StepKeepsBacked` | contracts/defuse/src/contract/intents/mod.rs:27-42 | and so does every batch |
| `Backing.AlwaysBacked` | contracts/defuse/core/src/engine/mod.rs:32-118 | through any mix of batches, deposits, withdrawals and transfers, forced or not, refunds of all three, and locks, the balances of every token add up to its supply |
| `Backing.OneHolder` | contracts/defuse/src/contract/tokens/mod.rs:46-59 | over every such run a non-fungible token has at most one holder |
| `Backing.RefundsFromBalancesNeverFail` | contracts/defuse/src/contract/tokens/nep245/resolver.rs:32-96 | at no time of any such run can the refund of a deposit or of a transfer fail, for any tokens and answer, but for an empty list |
| `Backing.WithdrawRefundFailsIff` | contracts/defuse/src/contract/tokens/nep141/withdraw.rs:157-195 | at any time of any such run the refund of a withdrawal fails exactly if some supply has no room for it, or for an empty list |
| `Backing.WithdrawRefundSucceeds` | contracts/defuse/src/contract/tokens/nep141/withdraw.rs:157-195 | it succeeds for every outcome while the supplies are not above what the withdrawal left |
| `Backing.WithdrawRefundCanFail` | contracts/defuse/src/contract/tokens/nep141/withdraw.rs:183-191 | withdrawing, a deposit that fills the supply up, and a failed transfer make the callback panic, with the amount on no balance |
| `Locks.LockSets` | contracts/defuse/src/contract/accounts/force.rs:22-52 | locking and unlocking set the lock of one account and nothing else; only locking creates the account |
| `Locks.IntentGuards` | contracts/defuse/core/src/intents/mod.rs:115-150 | no intent, by anyone, takes from a locked account or unlocks it |
| `Locks.StepGuards` | contracts/defuse/src/accounts.rs:53-66 | nor does any call but by force, or as a refund of what the account received |
| `Locks.LockedKeepsAll` | contracts/defuse/src/accounts.rs:53-66 | over every run without forced calls and refunds on a locked account, and until it is unlocked, it stays locked and none of its balances goes down |
| `Settlement.IntentBalances` | contracts/defuse/core/src/intents/mod.rs:115-150 | beyond the movements it records, an intent changes every balance and supply by exactly what it mints and withdraws |
| `Settlement.BatchBalances` | contracts/defuse/core/src/intents/mod.rs:97-113 | so does every batch |
| `Settlement.IntentGains` | contracts/defuse/core/src/intents/mod.rs:115-150 | whose balance an intent changes and by how much, from the intent alone |
| `Settlement.BatchGains` | contracts/defuse/core/src/intents/mod.rs:97-113 | so for every batch and account: its own deltas, the fees of all diffs for the collector, transfers, mints and withdrawals |
| `Settlement.InternalKeeps` | contracts/defuse/core/src/engine/mod.rs:32-40 | a batch of diffs and transfers leaves the supplies alone and records every movement |
| `Settlement.InternalNothingOutside` | contracts/defuse/core/src/engine/mod.rs:32-40 | so its transfers alone replay it |
| `Settlement.TransfersReplayBatch` | contracts/defuse/core/src/engine/state/deltas.rs:232-283 | for every batch, account and token, the balance changes by the reported transfers and by what the batch mints to the account and withdraws from it |
| `Settlement.CollectFees` | contracts/defuse/core/src/intents/token_diff.rs:42-101 | the fees collected for a diff are those of its tokens, fit, are never zero, and are what the diff credits |
| `Settlement.BatchImbalance` | contracts/defuse/core/src/engine/state/deltas.rs:136-164 | after any batch the imbalance of every token is the sum of the supply deltas of its diffs |
| `Settlement.SettlesIff` | contracts/defuse/core/src/engine/state/deltas.rs:267-283 | a batch that executes settles exactly if the supply deltas of its diffs cancel on every token |
| `Settlement.ClosureSettlesBatch` | contracts/defuse/core/src/intents/token_diff.rs:120-157 | any batch with the diff of the closure of its diffs appended settles, if it executes |
| `LedgerConditions.DebitManyIff` | contracts/defuse/src/contract/intents/state.rs:171-195 | a list of debits, with repetitions, goes through exactly if no amount is zero and the account is not locked and has all of them together |
| `LedgerConditions.CreditManyIff` | contracts/defuse/src/contract/intents/state.rs:147-169 | a list of credits goes through exactly if no amount is zero and all of them together fit |
| `LedgerConditions.TransferIff` | contracts/defuse/core/src/intents/tokens.rs:83-128 | exactly when a transfer intent goes through, as a condition on the books before it |
| `LedgerConditions.ApplyAllIff` | contracts/defuse/core/src/engine/state/mod.rs:91-105 | the deltas of a diff can be applied exactly if none is zero, each leaves a balance that fits, and none is taken from a locked account |
| `LedgerConditions.DiffIff` | contracts/defuse/core/src/intents/token_diff.rs:42-101 | exactly when a diff goes through: its deltas can be applied and there is room for its fees, after the deltas where the collector signs it |
| `LedgerConditions.WithdrawManyIff` | contracts/defuse/src/contract/tokens/mod.rs:76-128 | a withdrawal goes through exactly if the account is there, is not locked or is forced, and it and the supplies have all the amounts |
| `LedgerConditions.DepositIff` | contracts/defuse/src/contract/tokens/mod.rs:18-74 | a deposit goes through, also within a batch, exactly if no amount is zero and the supplies and the account have room for all of them |
| `LedgerConditions.IntentIff` | contracts/defuse/core/src/intents/mod.rs:115-150 | exactly when each kind of intent goes through, as a condition on the books before it |
| `LedgerConditions.BatchTransferIff` | contracts/defuse/src/contract/tokens/nep245/core.rs:163-215 | while every token is backed, a transfer by call goes through exactly between different accounts, for a list that is not empty and has no zero, if the sender is there, is not locked or is forced, and has the amounts |
| `DefuseContract.Contract.RunIntents` | contracts/defuse/core/src/engine/mod.rs:32-40 | the loop over the intents updates the books as specified |
| `DefuseContract.Contract.ExecuteIntents` | contracts/defuse/src/contract/intents/mod.rs:27-42 | a batch goes through exactly when it executes and its diffs cancel, keeps every token backed, changes every balance by what its items say for that account, and by its transfers, mints and withdrawals, and every supply by the last two, and is undone otherwise |
| `DefuseContract.Contract.Deposit` | contracts/defuse/src/contract/tokens/mod.rs:18-74 | the loop deposits as specified, keeps every token backed, and is undone on failure |
| `DefuseContract.Contract.Withdraw` | contracts/defuse/src/contract/tokens/mod.rs:76-128 | the loop withdraws as specified, past a lock only by force, keeps every token backed, and is undone on failure |
| `DefuseContract.Contract.BatchTransfer` | contracts/defuse/src/contract/tokens/nep245/core.rs:163-215 | the loop transfers as specified, keeps every token backed, and is undone on failure |
| `DefuseContract.Contract.ResolveDeposit` | contracts/defuse/src/contract/tokens/mod.rs:152-220 | the loop refunds as specified and has no failing branch |
| `DefuseContract.Contract.RefundOne` | contracts/defuse/src/contract/tokens/mod.rs:188-212 | both unwrapped subtractions of a refund succeed |
| `DefuseContract.Contract.ResolveTransfer` | contracts/defuse/src/contract/tokens/nep245/resolver.rs:16-122 | the loop returns what is not used as specified, and fails for an empty list only |
| `DefuseContract.Contract.ReturnOne` | contracts/defuse/src/contract/tokens/nep245/resolver.rs:51-95 | the unwrapped subtraction and addition of a refund succeed |
| `DefuseContract.Contract.ResolveWithdraw` | contracts/defuse/src/contract/tokens/nep245/withdraw.rs:203-256 | caps, collects and deposits the refunds as specified, and is undone when the deposit fails |
| `DefuseContract.Contract.CollectRefunds` | contracts/defuse/src/contract/tokens/nep245/withdraw.rs:237-250 | one pass caps what is used and collects every refund that is not zero |

## Left out

- Signature curves and hashing: verification is a parameter, and hashes appear only as what they stand for.
- JSON, Borsh and serde: messages and authorizations are values, except the byte layout of versioned nonces.
- Gas, storage staking, events, roles, pausing, upgrades and relayer keys.
- Escrow's `on_auth` entry, which shares `State::close`, and the encoding of return values.
- Escrow tokens other than NEP-141 and NEP-245, which cannot be received.
- Range limits of `Timestamp`: times are unbounded integers.
- Access keys in the off-chain resolver: an account is resolved by its contract.
- The notifications before deposit and transfer callbacks, whose answers are arbitrary, and the storage deposit a withdrawal may pay for, which no callback refunds.
- The argument checks of `mt_resolve_transfer` other than the one for an empty list: the contract itself passes matching lists, one previous owner, token ids that parse and no approvals.
- The limit on the length of logs that deposits and transfers check for their events.
- The saturation of the resolver's count of sub-authorizations at `usize::MAX`, more than fit in memory.
- What the token contract does with a taker's payment when the escrow's callback panics: its return value is lost with it, and solvency is stated for runs without such a panic.
- Effects of intents on public keys, on authorization by predecessor and on outgoing calls: in the replay model what a batch's intents do is only whether they succeed.
- Simulation on a cached state, the `set_bit_to` helpers, `BitMap256::as_iter`, plain `fee` and `checked_div_ceil`: they would only add members like those modelled.
- The sort order in `finalize_into`: the result is proved for every order.
- The proof-of-authority bridge, treasury, outlayer, global deployer and all networking of the SDK.
- DecimalText.ParseOnlySpelled: strings are sequences of UTF-8 code units, and the kind of error for a string with other than ASCII characters is not modelled.
- EscrowContract.Account.Restore: stands for the host's rollback, which is not code of the repository.
