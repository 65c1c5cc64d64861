# Winny jackpot: verification

Winny is a jackpot on Solana. Players deposit USDC into a round and get tickets; a verifiable random number picks a
ticket, its holder wins the pot, and a service called the crank moves rounds through their life and cleans up behind
them. This project models the program, the crank, the degen executor and the round searches in Dafny, and proves what
they promise. `dafny verify dfyconfig.toml` checks everything.

## What is modelled

The program:

- `Bytes`, `Layout`, `RoundLayout`: a Round account as a flat buffer of 8248 bytes, its regions, and `View`, everything
  the account says. Addresses and random values are the numbers their 32 bytes spell.
- `LowBit`, `Fenwick`: the tree of ticket counts for any size, its updates and the descent that picks the winner.
- `RoundAccount`: the accessors and tree operations on an `array<byte>`, in place, as the program runs them.
- `RoundProgram`: every round instruction as a step on a ledger (the round, the participant accounts, the degen claim,
  the vault balance and bookkeeping totals), and the creation and closing of the account as steps on its address. The
  config may differ from one instruction to the next.
- `RoundHandlers`: deposit, cancel and VRF callback on the bytes, proved to do what the ledger step says.
- `RoundSafety`: the invariant of a standing round and what it gives from its creation to its closing.
- `RoundRules`: the rule book, written without the handlers: when each instruction is accepted, all that it then changes,
  and what each refusal says; the ledger steps are proved to follow it.
- `RoundHistory`: an address through all its lives, closed and created again, and exactly when custody survives.
- `RoundTimes`: what is fixed once in a life: who is reimbursed, when the round ends, when the fallback opens.
- `PotDelivery`: what becomes of the pot once a degen swap has begun, and exactly when the winner is left short.
- `Codec`, `AccountViews`, `UpdateConfig`: the other accounts and the `update_config` arguments as field lists.
- `Candidates`: the token candidates of a degen claim, derived by the program and again by the crank.

The services:

- `Retry`, `Cleanup`, `CrankTables`, `CrankTrace`, `Crank`, `CrankOnChain`: the crank. Every read, send and clock
  reading is a nondeterministic step, so the results hold against any chain; `trace` records what a run did, and a
  transaction leaves only through `SignAndSend`, which records it with its answer. `CrankOnChain` puts such a run beside
  histories of the program.
- `CrankReads`: the crank's parsers against the program's readers.
- `ActiveScan`, `RoundSearch`, `SearchOnChain`: the scans and searches over round ids, and that what they look for is what
  the program accepts.
- `Executor`: one pass of the degen executor over a claim, for any outcome of every attempt.

`Basics` and `Division` hold shared definitions.

Where the code and its documentation disagree, the code is followed: README.md of the repository (lines 131 and 687)
computes the winning ticket from a hash of the randomness, while the callback takes the first 16 bytes of the
randomness as a little-endian number, modulo the tickets, plus one.

These promises are false as first written. Each is proved with its exact condition, except the cooldown, whose condition
is sufficient only:

- Funds are never stuck or lost (README.md of the repository, line 211): `close_round` looks at no participant account,
  takes the whole vault of a claimed or cancelled round, or leaves it full if another token account of the round is
  passed in its place. The invariant, custody and refunds hold at every moment if and only if every accepted close found
  the pot claimed or no deposit left, and every accepted creation found no participant account of an earlier life
  (`RoundHistory.SafeExact`; `RoundHistory.CustodyCanFail` is a deposit, a forced cancel and a close). The crank meets
  both conditions (`CrankOnChain.CrankClosesClean`). Custody is about the vault: it says what the vault still owes, not
  what became of a pot that left it.
- The executor cannot steal funds, and the fallback keeps them from being stuck (README.md of the repository, lines 186
  and 188): `begin_degen_execution` pays the winner's part to the executor's own account, asks for no other instruction
  beside it, and takes any minimum, zero included. From then on nothing but a finalize by that executor moves the round
  (`PotDelivery.StuckUntilFinalize`), and none ever can if the target exceeds 64 bits (`PotDelivery.StuckForever`). The
  executor was given money and the winner nothing for it if and only if a begin with a payout was accepted in this life
  and no finalize that saw tokens arrive (`PotDelivery.DeliveryExact`); there is a payout if and only if the fee is below
  100% and the pot exceeds the reimbursement that is due (`PotDelivery.PayoutPositive`). What the winner can count on is
  tokens of the executor's choice, whatever they are worth: if the target fits, every finalize that can be accepted
  brings at least q of them if and only if the minimum is at least q (`PotDelivery.MinimumDecides`). For a round that
  meets the invariant, with a fee of at most 100%, the fallback of a ready or executing claim works after its timeout if
  and only if no begin was accepted (`PotDelivery.FallbackExact`). `PotDelivery.DeliveryCanFail` is a run in which the
  executor is given money and the winner ends with nothing.
- Two VRF requests for a round id are a cooldown apart, unless the round is read as open again in between
  (`CrankTrace.VrfApart`, one way: `CrankTrace.RelockedTooSoon` shows that the exception can be too soon, not that it
  always is). Within one life of a round they always are (`CrankOnChain.VrfApartInLife`), and if the program accepted what
  was confirmed, there are no two in one life (`CrankOnChain.VrfOncePerLife`).
- The crank's key list agrees with the program's reader if and only if the stored count is at most 200
  (`CrankReads.ParticipantsAgree`).
- `findMaxRoundId` finds the highest round if and only if no empty probe of 20 ids lies below an existing round
  (`RoundSearch.MaxExact`; `RoundSearch.GapHidesRounds` shows rounds 1 and 41).
- The payout the executor quotes is the one the program transfers if and only if no reimbursement is due, the pot covers
  it, or the fee is 100% (`CrankReads.PayoutsAgree`).
- The executor makes at most candidates x slippage steps x (account limits + 1) attempts if and only if there is a
  slippage step or no candidate is USDC itself (`Executor.BoundExact`).

## Model

| member | source | states |
|---|---|---|
| LowBit.LowBitTrick | jackpot_pinocchio_poc/src/legacy_layouts.rs:521 | for every nonzero 64-bit index, `index & (!index + 1)` does not overflow and is the largest power of two dividing it |
| Fenwick.RepresentsUnique | jackpot_pinocchio_poc/src/legacy_layouts.rs:501-551 | a node array stands for at most one table of ticket counts |
| Fenwick.UpdateRepresents | jackpot_pinocchio_poc/src/legacy_layouts.rs:501-551 | adding to the nodes that cover an index makes the array represent the table with that one count changed |
| Fenwick.UpdateFits | jackpot_pinocchio_poc/src/legacy_layouts.rs:513-522 | an update that leaves the count non-negative and the total within 64 bits overflows no node |
| Fenwick.RunRepresents | jackpot_pinocchio_poc/src/legacy_layouts.rs:501-551 | over any sequence of lawful adds and subtracts every call succeeds and the nodes represent the running counts |
| Fenwick.ZeroRepresents | jackpot_pinocchio_poc/src/legacy_layouts.rs:501-551 | zeroed nodes represent the table of zeros, where every run starts |
| Fenwick.NextCovering | jackpot_pinocchio_poc/src/legacy_layouts.rs:516-522 | stepping by the low bit visits exactly the nodes whose range covers the index, skipping none |
| Fenwick.FindPrefixSelects | jackpot_pinocchio_poc/src/legacy_layouts.rs:415-442 | on nodes that represent a table the descent returns the least index whose prefix sum reaches the target, and never overflows if the total fits 64 bits |
| Fenwick.TicketRange | jackpot_pinocchio_poc/scripts/local_multi_user_smoke.ts:50-57 | a ticket selects participant i if and only if it lies in the i-th of the consecutive ranges |
| Fenwick.SelectedHolds | jackpot_pinocchio_poc/src/legacy_layouts.rs:415-442 | every ticket from 1 to the total selects an index in range that holds tickets |
| Fenwick.ExactFairness | jackpot_pinocchio_poc/src/legacy_layouts.rs:415-442 | exactly as many tickets select an index as it holds |
| RoundLayout.LifecycleWritten | jackpot_pinocchio_poc/src/legacy_layouts.rs:569-602 | writing the header is read back exactly and changes nothing else the account says, nor the discriminator |
| RoundLayout.RoundOffsets | jackpot_pinocchio_poc/src/legacy_layouts.rs:47-64 | every region of the account at its literal place |
| RoundLayout.KeyWritten | jackpot_pinocchio_poc/src/legacy_layouts.rs:320-461 | writing a key or the randomness changes that one value of the account and nothing else |
| RoundLayout.FlagWritten | jackpot_pinocchio_poc/src/legacy_layouts.rs:302-499 | the same for the status, the winning ticket and the two flags |
| RoundLayout.BitView | jackpot_pinocchio_poc/src/legacy_layouts.rs:501-567 | a change inside the Fenwick region leaves every other value and the discriminator |
| RoundLayout.NodesDetermineBytes | jackpot_pinocchio_poc/src/legacy_layouts.rs:501-567 | equal nodes, and equal bytes outside the region, make equal accounts |
| RoundAccount.WriteLifecycle | jackpot_pinocchio_poc/src/legacy_layouts.rs:294-300 | in place: the whole view with only the header replaced, or too short and untouched |
| RoundAccount.WriteParticipant | jackpot_pinocchio_poc/src/legacy_layouts.rs:399-413 | in place: one participant key replaced, or refused untouched for a short account or an index of 200 and more |
| RoundAccount.BitAdd | jackpot_pinocchio_poc/src/legacy_layouts.rs:527-551 | success is the updated node array; overflow happens exactly at the first node that does not fit, with the earlier ones already written; all outside the region is unchanged |
| RoundAccount.BitSub | jackpot_pinocchio_poc/src/legacy_layouts.rs:501-525 | the same for subtraction |
| RoundAccount.BitFindPrefix | jackpot_pinocchio_poc/src/legacy_layouts.rs:415-442 | the loop over the bytes is the descent over the nodes |
| RoundAccount.AddThenSub | jackpot_pinocchio_poc/src/legacy_layouts.rs:501-551 | a subtraction after a successful addition of the same amount succeeds and restores every byte |
| RoundHandlers.DepositHandler | jackpot_pinocchio_poc/src/handlers/deposit_any.rs:14-147 | the writes of a deposit on the account bytes make exactly the round of the ledger step, and fail with its errors; an accepted one credits the growth of the balance, one ticket for each whole ticket price in it, to the participant and the totals, and starts the clocks |
| RoundHandlers.JoinHandler | jackpot_pinocchio_poc/src/handlers/deposit_any.rs:73-104 | a newcomer takes the next slot, up to 200, and a known participant keeps theirs |
| RoundHandlers.CancelHandler | jackpot_pinocchio_poc/src/handlers/cancel_round.rs:12-98 | the bytes after a cancel are the ledger step's round |
| RoundHandlers.VrfCallbackHandler | jackpot_pinocchio_poc/src/handlers/vrf_callback.rs:11-54 | the bytes after a callback are the settled round, or untouched on failure; the first 16 random bytes, as a little-endian number, choose the ticket, and whoever holds it in the table the tree stands for wins |
| RoundHandlers.Settle | jackpot_pinocchio_poc/src/handlers/vrf_callback.rs:43-51 | the four writes change the randomness, the ticket, the winner and the status and nothing else |
| RoundSafety.DepositKeeps | jackpot_pinocchio_poc/src/handlers/deposit_any.rs:14-147 | a deposit keeps the invariant, slots, tree, totals and money all agreeing afterwards; the vault, the participant and the totals grow by the deposit and by one ticket for each whole ticket price in it |
| RoundSafety.CancelKeeps | jackpot_pinocchio_poc/src/handlers/cancel_round.rs:12-98 | a cancel keeps the invariant and ends the round |
| RoundSafety.RefundKeeps | jackpot_pinocchio_poc/src/handlers/claim_refund.rs:12-69 | a refund keeps the invariant |
| RoundSafety.SettleKeeps | jackpot_pinocchio_poc/src/handlers/vrf_callback.rs:11-54 | a draw keeps the invariant and moves the round from requested to settled |
| RoundSafety.AmountsAreThePot | jackpot_pinocchio_poc/src/handlers/degen_common.rs:15-40 | payout, fee and reimbursement add up to the whole pot, whatever the fee rate |
| RoundSafety.ClaimKeeps | jackpot_pinocchio_poc/src/handlers/claim.rs:15-98 | a claim pays the whole pot, the payout to the winner's own account, and keeps the invariant |
| RoundSafety.BeginDegenKeeps | jackpot_pinocchio_poc/src/handlers/begin_degen_execution.rs:14-128 | the begin of a degen swap takes the whole pot out of the vault, the payout to the executor and nothing to the winner, and keeps the invariant |
| RoundSafety.ClaimDegenKeeps | jackpot_pinocchio_poc/src/handlers/claim_degen.rs:23-163 | a degen claim or its fallback pays the whole pot, the payout to the winner's own account, and keeps the invariant |
| RoundSafety.ExecuteKeeps | jackpot_pinocchio_poc/src/runtime/program.rs:15-70 | every accepted instruction on a standing round keeps the invariant, moves the phase only forward and never takes a pot out of the vault twice; creation and closing are in RoundHistory.TransactKeeps |
| RoundRules.AcceptedExact | jackpot_pinocchio_poc/src/runtime/program.rs:15-70 | in a round that meets the invariant, with a fee of at most 100%, each instruction is accepted if and only if the rule book says so: deadlines, phases, callers, players, limits; no shortage, overflow of the tree or other failure ever refuses it |
| RoundRules.EffectExact | jackpot_pinocchio_poc/src/runtime/program.rs:15-70 | an accepted instruction changes exactly what the rule book says and nothing else, the whole ledger accounted for |
| RoundRules.RefusalsMean | jackpot_pinocchio_poc/src/runtime/program.rs:15-70 | every refusal is for the reason its error names |
| RoundRules.AmountsSplit | jackpot_pinocchio_poc/src/handlers/degen_common.rs:15-40 | the pot is a reimbursement of at most 200000 if one is due, the fee on the rest rounded down, and the payout |
| RoundRules.DepositAccepted | jackpot_pinocchio_poc/src/handlers/deposit_any.rs:14-147 | a deposit is accepted if and only if the round is open and not over, the deposit covers the ticket price and the slippage limit, there is a seat, and the limits leave room |
| RoundRules.ChecksExact | jackpot_pinocchio_poc/src/handlers/deposit_any.rs:34-71 | the checks pass if and only if the deposit is in time and covers the ticket price; the error for a small deposit means that it does not |
| RoundRules.SiteExact | jackpot_pinocchio_poc/src/runtime/terminal_cleanup_program.rs:79-131 | a close is accepted exactly on a standing claimed or cancelled round whose passed vault is empty or has a treasury to go to, a creation exactly where nothing stands; a created round is blank but for id, bump, vault and start |
| RoundSafety.EveryLifeIsSafe | README.md:211 | after any instructions from a fresh round, before it is closed: money in equals vault plus refunds plus payouts plus sweeps, the vault covers what it still owes, the pot has left it not at all or exactly once in full, and the tree represents the tickets; where the pot went is in PotDelivery.DeliveryExact |
| RoundHistory.CloseExact | jackpot_pinocchio_poc/src/runtime/terminal_cleanup_program.rs:79-131 | a close takes the whole vault, or leaves it full if another token account of the round is passed, and leaves the participant accounts; custody and refunds survive it if and only if the pot was claimed or no deposit was left |
| RoundHistory.RecreatedExact | jackpot_pinocchio_poc/src/runtime/round_lifecycle_program.rs:300-337 | whatever balance its vault has, a created round meets the invariant if and only if no participant account names it already |
| RoundHistory.TransactKeeps | jackpot_pinocchio_poc/src/runtime/program.rs:15-70 | what every transaction, creation and closing included, does to the invariant, custody, refunds and the books |
| RoundHistory.InvariantExact | jackpot_pinocchio_poc/src/handlers/start_round.rs:34-36 | over any history the standing round always meets the invariant if and only if every accepted creation found no participant account |
| RoundHistory.CustodyExact | jackpot_pinocchio_poc/src/handlers/close_round.rs:26-37 | over any history with such creations, the vault covers what it owes and refunds stay in reach at every moment if and only if every accepted close found the pot claimed or no deposit left |
| RoundHistory.SafeExact | README.md:211 | over any history, the invariant, custody and refunds hold at every moment if and only if every accepted creation found no participant account and every accepted close found nothing left |
| RoundHistory.AllAccounted | jackpot_pinocchio_poc/src/runtime/terminal_cleanup_program.rs:157-186 | over such a history all money in, the balance found at the creation included, is in the vault or went out as refund, payout or sweep |
| RoundHistory.CustodyCanFail | jackpot_pinocchio_poc/src/runtime/terminal_cleanup_program.rs:357-372 | a deposit, a forced cancel and a close, with the round's own vault or another account, are all accepted; then the deposit is unreturned and out of reach, and the round created again does not meet the invariant |
| RoundHistory.NeverReopensInLife | jackpot_pinocchio_poc/src/handlers/lock_round.rs:11-46 | over any history a round that left Open does not return to it within its life |
| RoundHistory.OneRequestPerLife | jackpot_pinocchio_poc/src/handlers/request_vrf.rs:11-41 | over any history the program accepts at most one VRF request in each life of a round |
| RoundTimes.PayerIsRequester | jackpot_pinocchio_poc/src/handlers/request_vrf.rs:11-41 | over any history, whoever had the VRF request of a life accepted stays the one to be reimbursed |
| RoundTimes.EndIsHonoured | jackpot_pinocchio_poc/src/handlers/deposit_any.rs:105-112 | over any history, the deposit that makes the players enough fixes the end: later deposits of the life come before it and the lock not before it |
| RoundTimes.FallbackWaits | jackpot_pinocchio_poc/src/handlers/claim_degen_fallback.rs:69-77 | over any history, no fallback is accepted before the timeout counted from the degen callback, 300 seconds if none is set |
| PotDelivery.ExecuteBooked | jackpot_pinocchio_poc/src/runtime/degen_execution_program.rs:34-60 | round and claim agree on the phase of a degen claim, and the books show a begin and an arrival exactly when such an instruction was accepted |
| PotDelivery.ExecuteHands | jackpot_pinocchio_poc/src/handlers/begin_degen_execution.rs:104-127 | the books show money with the executor exactly when a begin with a positive payout was accepted, in the amount of that payout |
| PotDelivery.PayoutPositive | jackpot_pinocchio_poc/src/handlers/degen_common.rs:15-40 | with a fee of at most 100% there is a payout if and only if the fee is below 100% and the pot exceeds the reimbursement that is due |
| PotDelivery.ExecutingHolds | jackpot_pinocchio_poc/src/handlers/finalize_degen_success.rs:36-47 | while the executor holds the payout, every accepted instruction but a finalize by that executor changes nothing but a donated balance |
| PotDelivery.StuckUntilFinalize | README.md:188 | over any history, until that executor has a finalize accepted nobody is paid or refunded and the account is not closed |
| PotDelivery.StuckForever | jackpot_pinocchio_poc/src/handlers/finalize_degen_success.rs:59-65 | over any history, that lasts for good if balance plus minimum exceeds 64 bits |
| PotDelivery.MinimumDecides | jackpot_pinocchio_poc/src/handlers/finalize_degen_success.rs:59-65 | a finalize can be accepted at all if and only if balance plus minimum fits 64 bits, and then, for every q, every accepted one delivers at least q tokens if and only if the minimum is at least q |
| PotDelivery.BooksTell | jackpot_pinocchio_poc/src/runtime/program.rs:15-70 | over any history the books of a life show a begin, a payout given to the executor and an arrival if and only if such a begin or finalize was accepted in it |
| PotDelivery.DeliveryExact | README.md:186 | over any history, closes and creations included, the executor was given money and the winner nothing for it if and only if a begin with a positive payout was accepted in this life and no finalize that saw tokens arrive; otherwise the pot has not left the vault, went to the winner's account, held nothing for the winner, or tokens came |
| PotDelivery.BeginThenFinalize | README.md:186 | after a begin and the first finalize by its executor the winner has at least the minimum more than at the begin |
| PotDelivery.FallbackExact | README.md:188 | in a round that meets the invariant, with a fee of at most 100%, once the timeout has passed the fallback of a ready or executing claim is accepted if and only if no begin was accepted in this life |
| PotDelivery.UnservedFrom | jackpot_pinocchio_poc/src/handlers/begin_degen_execution.rs:49-128 | from every claim ready for a swap, in a round that meets the invariant with a fee of at most 100%, a begin with minimum zero hands the payout to the executor and a finalize that sees nothing arrive ends the round; the winner is short if and only if there was a payout |
| PotDelivery.ReadyFrom | jackpot_pinocchio_poc/src/handlers/degen_vrf_callback.rs:18-105 | from every open round with enough players, past its end, such a claim comes about in five accepted instructions |
| PotDelivery.DeliveryCanFail | README.md:186 | a run of eight accepted instructions from a fresh round in which the executor is given a positive payout and the winner ends with nothing, with the invariant, custody and refunds intact throughout |
| RoundSafety.PayoutsCovered | README.md:211 | no payout of a standing round that meets the invariant is refused for want of funds |
| RoundSafety.RefundsCovered | README.md:211 | no refund of one is either |
| RoundSafety.RefundIsComplete | jackpot_pinocchio_poc/src/handlers/claim_refund.rs:12-69 | while a cancelled round that meets the invariant stands, a depositor can claim, and then has back all they put in |
| RoundSafety.NeverReopensNorRepays | jackpot_pinocchio_poc/src/handlers/lock_round.rs:11-46 | over any instructions before its closing a round that left Open never returns to it, and a pot leaves the vault at most once |
| RoundSafety.DrawAlwaysSettles | jackpot_pinocchio_poc/src/handlers/vrf_callback.rs:22-42 | a callback on a requested round that meets the invariant, with enough players, always settles, on the holder of the ticket that the first 16 random bytes choose |
| RoundSafety.FairDraw | README.md:256 | of the tickets of a round that meets the invariant exactly as many select a participant as that one holds |
| RoundSafety.RemaindersNearlyEven | jackpot_pinocchio_poc/src/handlers/vrf_callback.rs:32-35 | reducing a uniform number modulo the total favours no ticket over another by more than one number |
| Codec.ExactlyEncodings | jackpot_pinocchio_poc/src/instruction_layouts.rs:348-478 | a field list reads as given values if and only if they fit and their encodings stand at the cursor, whatever follows |
| Codec.FieldExact | jackpot_pinocchio_poc/src/instruction_layouts.rs:414-478 | the same for one field, options with their tag byte included, and the cursor ends behind it |
| Codec.PrefixFree | jackpot_pinocchio_poc/src/instruction_layouts.rs:244-265 | no record's encoding is a prefix of another record's |
| UpdateConfig.ParseExact | jackpot_pinocchio_poc/src/instruction_layouts.rs:244-265 | parsing yields a record if and only if it is valid and the data starts with its encoding, trailing bytes or not |
| UpdateConfig.WireFormat | jackpot_pinocchio_poc/src/instruction_layouts.rs:244-265 | the seven options in their order, each a tag byte and, if present, its number of 2, 8, 4, 2, 8, 1 and 8 bytes; valid means that each fits |
| UpdateConfig.EncodingsPrefixFree | jackpot_pinocchio_poc/src/instruction_layouts.rs:244-265 | no encoding of one record is a prefix of an encoding of another |
| AccountViews.WriteAccount | jackpot_pinocchio_poc/src/legacy_layouts.rs:115-173 | writing a view field by field in place is read back exactly, leaves the discriminator and the rest, and fails only when too short |
| AccountViews.ReadThenWrite | jackpot_pinocchio_poc/src/legacy_layouts.rs:107-173 | writing back what was read changes no byte |
| AccountViews.FieldsAt | jackpot_pinocchio_poc/src/legacy_layouts.rs:123-156 | a long enough account reads if and only if its booleans are 0 or 1, and each field is what its own bytes spell |
| AccountViews.OffsetTables | jackpot_pinocchio_poc/src/legacy_layouts.rs:10-18 | the config, degen config and participant fields stand at these offsets and fill 154, 64 and 103 bytes |
| AccountViews.DegenClaimOffsets | jackpot_pinocchio_poc/src/legacy_layouts.rs:66-89 | the 24 degen claim fields stand at the source's offsets and fill 340 bytes |
| Candidates.DeriveIndices | jackpot_pinocchio_poc/src/degen_pool_compat.rs:29-57 | the nested loops compute the derivation, and panic if and only if a rank runs out of nonces; told by the hashed bytes alone: entry r is the first four digest bytes modulo the pool, of the 44 bytes randomness, version, r and nonce, at the first nonce that gives something new |
| Candidates.IndexAtRank | jackpot_pinocchio_poc/src/degen_pool_compat.rs:59-65 | the index at a rank is that element of every longer derivation |
| Candidates.DerivedAreDistinct | jackpot_pinocchio_poc/src/degen_pool_compat.rs:29-57 | derived indices point into the pool and are pairwise distinct |
| Candidates.DerivedPrefix | jackpot_pinocchio_poc/src/degen_pool_compat.rs:29-57 | a shorter derivation is a prefix of a longer one |
| Candidates.DerivedUsesLeastNonce | jackpot_pinocchio_poc/src/degen_pool_compat.rs:36-53 | each index comes from the least nonce that misses all before it |
| Candidates.DerivedIsSpelled | jackpot_pinocchio_poc/src/degen_pool_compat.rs:36-53 | each entry is what the hash of randomness, version, rank and nonce points to, at the first nonce that points to something new |
| Candidates.SpelledUnique | jackpot_pinocchio_poc/src/degen_pool_compat.rs:29-57 | those hashes spell at most one list of each length, so anyone can tell it |
| Candidates.TooManyNeverDerived | jackpot_pinocchio_poc/src/degen_pool_compat.rs:36-53 | asking for more candidates than the pool has always runs out of nonces |
| Candidates.SearchBeyond32Bits | crank/src/degenLogic.ts:47-63 | the crank's unbounded search ends if and only if some 32-bit nonce succeeds, since larger ones repeat the same hashes |
| Candidates.DeriveCandidates | crank/src/degenLogic.ts:35-66 | the crank lists the program's indices with their ranks and mints, spelled by the same 44 hashed bytes |
| Candidates.DeriveBoth | crank/src/degenLogic.ts:35-66 | for a request the pool can serve, program and crank list the same tokens |
| Retry.PlanLaw | crank/src/runtimeLogic.ts:138-219 | a retry is planned unless a pass closed everything it found; the attempt is at now plus the delay, which is the minimum but at most 2 after progress and otherwise twice the last one within the limits; the retry is counted and its reason is the right one |
| Retry.DelayClosedForm | crank/src/runtimeLogic.ts:57-73 | after any mix of fast and slow retries the delay is a closed form of the slow ones since the last fast one |
| Retry.SlowRun | crank/src/runtimeLogic.ts:57-73 | k slow retries from the minimum wait min(max, min * 2^k) |
| Cleanup.Scan | crank/src/index.ts:597-621 | the chunked scan counts what was there and lists the closable accounts in order |
| Cleanup.CleanupParticipants | crank/src/index.ts:573-638 | for given outcomes the pass counts exactly what was there and how the transactions ended, and closes the first closable accounts in order |
| Cleanup.EveryAccountCounted | crank/src/index.ts:597-621 | every account found is closable, blocked or unreadable, once |
| Cleanup.CountedExact | crank/src/index.ts:597-634 | each counter is the number of addresses or transactions it stands for; errors are the unreadable accounts and the failed closings |
| Cleanup.ClosableExact | crank/src/index.ts:608-615 | the listed positions are exactly the readable accounts of a claimed round, and the empty ones of a cancelled round, in order |
| Cleanup.NothingPending | crank/src/runtimeLogic.ts:119-136 | if a pass leaves nothing pending, every account it found was closed in it and none was blocked, unreadable or failed |
| Cleanup.RefundNeverClosed | crank/src/index.ts:610-613 | a participant of a cancelled round with USDC or tickets is never closed |
| Cleanup.RemainingIs | crank/src/index.ts:623-634 | a pass in which all transactions land removes exactly the first closable accounts |
| Cleanup.ExactPasses | crank/src/index.ts:573-704 | the number of passes until nothing is pending is max(1, ceil(P / B)) for P closable accounts and batches of B |
| Cleanup.CloseInPasses | crank/src/index.ts:573-704 | repeated passes, every transaction landing, take exactly that many |
| CrankTables.TrackKeeps | crank/src/index.ts:286-297 | tracking keeps the schedule maps' keys equal to the background rounds, gives a new round its first attempt, minimum delay and no retries, and changes nothing for a known round or any other |
| CrankTables.ClearKeeps | crank/src/index.ts:299-305 | clearing keeps them too, and every other round's schedule |
| CrankTables.TrackThenClear | crank/src/index.ts:286-305 | tracking a new round and clearing it restores every table |
| CrankTables.RescheduleKeeps | crank/src/index.ts:312-332 | a planned retry keeps the tables consistent, sets the round's attempt, delay, count and reason as planned, and no other round's |
| CrankTrace.NoRoundLost | crank/src/index.ts:708-825 | in every lawful run each round advanced past is still in the background, or was cleared later right after being read as missing or after a confirmed close_round |
| CrankTrace.ClearedOnlyFor | crank/src/index.ts:676-737 | a round is cleared only right after it was read as missing or its close_round was confirmed |
| CrankTrace.NeverBack | crank/src/index.ts:741-825 | the current round never goes back |
| CrankTrace.CloseIsSafe | crank/src/index.ts:640-704 | whenever close_round is sent, the crank had read the round as finished, looked at all its participant accounts, closed each one found by a confirmed transaction, none of them blocked or unreadable, and read it as finished again |
| CrankTrace.ClosedWhenEmpty | crank/src/index.ts:603-634 | close_participant is sent only for an account that the pass saw, with nothing to refund if the round is cancelled |
| CrankTrace.LockedOnce | crank/src/index.ts:470-534 | the combined lock and VRF transaction is confirmed at most once per round id |
| CrankTrace.StartedOnce | crank/src/index.ts:434-468 | start_round is sent only after a read that found no round, and never again once confirmed |
| CrankTrace.VrfApart | crank/src/index.ts:536-563 | any two confirmed VRF requests for a round id are a cooldown apart, unless the second is a lock and the round was read as open again in between |
| CrankTrace.RelockedTooSoon | crank/src/index.ts:470-534 | a lawful list of events, each send after two reads, in which that exception is closer than the cooldown |
| CrankOnChain.VrfApartInLife | crank/src/index.ts:470-563 | if the crank reads histories of the program, any two confirmed VRF requests within one life of a round are a cooldown apart |
| CrankOnChain.VrfOncePerLife | crank/src/index.ts:470-563 | if every confirmed VRF request was accepted by the program, no two are for the same life of a round |
| CrankOnChain.NobodyLeft | crank/src/index.ts:597-688 | when the crank sends close_round, no participant account is left in the life of the round it looked at, though the accounts are asked for in chunks |
| CrankOnChain.CrankClosesClean | crank/src/index.ts:640-704 | so an accepted close then keeps custody and refunds, and the next creation is clean |
| Crank.Crank.constructor | crank/src/index.ts:109-122 | the initial state is valid and nothing is tracked |
| Crank.Crank.TrackBackgroundRound | crank/src/index.ts:286-297 | the tables with the round tracked, recorded in the run |
| Crank.Crank.ClearBackgroundRound | crank/src/index.ts:299-305 | the tables without the round, allowed only after a missing read or a confirmed close |
| Crank.Crank.ScheduleCleanupRetry | crank/src/index.ts:312-332 | exactly the planned retry, lying ahead of now |
| Crank.Crank.SignAndSend | crank/src/index.ts:504 | a transaction has to be one the rules allow, and is recorded with its answer and times |
| Crank.Crank.StartRound | crank/src/index.ts:434-468 | nothing once the round is known to exist; otherwise it is read and, if missing, a start is sent; it is remembered if and only if confirmed or read |
| Crank.Crank.LockAndVrf | crank/src/index.ts:470-534 | nothing before the deadline; after it the round is read, and an open one is locked, or passed over when empty or rejected for its minimum requirements; a lock is remembered only if confirmed or read |
| Crank.Crank.RequestVrf | crank/src/index.ts:536-563 | the round is read; a request is sent for a locked one a cooldown after the last, and only then |
| Crank.Crank.CloseBatch | crank/src/index.ts:623-634 | the closings sent are of the first closable accounts of the look, and the pass record says which were confirmed |
| Crank.Crank.CloseParticipants | crank/src/index.ts:573-674 | the pass is recorded with what was there and what was confirmed, and is rescheduled if and only if it left something pending |
| Crank.Crank.CleanUpRound | crank/src/index.ts:640-704 | a round that is due has its participants looked at and the first closable ones closed, and if nothing is left pending it is closed; then it is cleared, or its next attempt lies ahead, or an error is reported |
| Crank.Crank.Conclude | crank/src/index.ts:676-703 | after a pass that left nothing pending the round is read again: a missing one is cleared, a finished one closed and cleared once that is confirmed, any other rescheduled |
| Crank.Crank.ProcessRound | crank/src/index.ts:713-736 | a missing round is cleared; a finished one that is due is cleaned up; a failed or finished one is cleared or rescheduled, and no other round is |
| Crank.Crank.ProcessBackgroundRounds | crank/src/index.ts:708-737 | every background round is read in each pass, cleared if missing and cleaned up if finished and due, and only those are removed |
| Crank.Crank.Tick | crank/src/index.ts:741-825 | every background round is served; then the current round is read: a missing one is read again and started, an open one past its end read again and locked or passed over, a locked one read again and given its VRF request after the cooldown, each unless its guard says it was done; a finished one is passed on; otherwise nothing happens |
| Crank.Crank.RecoverBackgroundRounds | crank/src/index.ts:373-430 | on startup exactly the settled, claimed and cancelled rounds of the last ones are tracked |
| Crank.Crank.Run | crank/src/index.ts:876-881 | after any number of ticks no passed-over round is lost and the tables are consistent |
| CrankReads.ParseRound | crank/src/parser.ts:37-81 | on any buffer: a range error exactly below 144 bytes, keys from slices cut off by a short buffer; at the program's size every field is what the program reads |
| CrankReads.ParticipantsAgree | crank/src/parser.ts:54-60 | the key list agrees with the program's reader if and only if the stored count is at most 200 |
| CrankReads.ParseRoundMeta | crank/src/degenLogic.ts:118-129 | on any buffer; at the program's size status, total and degen mode as the program reads them |
| CrankReads.ParseRoundVrfPayer | crank/src/degenLogic.ts:141-147 | on any buffer; at the program's size a payer is reported if and only if the program still owes the reimbursement |
| CrankReads.ParticipantAgrees | crank/src/parser.ts:83-104 | every participant account the program can read, the crank reads as the same record |
| CrankReads.ConfigFeeAgrees | crank/src/degenLogic.ts:151-155 | a config reads if and only if long enough with a legal pause byte, and then the fee agrees |
| CrankReads.PayoutsAgree | crank/src/degenLogic.ts:164-173 | the quoted payout is the transferred one if and only if no reimbursement is due, the pot covers it or the fee is 100% |
| ActiveScan.ScanForActiveRound | crank/src/activeRoundScan.ts:26-70 | the batched scan is the one-by-one scan of (maxScan / batch + 1) * batch ids |
| ActiveScan.WindowCovers | crank/src/activeRoundScan.ts:31-40 | the window is the fewest whole batches that reach the last id asked for |
| ActiveScan.StopsAtGap | crank/src/activeRoundScan.ts:45-49 | the scan stops if and only if a round is followed by a full gap |
| ActiveScan.ScanKnows | crank/src/activeRoundScan.ts:42-62 | an unstopped scan knows the last round, the last active round and the run of missing ids |
| ActiveScan.GreatestActiveFound | crank/src/activeRoundScan.ts:26-70 | the greatest active round of the window is found if no gap comes before it |
| ActiveScan.AnswerIsFree | crank/src/activeRoundScan.ts:67-69 | with no active round seen the answer is the next id after the archive or after the last round looked at, whichever is later |
| RoundSearch.DescendingBatches | lib/api/actions-shared.ts:433-445 | every id from the start down to the end once, in order, in batches of at most the size |
| RoundSearch.FindLatestClaimable | lib/api/actions-shared.ts:447-470 | the greatest round of the window settled and won by the asker, and nothing if and only if there is none |
| RoundSearch.FindLatestRefundable | lib/api/actions-shared.ts:472-514 | the greatest cancelled round of the window where the asker's own participant account holds USDC, and nothing if and only if there is none |
| SearchOnChain.RefundableExact | jackpot_pinocchio_poc/src/handlers/claim_refund.rs:12-69 | the refund search looks for exactly the rounds where the program accepts the asker's claim_refund |
| SearchOnChain.ClaimableExact | jackpot_pinocchio_poc/src/handlers/claim.rs:15-98 | the claim search looks for exactly the rounds where the program accepts the asker's claim, or a degen claim was begun |
| SearchOnChain.ActiveExact | crank/src/activeRoundScan.ts:17-24 | the active scan takes a standing round as active exactly when the program would not close it |
| RoundSearch.FindMaxRoundId | src/hooks/useRoundHistory.ts:95-143 | it ends, never below the archive, at the last existing id before the first empty probe |
| RoundSearch.Bisect | src/hooks/useRoundHistory.ts:129-139 | the binary search always comes back to the last id the probe found |
| RoundSearch.MaxExact | src/hooks/useRoundHistory.ts:108-126 | the answer is the highest round if and only if no empty probe of 20 ids lies below an existing round |
| RoundSearch.GapHidesRounds | src/hooks/useRoundHistory.ts:108-126 | with rounds 1 and 41 alone the answer is 1 |
| Executor.TryCandidate | crank/src/degenExecutor.ts:558-658 | the nested loops attempt exactly what the rules allow next, and report a landed or timed-out attempt |
| Executor.ProcessCandidate | crank/src/degenExecutor.ts:536-684 | one candidate is skipped or tried, a timeout is followed by a status check, and the pass goes on to the next candidate unless a swap landed or is executing |
| Executor.ProcessReadyClaim | crank/src/degenExecutor.ts:501-733 | the pass follows the rules and the world, and the fallback is sent if and only if its time has come and the pass was not stopped early; told by the log alone: after an attempt too large the next account limit, after a slip the last resort or the next slippage step, after a timeout a status check, else the next candidate, to the end |
| Executor.LawfulIsWhole | crank/src/degenExecutor.ts:558-651 | every lawful log that leaves nothing to do is such a whole pass, event by event |
| Executor.EveryStepTried | crank/src/degenExecutor.ts:563-651 | in a whole pass a candidate that was attempted and given up without signature, timeout or other error had every slippage step tried |
| Executor.TruthfulTells | crank/src/degenExecutor.ts:536-560 | a candidate is tried if and only if it is USDC itself or its pre-check went through, and outcomes are taken in order |
| Executor.PassDetermined | crank/src/degenExecutor.ts:536-733 | the rules leave no choice: two passes over the same outcomes agree |
| Executor.AttemptsOrdered | crank/src/degenExecutor.ts:536-651 | attempts go by increasing candidate, then slippage step, then account limit |
| Executor.AttemptsBounded | crank/src/degenExecutor.ts:536-651 | at most candidates x max(1, slippage steps) x (account limits + 1) attempts |
| Executor.BoundExact | crank/src/degenExecutor.ts:536-651 | at most candidates x slippage steps x (account limits + 1) attempts in every pass if and only if there is a slippage step or no candidate is USDC itself |
| Executor.NothingAfter | crank/src/degenExecutor.ts:583-589 | nothing follows a signature, a check that saw the claim executing, or the fallback |
| Executor.FallbackOnlyWhenAllFailed | crank/src/degenExecutor.ts:686-733 | the fallback comes only after every candidate was tried or skipped, none landed and none was executing |
| Executor.NoSlippageNoAttempts | crank/src/degenExecutor.ts:563-565 | without slippage steps nothing but USDC itself is attempted |
| Executor.DirectWithoutSlippage | crank/src/degenExecutor.ts:558-565 | in every setup with a candidate that is USDC itself some pass attempts it |

## Left out

- `start_round`: its account writes; the fresh round it makes is where a life begins.
- Token accounts, program-derived addresses, signers and discriminators: one flag per instruction says whether those
  checks passed; the tokens moved are the amounts the handlers compute.
- Admin instructions, `init_config` arguments and the token account views: they change or read accounts no round
  instruction writes; the config a round instruction sees is any config.
- SHA-256 (section 6.2 of FIPS 180-4) is any function yielding 32 bytes; the randomness is any 32 bytes.
- Networks, RPC, Firebase, Jupiter, social publishing, transaction building and the user interface.
- Round state observation, stuck-round warnings and health logs of the crank: they only log.
- `scanRoundIds` of the API: a variant of the active scan with a cache.
- Error messages: an attempt's outcome is given by its class; how a message is recognised is not modelled.
- Settings read from the environment are taken to be whole numbers, with 0 < minimum delay <= maximum delay, and batches
  of at least one; numbers of the services are unbounded integers.
- PotDelivery.DeliveryExact: counts the tokens that arrive, not which token it is or what it is worth; the program does
  not compare the mint with the candidates of the claim.
- Crank.Crank.Now: the clock does not go back.
- Crank.Crank.RecoverBackgroundRounds: every account of the window is fetched and parsed; a failed fetch ends the
  service in the source.
- Cleanup.CleanupParticipants: one answer per address comes back for each chunk.
- Candidates.DeriveCandidates: states nothing when some rank has no nonce, because the source then never returns.
- RoundHandlers.DepositHandler: says nothing of the bytes after a failure, because a failed transaction is rolled back
  by the chain; token and vault checks are one flag.
- RoundHandlers.CancelHandler: the same.
- RoundSearch.FindMaxRoundId: the set of rounds is finite and does not change during the search.
