# Veld pool and custody verification

A Dafny model of two parts of Veld: the mining pool's money and work engine (journal, work coordinator,
accounting, rewards, payments, operator identity, display totals) and the evidence verifier for funded
custody drills (transaction parsing, inclusion proofs, compact targets, secp256k1), together with the
public explorer's assembly of block pages. `dafny verify dfyconfig.toml` checks everything.

## How it is modelled

* Code that updates fields or loops is a class or a method with a loop, proved against a pure function;
  what the code promises is then proved of that function for every input, every run or every reachable state.
* Concurrency is a state machine over lock-held sections (`ReceiptProtocol`); a run is any sequence of
  steps, restarts included. A job enters it with its targets and fee in range, and a lease apart from the
  leases before it; that the coordinator issues only such jobs and leases is `NewJobGood` and `IssuedApart`.
* The journal's disk keeps apart what is written and what is synced. Opens and appends can stop at each write,
  sync and rename; a stopped process leaves what it wrote, and a power loss takes back any part of what was
  not synced, possibly inside a line. The index is synced by its own commits.
* A dictionary is a `map`. Iterating over one visits its keys in an arbitrary order
  (`Orders.Enumerate`, `Orders.Order`), so results hold for whatever order the original dictionary has.
* The node, the clock, the signing helper and random identifiers are parameters. Every answer of the node is
  arbitrary unless a lemma states a hypothesis about it.
* Exact fractions are `real`, except in the floor of a sum, which works on numerators and denominators.
* SHA-256 and its uses are function parameters. Where a result needs it, collision freedom is a stated
  hypothesis: on the strings involved (`Bytes.CollisionFree`), or injectivity (`JournalLog.Injective`,
  `PaymentBooks.CollisionFree`).
* Curve results take as hypotheses that the field modulus is prime and that affine addition is associative
  (`Secp256k1.GroupHypotheses`). That the formulas stay on the curve, project to affine addition and that
  inverses are powers (Fermat's little theorem) is proved.

## Findings

* The partial pass of income reconciliation equals the full pass exactly when every income is covered
  (`IncomeLedger.Covered`): its block is on the chain, or it is orphaned, or it is mature, pending and above
  the cached tip. Incomes at or below the cached tip are covered; a recent pending income above it whose
  block was replaced is not (`AboveTipDiffers`), and stays pending until the chain stops extending the tip.
* Two live identity transactions can hold one coin: an expired near-miss entry releases its coin and can
  still confirm afterwards (`LiveTransactionsCanShare`). In a run they never do exactly when no expired
  transaction is found in a block while another holds its coin (`RunApartIff`, `ReconciledApartIff`).
* The standard inclusion proof of a transaction is accepted exactly when no two siblings on its path hash
  alike, since equal siblings are refused (`StandardProofAcceptedIff`).
* A journal whose very first open stopped between creating the log and writing its anchor cannot be opened
  again (`UnanchoredStart`, `StuckStays`).
* Opening anchors and indexes whatever lines it reads without syncing the log. If a process stopped between
  writing and syncing a group, the next one opens, and power is lost, the anchor is ahead of the log and no
  open succeeds again (`UnsyncedReopen`). In a run anchor and index name synced lines only, exactly when no
  open commits over unsynced ones (`RunSyncedIff`), and then only a torn line or a missing anchor refuses
  (`UnexposedRecovers`). No acknowledged event is lost either way (`AcknowledgedStays`).
* One hundred backend reads suffice for every pattern of refusals up to thirty-three blocks; a backend that
  refuses every page cannot serve more than that without a cache, although pages of fifty are allowed.

## Model

| member | source | states |
|---|---|---|
| Journals.RunConsistent | pool/journal.py:72-236 | after any sequence of opens, appends, closes and power losses, each stopping anywhere, the log is exactly the history of what was written and not taken back, and anchor and index name only what it holds or has held |
| Journals.RunRecovers | pool/journal.py:72-153 | an open recovers exactly what the log holds, in order, with index equal to log; it refuses exactly when a line is torn, an existing log has no anchor, or anchor or index name more lines than the log has |
| Journals.AcknowledgedStays | pool/journal.py:196-236 | an acknowledged group and all before it stay at the start of the log through every later stop and power loss, and of everything recovered later |
| Journals.SyncedStays | pool/journal.py:224-231 | synced events stay in the log however the run continues |
| Journals.AppendAcknowledges | pool/journal.py:196-236 | a fault-free append within bounds on a live journal commits its whole group, with everything in the log synced |
| Journals.OpenIff | pool/journal.py:72-153 | on a consistent disk opening succeeds exactly when no line is torn, an existing log has its anchor, and neither anchor nor index is ahead of the log |
| Journals.OpenKeeps | pool/journal.py:72-153 | opening, stopped at the name sync, the index commit, the rename or the directory sync, keeps disk and history consistent |
| Journals.AppendKeeps | pool/journal.py:196-236 | appending, stopped in the write or before the log sync, the rename, the directory sync or the index, keeps disk and history consistent |
| Journals.LossKeeps | pool/journal.py:125-152 | a power loss of any unsynced part keeps disk and history consistent |
| Journals.LossShelteredIff | pool/journal.py:125-152 | a journal that opens still opens after every power loss that tears no line, exactly when its anchor is synced and anchor and index name synced lines only |
| Journals.OpenSheltersIff | pool/journal.py:125-152 | an open leaves the journal so exactly when every line it read was synced |
| Journals.RunSyncedIff | pool/journal.py:72-236 | in a run anchor and index always name synced lines exactly when no open commits over unsynced ones |
| Journals.UnexposedRecovers | pool/journal.py:72-153 | in such a run an open refuses exactly for a torn line or a missing anchor |
| Journals.UnsyncedReopen | pool/journal.py:125-152 | the run write, stop before sync, reopen, power loss: the anchor is ahead of the log and opening is refused |
| Journals.UnanchoredStart | pool/journal.py:95-101 | the run whose first open stops before its anchor: the log exists, the anchor does not, and opening is refused |
| Journals.StuckStays | pool/journal.py:72-153 | a refusal of a wholly synced disk is final |
| JournalLog.AnchoredEventsSurvive | pool/journal.py:72-153 | a log that lacks or alters any anchored event is refused |
| JournalLog.ChainBinds | pool/journal.py:110-140 | equal end digests of equally long chains mean equal chains |
| JournalLog.RecoverSound | pool/journal.py:72-153 | what recovery accepts is a hash chain from the start that holds the anchored event, with the index equal to it |
| JournalLog.RecoverComplete | pool/journal.py:72-153 | a whole log with an anchor and index that are prefixes of it is recovered |
| Journals.Journal.Open | pool/journal.py:72-153 | opening does what the model's open step does, fault by fault |
| Journals.Journal.ScanLog | pool/journal.py:103-140 | the line loop computes the scan |
| Journals.Journal.BuildGroup | pool/journal.py:196-214 | the group's lines continue the chain, or the group is refused for size |
| Journals.Journal.IndexAll | pool/journal.py:171-187 | indexing a group in order, refused on a conflicting row |
| Journals.Journal.AppendMany | pool/journal.py:196-236 | appending does what the model's append step does, write, sync, rename, directory sync and index each a step, and returns the sequence numbers |
| Journals.Journal.Events | pool/journal.py:238-271 | reading yields the events of the log in order, or fails on a changed log |
| WorkLeases.LeasesDisjoint | pool/coordinator.py:78-83 | leases of one template never overlap, whichever jobs they were issued under |
| WorkLeases.EndCovers | pool/coordinator.py:78-83 | every recorded lease is a nonempty range below its template's high-water mark and within 2^64 |
| WorkLeases.GroupApart | pool/coordinator.py:243-266 | a reserved group keeps all leases apart however much of it reaches the disk |
| WorkLeases.MakeGroup | pool/coordinator.py:244-257 | the group is up to eight consecutive ranges that fit below 2^64 |
| WorkLeases.Rebuild | pool/coordinator.py:61-62 | replaying leases rebuilds every template's high-water mark |
| WorkLeases.LeaseDesk.Work | pool/coordinator.py:240-275 | a lease is the caller's own, of the active job, and was never served before; one is always served while nonces are left and nothing fails |
| WorkLeases.LeaseDesk.NewGroup | pool/coordinator.py:243-266 | a new group of up to eight consecutive ranges starts at the high-water mark; made exactly when the append succeeds and the nonce space is not exhausted, which changes nothing |
| WorkLeases.LeaseDesk.Serve | pool/coordinator.py:267-275 | the first lease is served unless the work expired, the rest joins the cache, and the oldest slot of a full cache is dropped |
| WorkLeases.LeaseDesk.Restart | pool/coordinator.py:44-62 | a restart empties the cache and rebuilds the marks |
| WorkLeases.LeaseDesk.ServedApart | pool/coordinator.py:240-275 | served leases of one template are disjoint subranges of [0, 2^64) |
| ReceiptProtocol.RunSafe | pool/coordinator.py:538-692 | every interleaving keeps the protocol invariant and exact counts |
| ReceiptProtocol.RunLater | pool/coordinator.py:84-99 | settled statuses and owners never change later in a run; new shares come later in the journal |
| ReceiptProtocol.QueueBounded | pool/coordinator.py:571-585 | verifications in flight, permits and unsettled shares never exceed the capacity |
| ReceiptProtocol.OneOwner | pool/coordinator.py:557-566 | a template and nonce name at most one record, and it belongs to the owner of the only lease that covers the nonce |
| ReceiptProtocol.IssuedApart | pool/coordinator.py:243-266 | every lease the desk records is apart from those recorded before it |
| ReceiptProtocol.NewJobGood | pool/coordinator.py:221-237 | every job the coordinator issues has its target and fee in range |
| ReceiptProtocol.IdentityInjective | pool/coordinator.py:565 | different shares have different identity texts |
| ReceiptProtocol.RunReplays | pool/coordinator.py:69-133 | replaying the journal rebuilds every record, count and number the live process holds |
| ReceiptProtocol.StepKeeps | pool/coordinator.py:538-692 | each atomic step keeps the invariant and changes no settled share |
| ReceiptProtocol.StepCounted | pool/coordinator.py:84-99 | each step keeps the unsettled count and the verified counts equal to their recomputation |
| Coordination.Verdict | pool/coordinator.py:621-630 | a share is verified exactly when its proof meets the share target and its parent still stands; a verdict always settles |
| Coordination.Coordinator.Submit | pool/coordinator.py:557-606 | submission is the protocol's admission step, with the source's order of checks; a failed record changes nothing |
| Coordination.Coordinator.RetryDeferred | pool/coordinator.py:538-555 | the earliest deferred share not in flight is retried within the same bounds |
| Coordination.Coordinator.RecordStatus | pool/coordinator.py:87-99 | recording a status updates both counts with the record |
| Coordination.Coordinator.Proceed | pool/coordinator.py:608-692 | each stage of a verification is a protocol step |
| Coordination.Coordinator.SettleShare | pool/coordinator.py:621-641 | the recorded status is the verdict on the proof |
| Coordination.Coordinator.RecordSolution | pool/coordinator.py:643-658 | a solving share fixes its block's cutoff at its own sequence number, once |
| Coordination.Coordinator.Restart | pool/coordinator.py:61-66 | after a restart nothing is in flight and no share is left pending |
| Beneficiaries.Frozen | pool/coordinator.py:135-139 | once nothing up to a cutoff is unresolved, the verified shares up to it never change again in any run |
| Beneficiaries.SolutionWeightsFrozen | pool/coordinator.py:422-451 | a solution's PPLNS weights are the same whenever computed after that |
| Beneficiaries.SealWeightsFrozen | pool/rewards.py:113-120 | a sealed window's weights are the same whenever computed after that |
| Beneficiaries.SolutionHasBeneficiary | pool/coordinator.py:641-658 | the solving share is itself verified at the cutoff, so the window is never refused and never empty |
| Accounting.WeightsAdd | pool/accounting.py:33-38 | adding a receipt's clipped work keeps the weights equal to the laid-end-to-end window |
| Accounting.WindowFull | pool/accounting.py:39-40 | once the window is full no later receipt adds or refuses anything |
| Accounting.FillWindow | pool/accounting.py:26-41 | weights are positive, name exactly the credited keys, and sum to the lesser of window and eligible work; refused exactly when a malformed receipt lies inside the window |
| Accounting.WeightsUnique | pool/accounting.py:26-41 | the credits determine the weights |
| Accounting.StreamNeedsNoSort | pool/accounting.py:30-32 | a pre-ordered stream and a sorted list are the same sequence |
| Accounting.Pplns | pool/accounting.py:26-41 | the window spans twice the network's expected work, sorted or pre-ordered |
| Accounting.WindowWeights | pool/accounting.py:44-54 | all verified work in a height range, by beneficiary, positive and summing to that work |
| Accounting.ExpectedWork | pool/accounting.py:13-16 | the exact quotient of 2^256 by the target, more than one hash |
| Allocation.Allocate | pool/accounting.py:57-64 | credits are proportional and credits plus fee equal the amount exactly; refused exactly for bad amounts, rates, weights or no beneficiaries |
| Allocation.AllocatePolicy | pool/accounting.py:71-81 | for every mix of fee rates, credits plus fee equal the amount; refused exactly on a rate above a million |
| Allocation.AnyOrderCharges | pool/accounting.py:76-80 | in whatever order shares are visited, fee and account credits are the exact sums |
| Allocation.PolicyNonnegative | pool/accounting.py:76-80 | no account is charged more than it earned |
| FloorTotals.FloorTotal | pool/accounting.py:84-116 | the floor of the exact sum for every list of fractions; refused exactly on a negative one |
| FloorTotals.GroupsTotal | pool/accounting.py:92-94 | grouping numerators by denominator keeps the exact sum |
| FloorTotals.Interval | pool/accounting.py:97-104 | the fixed-point bounds enclose the scaled sum, strictly when a term was rounded, in any order |
| FloorTotals.FloorEnclosed | pool/accounting.py:105-108 | the floor lies between the floors of the bounds, so equal bounds give it |
| FloorTotals.SumByPairs | pool/accounting.py:109-116 | balanced pairwise addition ends with the exact sum |
| FloorTotals.PairwiseSum | pool/accounting.py:112-115 | one pass of pairs keeps the sum and shortens the list |
| RewardSeals.WindowsApart | pool/rewards.py:37-59 | windows of different draws of a category never overlap |
| RewardSeals.Rewards.SealDue | pool/rewards.py:37-59 | every draw due one block later is sealed once, lottery first, each with the journal's position as cutoff; seals never change |
| RewardSeals.Rewards.Distribute | pool/rewards.py:98-152 | a receipt waits exactly while a share its cutoff admits is unsettled, is quarantined exactly for want of a seal or contributors, and is otherwise shared out whole among the window's contributors |
| Payouts.EligibleGroups | pool/payments.py:132-142 | exactly the destinations whose accounts together reach the minimum, with all those accounts |
| Payouts.SelectGroups | pool/payments.py:307-314 | groups in ascending order, each in full while funding lasts, at most 128, and it stops only when all are served, 128 are, or less than the minimum is left |
| Payouts.SelectedUnique | pool/payments.py:307-314 | the claimants and the funding determine who is served and with how much |
| Payouts.ServeEach | pool/payments.py:309-314 | each served group receives between the minimum and what it is owed |
| Payouts.ServeTotal | pool/payments.py:309-314 | what is served and what is left add up to the funding |
| Payouts.LiftChange | pool/payments.py:315-321 | only the largest payment is lowered, by just enough, and dropped below the minimum |
| Payouts.AdjustedRelays | pool/payments.py:315-321 | change is zero or at least dust and every payment stays at least the minimum |
| Payouts.TakesExactly | pool/payments.py:323-333 | a group's takes sum exactly to its payment, from no account more than it is owed |
| Payouts.TakeFrom | pool/payments.py:326-332 | accounts are debited in ascending order, each in full until the amount is used up |
| Payouts.DebitsDivide | pool/payments.py:322-333 | the debits of all groups together sum to the payments and stay within each group |
| Payouts.DivideFunding | pool/payments.py:307-333 | the whole division: groups served in turn then change lifted, each group's accounts debited in ascending order for exactly its payment, 128 groups, minimum, owed, relayable change |
| Payouts.DivisionUnique | pool/payments.py:307-333 | the division of a funding is unique, whatever order the groups are debited in |
| Funding.Gather | pool/payments.py:264-296 | the shortest run of usable coins, largest first, that is enough, or as many as exist or fit |
| Funding.SortCoinsOrders | pool/payments.py:265-268 | coins are tried by descending value, then by identity |
| Funding.GatheredOnly | pool/payments.py:269-281 | every selected coin is listed, unreserved, allowed, mature and positive |
| Funding.GatheredUnique | pool/payments.py:264-296 | the coins in order, the need and the room determine the selection |
| Entitlements.Available | pool/payments.py:117-130 | payable is the floor of exact available credit less all deductions; refused exactly on a negative credit or a deficit |
| Entitlements.ListsTotal | pool/payments.py:118-123 | an account's collected credits add up to its exact available credit |
| Entitlements.DeductionsOf | pool/payments.py:67-72 | deductions by account over all payments, or over one batch |
| PaymentBooks.RunSound | pool/payments.py:49-65 | replaying any lawful journal gives books with disjoint inputs, batches within quota, balanced payments and exact totals |
| PaymentBooks.RunKeeps | pool/payments.py:49-65 | bodies, batches and recorded signatures never change for the rest of a run |
| PaymentBooks.DeductedNeverFalls | pool/payments.py:67-72 | no step releases a deduction |
| PaymentBooks.LawfulKeeps | pool/payments.py:49-65 | each lawful event keeps the books sound and forgets nothing |
| PaymentBooks.ReserveFresh | pool/payments.py:355-363 | a payment over unreserved coins gets a new identity |
| PaymentBooks.PutDisplays | pool/overview.py:60-64 | paid units and confirmed count follow every change of a record exactly |
| PaymentEngine.PayAddresses | pool/payments.py:337-344 | each address is paid what its accounts are debited; a payout to the pool or its fee wallet is refused |
| PaymentEngine.AllowedPoints | pool/payments.py:226-238 | exactly the outputs of available incomes and the pool-script change of confirmed payments; refused exactly when a confirmed payment's transaction is missing |
| PaymentEngine.SelectCoins | pool/payments.py:239-306 | pool and fee coins gathered as the rules say, within 64 inputs, with liabilities backed and fee change zero or at least dust; waits only when the pool coins fall short of the minimum, and over a complete history refuses only for a backing deficit or insufficient fees |
| PaymentEngine.ChosenOnly | pool/payments.py:264-281 | every chosen coin is unreserved and every pool coin carries available income or confirmed change |
| PaymentEngine.StillOwed | pool/payments.py:172-197 | exactly the groups a frozen batch still owes its minimum; refused exactly when a destination changed, a quota is overdrawn or an account has no destination |
| PaymentEngine.ComposeBatch | pool/payments.py:204-220 | a new batch freezes exactly what is payable to destinations reaching the minimum; refused exactly when a payable account has no address |
| PaymentEngine.ComposeBody | pool/payments.py:222-361 | a composed payment is balanced, over unreserved coins, within its groups, and is the division of the coins chosen; why none is composed is stated too |
| PaymentEngine.ComposedUnique | pool/payments.py:222-361 | the books and the node's answers determine what a payment spends and whom it debits |
| PaymentEngine.Payments.Plan | pool/payments.py:144-364 | a created payment leaves every account's deductions within the floor of its exact available credit, spends only allowed coins, divides them among a batch's dues and pays each account's own address; faults, pauses and deficits change nothing |
| PaymentEngine.Payments.OpenBatch | pool/payments.py:172-197 | the newest batch and exactly the groups it still owes; none only if there is no batch or it owes nobody the minimum |
| PaymentEngine.Payments.PlanDue | pool/payments.py:222-364 | why a batch's dues are not paid yet: too little gathered, income gone, a backing deficit or insufficient fees |
| PaymentEngine.Payments.FreezeBatch | pool/payments.py:198-221 | a new batch of exactly the eligible groups is frozen only when every batch and payment is old enough, under a new identity; none only if one is recent or nobody is eligible |
| PaymentEngine.Payments.Reserve | pool/payments.py:355-364 | a reservation adds one payment and stays within batch quotas and exact available credits |
| PaymentEngine.Payments.Sign | pool/payments.py:366-424 | a signature is recorded once, for covered deductions over unspent inputs, and its identity is the hash of its bytes |
| PaymentEngine.Payments.Reconcile | pool/payments.py:426-490 | only state, block and notice can change; reported confirmed exactly when the node's own chain holds it, unless the journal fails |
| PaymentEngine.Payments.ApplyEvent | pool/payments.py:49-61 | one event's effect on records and display totals |
| IncomeLedger.PassesAgreeIff | pool/coordinator.py:469-505 | the partial pass equals the full pass if and only if every income is covered |
| IncomeLedger.BelowTipCovered | pool/coordinator.py:394-404 | on a view extending the cached tip, incomes at or below it that agreed with it are covered |
| IncomeLedger.IncrementalReconciliation | pool/coordinator.py:394-511 | with all incomes at or below the cached tip the two passes are one |
| IncomeLedger.FullPassAgrees | pool/coordinator.py:476-505 | a full pass leaves every income agreeing with the view |
| IncomeLedger.PartialPassAgreesIff | pool/coordinator.py:476-511 | a partial pass leaves the ledger agreeing if and only if incomes above the cached tip are covered |
| IncomeLedger.AboveTipDiffers | pool/coordinator.py:476-482 | an income above the cached tip on which the passes differ |
| IncomeLedger.SharedPrefix | pool/coordinator.py:400-404 | chains that share a block share everything below it |
| IncomeBooks.BooksExact | pool/overview.py:15-38 | totals by category, blocks won and the recent list equal their recomputation after any writes, live or replayed |
| IncomeBooks.PutExact | pool/overview.py:21-38 | each update keeps them exact |
| IncomeBooks.IncomeBook.Write | pool/coordinator.py:108-122 | writing an income updates totals, blocks and list with it |
| IncomeBooks.IncomeBook.Track | pool/coordinator.py:483-505 | the transitions recorded for one income |
| IncomeBooks.IncomeBook.Reconcile | pool/coordinator.py:469-511 | a full pass without a cached tip or after a reorganisation, else a partial one; the tip is cached only if the chain held still |
| RecentBlocks.UpdateKeeps | pool/overview.py:29-38 | the list holds the twelve greatest heights seen, each once, greatest first |
| IdentityBooks.RunSound | pool/identity.py:61-101 | every identity input leads back to the funding manifest through once-confirmed non-stake outputs, and coins are shared only after an expiry |
| IdentityBooks.RunKeeps | pool/identity.py:48-56 | recorded transactions and their signatures never change |
| IdentityBooks.LiveTransactionsCanShare | pool/identity.py:81-89 | a run in which two live transactions hold one coin |
| IdentityBooks.ApplyApartIff | pool/identity.py:103-143 | live transactions stay apart exactly when the event does not revive an expired one whose coin another holds |
| IdentityBooks.RunApartIff | pool/identity.py:61-143 | in a run live transactions are always apart exactly when none is revived so |
| IdentityEngine.ReconciledApartIff | pool/identity.py:103-143 | following a transaction keeps live ones apart exactly unless it is expired, contested and found in a block |
| IdentityBooks.FreeDescends | pool/identity.py:61-101 | a coin that may be spent leads back to the manifest |
| IdentityEngine.Identity.Allowed | pool/identity.py:61-101 | exactly the unspent coins that are authorized and unheld, each at its recorded value, largest first; why it refuses is stated too |
| IdentityEngine.Identity.OfferedFree | pool/identity.py:61-101 | such coins are positive, in order and free to spend |
| IdentityEngine.Identity.Authorized | pool/identity.py:61-80 | exactly the manifest's coins and confirmed change at their amounts, stake backing never among them; refused when a confirmed transaction is missing or a miner's coin is authorized |
| IdentityEngine.CollectAuthorized | pool/identity.py:62-72 | the list is refused exactly when a confirmed transaction is not in its recorded block |
| IdentityEngine.Identity.Choose | pool/identity.py:211-299 | exactly the transaction the node's state and the coins on offer call for: a stake, a consolidation, an entry over the smallest coin that pays, or none; refused only without a coin list or on a partial stake |
| IdentityEngine.Identity.Maintain | pool/identity.py:193-311 | a round follows every transaction, signs a reserved one first, waits while a signed one is unconfirmed, and otherwise chooses, records once, signs and follows again |
| IdentityEngine.Identity.Sign | pool/identity.py:153-191 | a signature is recorded once, exactly when the answer is its bytes' hash within bounds, and never replaced |
| IdentityEngine.Identity.Reconcile | pool/identity.py:103-151 | confirmed, expired or signed as the chain says, with body and signature untouched |
| IdentityEngine.SmallestFor | pool/identity.py:270-278 | the smallest coin that pays the fee without leaving dust |
| BlockPages.Pager.Page | scripts/veld-public-stats.py:157-211 | a returned page has the requested heights, is linked, equals one unsplit read of an honest backend, takes at most 100 reads, and is always returned up to 33 blocks |
| BlockPages.Pager.Collect | scripts/veld-public-stats.py:168-202 | splitting, single reads and cached blocks give the run one read would; at most 3n-1 reads for n blocks |
| BlockPages.Pager.FillGaps | scripts/veld-public-stats.py:169-184 | cached blocks and collected runs together are the run one read would give |
| BlockPages.Validate | scripts/veld-public-stats.py:133-154 | accepts exactly descending, linked pages whose hash texts, times, sizes and counts are in range |
| BlockPages.RememberAll | scripts/veld-public-stats.py:90-98 | new blocks are the most recent entries, the oldest beyond 512 are dropped, and the cache stays part of the chain |
| BlockPages.RememberedFound | scripts/veld-public-stats.py:90-98 | every block of a run that fits the cache is found afterwards |
| Transactions.ParseSerialize | scripts/validate-funded-custody-drill.py:342-409 | parsing inverts serialization for every transaction within the limits |
| Transactions.SerializeParse | scripts/validate-funded-custody-drill.py:342-409 | every accepted byte string re-serializes to itself |
| Transactions.ParseIff | scripts/validate-funded-custody-drill.py:342-409 | the accepted strings are exactly the serializations of valid transactions |
| Transactions.BaseIff | scripts/validate-funded-custody-drill.py:394-409 | two transactions have one base serialization exactly when they differ at most in witness data |
| Transactions.BaseIsWholeIff | scripts/validate-funded-custody-drill.py:394-409 | the base is the whole exactly when there is no witness |
| Transactions.IdentitiesIff | scripts/validate-funded-custody-drill.py:394-409 | txids agree exactly when transactions agree up to witness data, and equal wtxids exactly without a witness |
| Transactions.ParseTransaction | scripts/validate-funded-custody-drill.py:342-409 | the parser's loops compute that parse, with both identities |
| Readers.VarintBack | scripts/validate-funded-custody-drill.py:271-303 | decoding inverts CompactSize encoding on all 64-bit values |
| Readers.VarintForth | scripts/validate-funded-custody-drill.py:293-303 | every accepted CompactSize re-encodes to itself |
| Readers.Reader.Varint | scripts/validate-funded-custody-drill.py:293-303 | the reader's variable-length integer with its position, and its bytes, which are its minimal encoding |
| Readers.Reader.Vector | scripts/validate-funded-custody-drill.py:305-310 | a length-prefixed vector within its maximum, and its bytes with the prefix |
| TxOutProofs.AcceptedIsIncluded | scripts/validate-funded-custody-drill.py:412-475 | an accepted proof over the block's number of leaves names one of its transactions |
| TxOutProofs.StandardProofAcceptedIff | scripts/validate-funded-custody-drill.py:412-475 | the standard proof of any transaction is accepted exactly when no two siblings on its path hash alike |
| TxOutProofs.VerifyPartialMerkleProof | scripts/validate-funded-custody-drill.py:412-475 | the verifier accepts exactly the proofs the reference describes |
| TxOutProofs.Walker.Descend | scripts/validate-funded-custody-drill.py:449-466 | the recursive walk consumes exactly the flags and hashes of the reference walk |
| TxOutProofs.UnpackPack | scripts/validate-funded-custody-drill.py:441-447 | packed flag bits read back in order |
| PartialMerkle.WalkSound | scripts/validate-funded-custody-drill.py:449-466 | a walk that reaches a tree's root matched only ids of that tree |
| PartialMerkle.WalkBuilt | scripts/validate-funded-custody-drill.py:449-466 | the walk of a standard proof matches its one id and consumes everything |
| MerkleTree.BlockTreeProperties | scripts/validate-funded-custody-drill.py:438-466 | the tree the walk assumes has the block's ids as leaves and its Merkle root as hash |
| CompactTargets.AcceptedIff | scripts/validate-funded-custody-drill.py:1030-1042 | nBits is accepted exactly when canonical and within the limit |
| CompactTargets.CanonicalRoundTrip | scripts/validate-funded-custody-drill.py:1030-1054 | encoding a canonical value's target restores it |
| CompactTargets.EncodeRoundTrip | scripts/validate-funded-custody-drill.py:1045-1054 | decoding an encoded target gives its rounding, and encoding that again changes nothing |
| CompactTargets.EncodeDecodes | scripts/validate-funded-custody-drill.py:1045-1054 | every positive target encodes to fields that decode to its rounding |
| CompactTargets.RoundedGreatest | scripts/validate-funded-custody-drill.py:1045-1054 | rounding gives the greatest representable value not above the target |
| CompactTargets.RoundedLaws | scripts/validate-funded-custody-drill.py:1045-1054 | rounding is monotone, idempotent and loses less than one part in 2^15 |
| CompactTargets.StatsAgrees | scripts/veld-public-stats.py:297-303 | the explorer's encoder agrees on every positive target |
| CurveArithmetic.DoubleProjects | scripts/validate-funded-custody-drill.py:499-509 | doubling projects to affine addition of the projection to itself |
| CurveArithmetic.AddMixedProjects | scripts/validate-funded-custody-drill.py:512-533 | mixed addition projects to affine addition, every special case included |
| CurveArithmetic.AddProjects | scripts/validate-funded-custody-drill.py:536-559 | general addition projects to affine addition, every special case included |
| CurveArithmetic.PointAddCloses | scripts/validate-funded-custody-drill.py:482-496 | affine addition stays on the curve |
| CurveArithmetic.JacobianCloses | scripts/validate-funded-custody-drill.py:499-559 | the Jacobian formulas stay on the curve |
| CurveArithmetic.ProjectsToAffine | scripts/validate-funded-custody-drill.py:562-568 | conversion gives the one affine point a triple stands for |
| ModularArithmetic.InverseByPower | scripts/validate-funded-custody-drill.py:491-494 | the power p-2 is the inverse modulo a prime |
| ScalarMultiplication.DoubleAndAdd | scripts/validate-funded-custody-drill.py:571-581 | the double-and-add loop computes scalar times point |
| ScalarMultiplication.BuildTables | scripts/validate-funded-custody-drill.py:590-609 | the 64 tables of 16 hold every digit's multiple at every position |
| ScalarMultiplication.WindowSum | scripts/validate-funded-custody-drill.py:612-621 | the window loop computes point plus scalar times the generator |
| Secp256k1.PointMul | scripts/validate-funded-custody-drill.py:571-581 | scalar multiplication on secp256k1 for every scalar |
| Secp256k1.FormulasSound | scripts/validate-funded-custody-drill.py:482-568 | the source's formulas are a projecting monoid, given the hypotheses |
| Secp256k1.GeneratorOnCurve | scripts/validate-funded-custody-drill.py:37-41 | the generator is on the curve |
| Secp256k1.Generator.Windows | scripts/validate-funded-custody-drill.py:590-609 | the tables are built once and cached |
| Secp256k1.Generator.PointPlusGeneratorMul | scripts/validate-funded-custody-drill.py:612-621 | point plus scalar times generator for every scalar in range |

## Left out

- Service plumbing (`pool/gateway.py`, `pool/admin.py`, `pool/service.py`, `pool/worker.py`, `pool/backend.py`, `pool/native.py`): transport and processes, no state of its own to reason about.
- Account registration, authentication and rate limits in `pool/coordinator.py`: accounts enter as identifiers with addresses.
- The first phase of income reconciliation, which records a new mining income: its weights and allocation are modelled (`Pplns`, `AllocatePolicy`), its checks of the coinbase outputs are not.
- `Coordination.Coordinator`: block submission to the node and the `earned` record are not modelled, only the solution record that fixes the cutoff.
- `pool/operator.py`: only the pause flag, minimum and interval enter, as a world the planner sees.
- JSON text, file permissions, file locks and SQLite: a record store is a map, a log line is an event or a torn write.
- `IdentityEngine.Identity.Maintain`: broadcasting and the status text are not modelled, and which near-miss proof is used is a parameter.
- `RewardSeals.Rewards.Distribute`: reading the address history page by page and matching outputs are not modelled; the category, draw, parent and amount of a receipt are parameters.
- The reader's cache of whole responses in the explorer: it repeats earlier answers, which are arbitrary here.
- Descriptor, taproot and signature checks of the custody validator, and its report schemas: long case lists over the arithmetic modelled here.
- Hash-rate display (`WorkOverview`): a floating clock, display only.
- `Secp256k1.GroupHypotheses`: primality of the field modulus and associativity of affine addition are hypotheses, not proved.
