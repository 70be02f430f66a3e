# PYRAX: a Dafny model of its stateful cores

This project models the parts of the PYRAX repository that keep state or promise a law, and proves what they
promise for every input, every run and every reachable state:

- the approval **workflow engine** of the marketing portal (`Workflow*.dfy`);
- the node's **chain database**, block validator, block ingest, mining step and rollback (`Chain*.dfy`), its
  **Merkle root** (`Merkle.dfy`) and the **nonce searches** of node and desktop miner (`NonceSearch.dfy`);
- the portal's **rate limiter** (`RateLimit.dfy`);
- the wallet's **derivation paths**, **key derivation** and **checksummed addresses** (`DerivationPath.dfy`,
  `KeyDerivation.dfy`, `ChecksumAddress.dfy`);
- the AI **job marketplace** and the **n-of-m vote** on job results (`Marketplace*.dfy`, `RedundantVote.dfy`);
- the **locale merge** of the website (`LocaleMerge.dfy`).

Code that updates rows, maps or vectors in place is a class or a method with loops, proved equal to a function on
values; the theorems are about runs of those functions. `hide` statements inside proofs only keep the verifier from
unfolding definitions a proof does not need.

## How the source is read

- **Workflow.** A store holds users, templates, proofs with their upload times, instances with their decisions, and
  one audit log. A run is any sequence of instance creations, decisions, cancellations, uploads and clock ticks. One
  engine call is one step. Users and templates are fixed during a run, and every template has a step (the template
  route refuses an empty list). The engine orders rows by time and then uses only the newest time, so the model takes
  the maximum and does not depend on how ties are broken.
- **Chain.** A block carries its hash. Theorems about runs assume, in `ChainInvariant.Sound`, that hashing is
  collision-free on the blocks of the run and never zero, and that a block's encoding is at least as long as each of
  its output lists. Totals wrap at 2^64, as the code's do in a release build. The proof-of-work, Merkle-root and signature verdicts are fields of the block and its inputs.
  The genesis outputs are not in the unspent set, because the code does not put them there.
- **Hashes, HMAC, Keccak and point multiplication** are parameters; injectivity is assumed only where a statement
  says so.

## What the code does not do

Some promises one might read into the code are false of it; each has its exact condition.

- Approvals from before a change request still count, so the quota of an all-approvers step counts approvals, not
  people, at whatever position the step stands: `WorkflowQuota.QuotaCountsPeopleIff`. Without change requests it does
  count people, and in general the quota is at most the distinct approvers times the review rounds:
  `WorkflowTheorems.AllStepHasDistinctApprovers`.
- The validator compares totals that wrap at 2^64, so a transaction, or a coinbase, can pay out more than it may:
  `ChainRuns.OverflowingBlockBreaksBound`. A block keeps the supply bound exactly when none of its totals wraps:
  `ChainSupply.ConservesIffFits`; runs keep it under the same condition on the canonical blocks:
  `ChainRuns.SupplyIsBounded`.
- A rollback does not restore spent outputs: `ChainBatch.RollbackRestoresIff`. It also leaves the undone blocks
  stored, so they are never accepted again: `ChainBatch.RolledBackBlocksAreRefused`. Although ingest lets a block with
  a known parent other than the tip through its own test, the validator then refuses it, so only extensions of the tip
  are ever stored: `ChainInvariant.IngestStoresExtensions`.
- The rate limiter admits the first request of a window even when the configured maximum is zero; the bounds are
  therefore stated for `Cap`, which is at least one. Its table is keyed by identifier alone while the routes have
  three configurations, so a default request opens a one-minute window in which nine more authentication requests
  pass, and the limit of ten per 15 minutes fails in mixed runs: `RateLimit.KeepsLimitIff` and
  `RateLimit.ShortWindowsWeakenLongOnes`. What holds in mixed runs is `RateLimit.AdmissionsAreBounded`.
- Equal Merkle roots mean equal transaction lists only at equal length. A doubled last entry is not told from a real
  one (`Merkle.RepeatedLastHasSameRoot`), and a leaf is not told from an inner node: [a, b] and [H(a, b)] have one
  root (`Merkle.PairHasRootOfLeaf`). `Merkle.SameRootIff` is the exact condition.
- The result of a vote can depend on hash-map iteration order: `RedundantVote.OrderMattersIffTied` for given results,
  `RedundantVote.OrderNeverMattersIff` for a choice of n and m.
- Submitting a job again while it is listed as pending corrupts the pending list: `Marketplace.AlwaysExactIff`.

## Model

| member | source | states |
|---|---|---|
| WorkflowEngine.Engine.CreateInstance | pyrax-core-marketing/src/lib/workflow.ts:50-94 | Refuses an unknown proof, a proof with a workflow, an unknown template; otherwise adds an active instance at step 0, puts the proof in review and logs it. |
| WorkflowEngine.Engine.MakeDecision | pyrax-core-marketing/src/lib/workflow.ts:215-311 | The calls in source order do what the value-level machine does; `WorkflowAudit.MayDecideIff` and `WorkflowAudit.DecisionOutcome` say what that is in terms of the rows. |
| WorkflowAudit.MayDecideIff | pyrax-core-marketing/src/lib/workflow.ts:95-212 | A user may decide if and only if the instance is active at a step of its template, the user is known and is an OrgAdmin, has an allowed role or is named by the step, and has not decided the step or some version is newer than every change request, of which there is one, and every own decision on the step. |
| WorkflowAudit.RefusalsSayWhy | pyrax-core-marketing/src/lib/workflow.ts:115-205 | Which refusal is given in which case. |
| WorkflowAudit.DecidersWereAdmitted | pyrax-core-marketing/src/lib/workflow.ts:138-163 | In every run, every decision sits on a step of the template and its author is an OrgAdmin, has a role the step allows, or is named by it. |
| WorkflowAudit.DecisionOutcome | pyrax-core-marketing/src/lib/workflow.ts:237-359 | An accepted decision is recorded with step, kind, author and time; an approval moves the row on exactly when the step's approvals then suffice (one, or one per named user, or one per internal user with an allowed role but at least one; never under an unknown rule) and completes it exactly at the last step; the result tells which; no other row changes. |
| WorkflowAudit.LogTellsTheStory | pyrax-core-marketing/src/lib/workflow.ts:237-506 | In every run, the log alone gives the decisions of a workflow in order, each event names the step the events before it lead to, and whoever completed or rejected it made the last decision. |
| WorkflowAudit.CancellersAreNamed | pyrax-core-marketing/src/lib/workflow.ts:517-546 | In every run, a cancellation in the trail names an actor who called for it. |
| WorkflowAudit.CreateSucceedsIff | pyrax-core-marketing/src/lib/workflow.ts:50-94 | A workflow starts exactly for a known proof that has none, under a known template; a refusal changes nothing. |
| WorkflowInvariant.RepeatIsSeparated | pyrax-core-marketing/src/lib/workflow.ts:165-206 | If the engine lets a user decide a step again, an upload lies after each earlier decision of theirs on it and after a change request. |
| WorkflowInvariant.DecidedRow | pyrax-core-marketing/src/lib/workflow.ts:240-311 | Every outcome of a decision keeps a row's history ordered, signed, spaced, reviewed and in agreement with its trail and proof. |
| WorkflowRuns.DecideKeepsInv | pyrax-core-marketing/src/lib/workflow.ts:215-311 | A decision, refused or accepted, keeps the invariant of the whole store. |
| WorkflowRuns.CreateKeepsInv | pyrax-core-marketing/src/lib/workflow.ts:50-94 | So does creating an instance. |
| WorkflowRuns.CancelKeepsInv | pyrax-core-marketing/src/lib/workflow.ts:517-546 | So does cancelling one. |
| WorkflowRuns.RunKeepsInv | pyrax-core-marketing/src/lib/workflow.ts:49-546 | Every store reachable by any run satisfies the invariant. |
| WorkflowTheorems.PassedStepsWereApproved | pyrax-core-marketing/src/lib/workflow.ts:138-163 | In every run, each step before the current one, and each step of a completed workflow, has an approval with no change request after it, by an OrgAdmin, a user with a role the step allows, or a user it names; the step index is always in range. |
| WorkflowTheorems.RepeatedDecisionsAreSeparated | pyrax-core-marketing/src/lib/workflow.ts:170-206 | In every run, two decisions by one user on one step have an upload between them that is later than a change request made before the second. |
| WorkflowTheorems.UserDecidesStepAtMost | pyrax-core-marketing/src/lib/workflow.ts:165-206 | In every run, a user decides a step at most once plus once per upload after the first change request. |
| WorkflowTheorems.DecisionsAreBounded | pyrax-core-marketing/src/lib/workflow.ts:165-248 | No run records more decisions on a workflow than users x steps x (1 + uploads after the first change request), so review cannot go on without uploads. |
| WorkflowTheorems.ReviewReopensAfterUpload | pyrax-core-marketing/src/lib/workflow.ts:176-212 | At any active step of any run, after a new upload an admitted user may decide if and only if somebody asked for changes or that user has not decided the step. |
| WorkflowTheorems.AllStepHasDistinctApprovers | pyrax-core-marketing/src/lib/workflow.ts:313-359 | An all-approvers step is passed only with its quota of distinct approvers if nobody asked for changes, and always with at least quota / (uploads after the first change request + 1). |
| WorkflowQuota.QuotaCountsPeopleIff | pyrax-core-marketing/src/lib/workflow.ts:322-344 | For an all-approvers step at any position k: every run that passes it has its quota of distinct approvers if and only if the quota is one or some step up to k can never be passed (unknown rule, or nobody in the store may decide it). |
| WorkflowQuota.LoneReviewerPasses | pyrax-core-marketing/src/lib/workflow.ts:165-344 | If somebody may decide each step up to k, some run passes step k with a single approver, whatever its quota. |
| WorkflowTheorems.TrailReproducesProgress | pyrax-core-marketing/src/lib/workflow.ts:628-670 | In every run, replaying the instance's audit events gives its status and step; active means in review, completed means approved, cancelled means rejected or draft according to the last event. |
| WorkflowTheorems.ClosedIsFinal | pyrax-core-marketing/src/lib/workflow.ts:119-121 | Once completed or cancelled, no later operation changes the instance, its proof's status or its trail. |
| ChainDb.Db.ApplyTransaction | pyrax-node/src/storage/chaindb.rs:306-324 | Spent outputs are deleted, then the new ones are put. |
| ChainDb.Db.CommitBlock | pyrax-node/src/storage/chaindb.rs:246-345 | Refuses a wrong parent or height; otherwise stores the block, its height, the effects of its transactions in order, and the new tip. |
| ChainDb.Db.ValidateTransaction | pyrax-node/src/validation/mod.rs:426-492 | The input loop accepts exactly the transactions whose inputs exist, are mature, unlocked, unspent in the block, and cover the outputs. |
| ChainDb.Db.ValidateBlock | pyrax-node/src/validation/mod.rs:241-388 | The loop over the transactions gives the verdict of the recursive checks, which `ChainChecks.ValidIff` states condition by condition. |
| ChainChecks.ValidIff | pyrax-node/src/validation/mod.rs:241-492 | A block above genesis validates if and only if it is sealed by proof of work and Merkle root, at most 1,000,000 bytes and 5000 transactions, at most 7200 seconds ahead, on the tip at the next height, not older than its parent, begins with a coinbase whose wrapped total is at most 50 x 10^8, and every other transaction spends only unspent, unlocked outputs, coinbase ones 100 deep, none twice in the block, whose wrapped total covers its own. |
| ChainChecks.CheckInputsIff | pyrax-node/src/validation/mod.rs:447-478 | The input loop accepts exactly such inputs and adds up what they are worth, modulo 2^64. |
| ChainChecks.StoredBlocksWereChecked | pyrax-node/src/validation/mod.rs:241-423 | In every run, every stored block but genesis was handed over by some operation and was, at that operation's time, sealed, within the size, count and time limits, and headed by a coinbase within the reward. |
| ChainChecks.UnsealedBlocksDoNotMatter | pyrax-node/src/validation/mod.rs:291-339 | Striking the unsealed blocks out of a batch changes neither the chain nor the count. |
| ChainChecks.CommitIff | pyrax-node/src/storage/chaindb.rs:246-270 | The database itself commits exactly extensions of the tip and blocks of height 0. |
| ChainChecks.SortIsStable | pyrax-node/src/main.rs:862-868 | Batches are processed by height, and blocks of one height in order of arrival. |
| ChainDb.Db.ProcessSingleBlock | pyrax-node/src/main.rs:801-859 | The ingest decision and its effect for one received block. |
| ChainDb.Db.ProcessBlocksBatch | pyrax-node/src/main.rs:862-878 | The effect and the count of a batch processed in order of height. |
| ChainDb.Db.UndoBlock | pyrax-node/src/storage/chaindb.rs:409-444 | The height entry and the outputs the block created are removed, nothing else. |
| ChainDb.Db.RollbackTo | pyrax-node/src/storage/chaindb.rs:372-406 | Blocks above the target are undone from the top and the tip moves to the target. |
| ChainInvariant.IngestStoresExtensions | pyrax-node/src/main.rs:811-839 | A received block is stored if and only if it is new, builds on the tip at the next height, and validates. |
| ChainInvariant.RollbackKeepsShape | pyrax-node/src/storage/chaindb.rs:372-406 | Rollback keeps every block, cuts the height index at the target, and leaves it the path to the new tip. |
| ChainSupply.CheckedInputs | pyrax-node/src/validation/mod.rs:447-478 | Inputs that pass are unspent and distinct, and the wrapped total does not exceed what they are worth. |
| ChainSupply.BlockConserves | pyrax-node/src/validation/mod.rs:370-423 | A valid block whose transactions each put out less than 2^64 raises the value of all unspent outputs by at most the block reward. |
| ChainSupply.ConservesIffFits | pyrax-node/src/validation/mod.rs:412-489 | A valid block with new transaction ids keeps that bound if and only if each of its transactions puts out less than 2^64 in total; the code sums outputs with wrap-around and does not test this. |
| ChainRuns.RunKeepsInv | pyrax-node/src/storage/chaindb.rs:238-406 | Every database reachable by ingest, batches, mining and rollback satisfies the invariant: canonical index, rooted store, every unspent output recorded with the value, height and coinbase flag of the canonical transaction that made it, and a value bounded at each height up to which no canonical transaction overflows. |
| ChainRuns.StoredBlocksReachGenesis | pyrax-node/src/main.rs:801-859 | In every run, every stored block, abandoned ones included, reaches genesis in exactly its height many parent links, and the height index is the tip's ancestry. |
| ChainRuns.StoredBlocksStay | pyrax-node/src/main.rs:805-809 | A stored block is never removed or replaced by anything later. |
| ChainRuns.SupplyIsBounded | pyrax-node/src/validation/mod.rs:412-489 | In every run, rollbacks and abandoned or refused blocks included, if no transaction on the final canonical chain puts out 2^64 or more, all unspent outputs together are worth at most the block reward times the height of the tip. |
| ChainRuns.OverflowingBlockBreaksBound | pyrax-node/src/validation/mod.rs:392-423 | A block on genesis whose coinbase pays 2^63 twice is stored, and the unspent outputs are then worth 2^64. |
| ChainRuns.SpendsAreSound | pyrax-node/src/validation/mod.rs:450-478 | In every run, the next stored block spends only unlocked outputs of canonical blocks below it, coinbase outputs at least 100 blocks deep, and no output twice. |
| ChainBatch.BatchCommitsFreshPrefix | pyrax-node/src/main.rs:862-878 | A batch listing the blocks of a valid extension, in any order and with repetitions, commits exactly those before the first block ever stored and returns their number; a second delivery returns 0. |
| ChainBatch.BatchCommitsWholeChain | pyrax-node/src/main.rs:862-878 | If none was stored before, the whole extension is committed and each block counted once. |
| ChainBatch.RolledBackBlocksAreRefused | pyrax-node/src/main.rs:805-809 | Delivering rolled-back blocks again commits none of them. |
| ChainBatch.UndoRestoresIff | pyrax-node/src/storage/chaindb.rs:425-440 | Applying and undoing transactions restores the unspent set if and only if they neither spend nor recreate anything in it. |
| ChainBatch.UndoRestoresValidBlockIff | pyrax-node/src/storage/chaindb.rs:425-440 | For one valid block that is so if and only if it holds only its coinbase, with outputs not there before. |
| ChainBatch.RollbackRestoresIff | pyrax-node/src/storage/chaindb.rs:372-444 | Committing any valid extension, however long, and rolling back to where it began restores the unspent set if and only if no transaction of the extension spends or recreates an outpoint that was unspent at the start; outputs spent within the extension do no harm. |
| ChainBatch.RollbackRestoresIndex | pyrax-node/src/storage/chaindb.rs:372-406 | The tip and the height index are restored always. |
| Merkle.ComputeMerkleRoot | pyrax-node/src/main.rs:735-755 | The loop returns the root of the recursively halved tree, after the stated number of rounds. |
| Merkle.RoundsIsLog | pyrax-node/src/main.rs:742-752 | The number of rounds is the binary logarithm of the list length, rounded up. |
| Merkle.LevelLowersTree | pyrax-node/src/main.rs:743-751 | Pairing one level, with the odd last entry doubled, removes the bottom row of the tree. |
| Merkle.SameRootIff | pyrax-node/src/main.rs:735-755 | With an injective pair hash, two nonempty lists of any lengths have equal roots if and only if their trees have equal full rows at the depth of the shallower one. |
| Merkle.PairHasRootOfLeaf | pyrax-node/src/main.rs:746-751 | The list of two hashes has the root of the list of their pair hash alone. |
| Merkle.RootCommitsToList | pyrax-node/src/main.rs:735-755 | Lists of equal length with equal roots are equal. |
| Merkle.RepeatedLastHasSameRoot | pyrax-node/src/main.rs:743-745 | An odd list of more than one entry has the root of itself with its last entry repeated. |
| NonceSearch.MeetsTarget | pyrax-desktop/src-tauri/src/miner.rs:756-762 | The byte loop tests numeric order of the big-endian values, which is also lexicographic order. |
| NonceSearch.LexIsNumeric | pyrax-node/src/main.rs:629-629 | On equal lengths, the node's slice comparison is order on big-endian numbers. |
| NonceSearch.Search | pyrax-node/src/main.rs:622-649 | Ends within 10,000,000,001 hashes, with the first header of the walk that meets the target, or with a timeout if and only if none of the first 10,000,000,001 does. |
| NonceSearch.PositionsRise | pyrax-node/src/main.rs:634-642 | Extra nonce x 2^64 + nonce rises by exactly one per hash, through every wrap-around. |
| NonceSearch.NoPairTwice | pyrax-node/src/main.rs:634-642 | No pair of nonce and extra nonce is hashed twice. |
| NonceSearch.TimestampIsLatestWrap | pyrax-node/src/main.rs:634-642 | The timestamp is the first one until the nonce wraps, and then the clock's reading at the latest wrap. |
| NonceSearch.GoodIsNumeric | pyrax-node/src/main.rs:629-629 | The header the search returns is one whose hash, as a number, is at most the target. |
| NonceSearch.MineBatch | pyrax-desktop/src-tauri/src/miner.rs:548-556 | The CPU fallback returns the first of at most 50000 wrapped nonces whose hash is at most the target, or none if there is none. |
| RateLimit.Limiter.CheckRateLimit | pyrax-core-marketing/src/lib/rate-limit.ts:33-68 | The new table and the answer for a fresh, a full and a filling window. |
| RateLimit.Limiter.CleanUp | pyrax-core-marketing/src/lib/rate-limit.ts:86-97 | The sweep deletes exactly the entries whose window is over, so none is left. |
| RateLimit.SweepsAreInvisible | pyrax-core-marketing/src/lib/rate-limit.ts:86-97 | Leaving all sweeps out of any run changes no answer. |
| RateLimit.IdentifiersAreIndependent | pyrax-core-marketing/src/lib/rate-limit.ts:37-52 | Each identifier gets the answers it would get alone. |
| RateLimit.AdmissionsAreBounded | pyrax-core-marketing/src/lib/rate-limit.ts:42-62 | In every run, under any mix of configurations: an interval no longer than a configuration's window, and at most a millisecond longer than the shortest window in use, admits at most 2 x cap - 1 of an identifier's requests under it, and one window at most the cap. |
| RateLimit.KeepsLimitIff | pyrax-core-marketing/src/lib/rate-limit.ts:23-62 | Checking an identifier under a second configuration keeps the first one's limit over its own window in every run if and only if the second window is at most a millisecond shorter, or the first maximum is at most one. |
| RateLimit.ShortWindowsWeakenLongOnes | pyrax-core-marketing/src/lib/rate-limit.ts:23-62 | For every r some run admits (r + 1) x (maximum - 1) requests under a long-window configuration within r windows of a shorter one. |
| RateLimit.BoundIsReached | pyrax-core-marketing/src/lib/rate-limit.ts:42-62 | For every configuration with a window and a maximum, some run reaches that bound. |
| RateLimit.AnswerReflectsLog | pyrax-core-marketing/src/lib/rate-limit.ts:47-67 | In every run, under any mix of configurations, allowed, remaining and resetIn say exactly what the current window has admitted and when it ends. |
| DerivationPath.ParseInvertsPrint | pyrax-wallet/src/hd.rs:182-235 | Parsing the printed form of any list of 32-bit indices gives the list. |
| DerivationPath.PrintIsNormalForm | pyrax-wallet/src/hd.rs:182-209 | For every accepted text, printing and parsing again gives the same path of 32-bit indices. |
| DerivationPath.ParseIff | pyrax-wallet/src/hd.rs:182-209 | A text is read as a path if and only if its nonempty segments, one by one, are an optional plus sign and digits below 2^32, with or without a closing ' or h, which sets the top bit. |
| DerivationPath.JoinSplit | pyrax-wallet/src/hd.rs:186-187 | Segments are cut at the slashes and nowhere else. |
| DerivationPath.PrefixIsOptional | pyrax-wallet/src/hd.rs:183-183 | The leading m/ may be left out. |
| DerivationPath.MarksAreInterchangeable | pyrax-wallet/src/hd.rs:189-201 | Writing every closing h as ' changes no result. |
| DerivationPath.MarkedIsHardened | pyrax-wallet/src/hd.rs:189-205 | m/ followed by a number and h reads as that number with the top bit set. |
| DerivationPath.PrintIsInjective | pyrax-wallet/src/hd.rs:225-235 | Different paths print differently. |
| DerivationPath.PyraxPathsDiffer | pyrax-wallet/src/hd.rs:211-223 | Two account paths print alike if and only if accounts agree up to the hardened bit and change and index agree. |
| DerivationPath.PyraxText | pyrax-wallet/src/hd.rs:211-235 | The account path prints as m/44'/60'/account'/change/index. |
| KeyDerivation.DeriveInLoop | pyrax-wallet/src/hd.rs:100-111 | The loop over indices derives what the recursive definition does. |
| KeyDerivation.DerivedKey | pyrax-wallet/src/hd.rs:127-170 | Along a nonempty path the key is the master key plus the left halves, modulo the group order; derivation succeeds if and only if that is not zero and every normal step starts from a usable key. |
| KeyDerivation.DeriveComposes | pyrax-wallet/src/hd.rs:104-108 | Deriving along p and then q is deriving along p + q. |
| KeyDerivation.OneStep | pyrax-wallet/src/hd.rs:122-170 | One step hashes the private key for a hardened index and the public point for a normal one; the child key is the left half plus the parent key, modulo the group order, and the chain code the right half. |
| KeyDerivation.HardenedHashesKeys | pyrax-wallet/src/hd.rs:134-137 | Along hardened paths, public points and what is hashed of them cannot change the node reached. |
| KeyDerivation.NormalHashesPoints | pyrax-wallet/src/hd.rs:138-145 | Along normal paths, what is hashed of private keys cannot. |
| ChecksumAddress.ToChecksumString | pyrax-wallet/src/addresses.rs:49-75 | The character loop prints the prefix and the cased digits. |
| ChecksumAddress.CaseFollowsHash | pyrax-wallet/src/addresses.rs:59-72 | Each position shows its hex digit, upper case exactly for a letter whose hash nibble is at least 8. |
| ChecksumAddress.PrintedDigit | pyrax-wallet/src/addresses.rs:49-75 | The character at each position, from the byte half it shows and the hash nibble there. |
| ChecksumAddress.ChecksumRoundTrip | pyrax-wallet/src/addresses.rs:23-28 | Reading back a printed address, with or without prefix, gives the address. |
| ChecksumAddress.ReadsIff | pyrax-wallet/src/addresses.rs:23-28 | A text is read as an address if and only if, after the prefix, it spells the address's hex in some letter case. |
| ChecksumAddress.ReadableIff | pyrax-wallet/src/addresses.rs:23-28 | A text is read at all if and only if 40 hex digits follow the prefix. |
| ChecksumAddress.ExactlyOneSpellingIsValid | pyrax-wallet/src/addresses.rs:77-97 | Of all spellings of an address, only the printed one is valid. |
| ChecksumAddress.ValidIffPrinted | pyrax-wallet/src/addresses.rs:77-97 | A text is valid if and only if it is the printed form of some address. |
| Marketplace.Exchange.CheckTimeouts | pyrax-ai/src/marketplace.rs:130-141 | Exactly the running jobs past their timeout fail and are returned, once each. |
| Marketplace.IndexAgreesWithJobs | pyrax-ai/src/marketplace.rs:17-142 | In every run whose submitted jobs are new, under new ids and with any timeouts, the pending list is the pending jobs, once each, in submission order, and every job's fields agree with its status. |
| Marketplace.ChangesAreRank | pyrax-ai/src/jobs.rs:16-25 | In every run that submits the job's id once, its status changes exactly as often as its rank, so at most four times. |
| Marketplace.StepAdvancesJobs | pyrax-ai/src/marketplace.rs:35-141 | A step leaves a job alone or moves it up one rank, setting the worker only on a match and the output only on delivery. |
| MarketplaceHistory.JobsAreAccounted | pyrax-ai/src/marketplace.rs:17-141 | In every run of new jobs: a completed job was verified with success and a disputed one without, a cancelled one by its submitter, a failed one was overdue at a timeout check, one that ran was started; worker and start time are those of a claim, output and delivery time those of a completion, submitter and timeout those of the submission. |
| MarketplaceHistory.AcceptedIff | pyrax-ai/src/marketplace.rs:35-128 | Each call is accepted exactly in one status, and a cancellation only from the submitter; a refusal says why and changes nothing. |
| MarketplaceHistory.NoJobIsOverdue | pyrax-ai/src/marketplace.rs:130-141 | After a timeout check no running job is past its timeout, and jobs that were not running are as they were. |
| Marketplace.TerminalIsFinal | pyrax-ai/src/marketplace.rs:35-141 | From any market, a completed, failed, disputed or cancelled job never changes again unless its id is submitted anew. |
| Marketplace.SubmitKeepsIndexIff | pyrax-ai/src/marketplace.rs:17-22 | A submission keeps an exact pending list exact if and only if the job is pending and not listed yet. |
| Marketplace.OthersKeepIndex | pyrax-ai/src/marketplace.rs:35-141 | In any market, every other operation keeps an exact pending list exact. |
| Marketplace.AlwaysExactIff | pyrax-ai/src/marketplace.rs:17-142 | In any run from an exact list, the list is exact at every moment if and only if every submission hands over a pending job not listed at that moment. |
| RedundantVote.Verifier.VerifyRedundant | pyrax-ai/src/verification.rs:136-190 | Exact error cases; otherwise the verdict of some iteration order, and with 2n > m exactly whether n of the first m results carry the output's hash. |
| RedundantVote.CountHashes | pyrax-ai/src/verification.rs:166-170 | The counting loop gives each hash its number of occurrences in the first m results. |
| RedundantVote.MostCommon | pyrax-ai/src/verification.rs:172-176 | The maximum over an unspecified iteration order. |
| RedundantVote.MajorityDecides | pyrax-ai/src/verification.rs:136-190 | When 2n > m the verdict is the same for every order and true exactly with n matching results. |
| RedundantVote.OrderMattersIffTied | pyrax-ai/src/verification.rs:172-190 | The verdict is independent of iteration order if and only if the output is not tied at the top. |
| RedundantVote.OrderNeverMattersIff | pyrax-ai/src/verification.rs:136-190 | A choice of n and m makes every verdict independent of iteration order, whatever the results and the output, if and only if 2n > m or m < 2. |
| RedundantVote.LaterResultsDoNotCount | pyrax-ai/src/verification.rs:168-168 | Once m results are in, later submissions do not enter the count. |
| LocaleMerge.DeepMerge | pyrax-website/scripts/sync-locales.js:14-30 | The key loop builds the recursive merge. |
| LocaleMerge.MergeAtPath | pyrax-website/scripts/sync-locales.js:14-30 | What the merged file holds at every path, in terms of the two files. |
| LocaleMerge.LocaleValuesSurvive | pyrax-website/scripts/sync-locales.js:18-26 | Every non-object locale value is kept at its path. |
| LocaleMerge.EnglishPathsSurvive | pyrax-website/scripts/sync-locales.js:15-23 | Every English path is kept unless the locale defines it or puts a non-object on the way. |
| LocaleMerge.ArrayEntriesAreSpread | pyrax-website/scripts/sync-locales.js:14-20 | An object merged over an English array keeps each entry it does not define, under its number. |
| LocaleMerge.MergeIsIdempotent | pyrax-website/scripts/sync-locales.js:13-30 | Merging English into a merged file changes nothing. |

## Left out

- Interleavings inside one engine call of the workflow: the code makes several database calls without a lock; the model takes each call as one step.
- Deleting versions, due dates, notes and notifications of the workflow: the engine's rules do not read them, except that a deletion could hide the newest version.
- WorkflowTheorems.TrailReproducesProgress: its runs leave out the PATCH route (pyrax-core-marketing/src/app/api/proofs/[proofId]/route.ts, lines 117-124), which lets an admin or department head set any proof status during a workflow, and publishing; after either, the proof's status need not follow the instance's.
- WorkflowTheorems.ClosedIsFinal: leaves out the same two; publishing changes the status of a proof whose workflow is completed. The instance and its trail are not touched by them.
- ChainDb.Db.ValidateTransaction: takes the verdict on each input's signature as a field of the input.
- ChainDb.Db.ValidateBlock: takes the verdicts on proof of work and Merkle root as fields of the block, and on signatures as fields of the inputs.
- Total difficulty, the transaction and spent-output indexes and the header column of the chain database: bookkeeping that ingest and validation do not read; total difficulty is only added up.
- Block heights and job times as 64-bit integers: they are unbounded here, since no run reaches 2^64 blocks or seconds.
- Proof of work, Merkle and signature checks inside block validation: their verdicts are given with the block, and the Merkle root and target test are modelled on their own.
- Storage errors, failed writes and failed reads of the database: every read and write succeeds.
- Reading the clock once per block of a batch: one time serves the whole batch.
- Stratum submissions, RPC submissions, header sync and fork search: other callers of the chain database with their own checks.
- Difficulty adjustment, mempool, P2P, EVM, rollup, staking and bridge code: separate subsystems.
- Zero-knowledge and attestation verification: placeholder cryptography and network calls.
- getPendingJobs, getWorkflowStatus, getRateLimitConfig and client identification: short read-only helpers.
- JSON key order, prototype keys and undefined values in the locale merge: parsed JSON files are trees with a set of keys.
- Keystore, mnemonic, signing, user interface, CLI and metrics code: wrappers around libraries and I/O.
