# Minister in Dafny

Minister is an identity provider: accounts hold badges, relying parties see pairwise subjects, and
accounts can be merged, recovered and paired across devices. This project models the parts of it in
which state, concurrency or arithmetic make mistakes easy, and proves what they promise.

| area | modules |
|---|---|
| account merge and its reversal | `MergeModel`, `MergeOps`, `MergeDatabase`, `MergeLaws`, `MergeRoundTrip`, `MergeOrder`, `MergeRuns`, `MergeWindow`, `MergeCodes`, `MergeFrame`, `MergeBans`, `MergeExamples` |
| sybil score and the batched bucket statistics | `SybilModel`, `SybilScorer`, `SybilLaws`, `SybilLevels`, `BucketStats`, `BucketBoundary` |
| threshold recovery: protocol and configuration | `RecoveryProtocol`, `RecoveryRuns`, `RecoveryConfig` |
| sliding-window limiters (TypeScript and Go) | `RateLimiter`, `IpLimiter` |
| device-pairing wire format | `Base64`, `Utf8`, `Decimal`, `PairCodec` |
| public transparency page | `PublicCounts`, `Ordering`, `Transparency`, `TransparencyBuilder` |
| invite codes | `InviteCodes` |

How it is put together:

- Code that updates tables, maps, slices or counters is written as methods and classes with loops;
  each is proved equal to a definition that names no loop (what a merge means per table, a multiset
  of badge weights, a full unpruned log, a bit string, a declarative page). The laws are then proved
  of those definitions.
- Concurrent protocols (recovery, invite codes, confirming a merge, reversing one) are state machines
  over the single database actions a call is made of, so a call may act on what it read long before.
  Runs are sequences of states.
- Merge transactions run on table values; `MergeDatabase.Database` holds the tables and commits or
  rolls back as a whole.

Where a promise does not hold as worded, the exact condition is proved and a concrete case given:

- The merge transaction never looks at the survivor's own tombstone; confirmMerge does, but before
  it. The merged-into graph stays a forest over a run if and only if no merge commits for a survivor
  whose chain by then ends at the donor (`RunKeepsForestExactly`), which takes another merge of that
  survivor between look and transaction (`LoopNeedsRace`). Two sessions that confirm opposite merges
  at once do it (`RacingMergesLoop`).
- Two merges reversed in the order they were made restore all tables if and only if their snapshots
  are untangled (`InOrderRestoresExactly`), for any accounts. It fails for nested merges that moved
  anything (`NestedBadge`), and for two merges into one account over a ban (`SiblingBan`), a united
  grant (`SiblingGrant`) or an eligibility deleted by the second (`SiblingEligibility`).
- Running a committed reversal again is a no-op, unless the two accounts were merged anew: over every run
  it commits again if and only if such a merge stands and no constraint is in the way
  (`RerunCommitsExactly`). A call that read the record in time then undoes a merge it knows nothing of
  (`RerunUndoesNextMerge`).
- A reversal moves a grant the survivor made after the merge if and only if the merge had moved one at
  that client (`LateGrantMoves`, `LateGrantHandedOver`), and lifts a ban if and only if the survivor had
  none before (`BanLiftedExactly`, `LateBanLifted`).
- An account that absorbed a banned one is banned throughout a run if and only if no merge commits into a
  tombstone of an unbanned account and no reversal puts back a flag at odds with another merge
  (`RunKeepsBansExactly`, `SiblingUnbanned`).
- A reversal gives each account the primary addresses it had if and only if none of the donor's were
  deleted, no other address of the donor's became primary, and the survivor's own were left alone
  (`PrimariesRestoredExactly`). Otherwise an account can have two primary addresses or none
  (`TwoPrimaries`).
- A client the survivor used keeps its subject if and only if no diverging override of the donor
  moves over (`SurvivorClientsKeepSub`, `OverrideRedirects`).
- One more badge can lower a raw score if and only if it is the first member of a category whose cap
  is negative (`RawFallsExactly`, `NegativeCapLowers`). The admin action that edits caps stores none
  below zero, so this takes a cap written past it.
- A recovery attempt is pending exactly while its sum falls short if and only if at least one point
  was required at the start (`StartAgreesExactly`, `NothingRequiredStillPending`).
- The batched statistics drop a badge in the millisecond in which the per-user computation still
  counts it. A user's two buckets are equal under every configuration if and only if every such badge
  is of a family kind and another of the same kind lives on (`BatchIsDirectExactly`, `LastMillisecond`).
- A rate limiter that prunes as it goes answers like one that never forgets if and only if a check
  does not go back in time (`ForwardClockExactly`, `BackwardsClockForgets`, `BackwardsClockForgetsSwept`).
- The authenticated bytes of a pairing bind user and session up to lone surrogates, which the encoder
  replaces (`AadBytesExactly`, `LoneSurrogatesCollide`).
- After a revocation an unlimited invite code can still be redeemed by a call that looked before; no
  redemption follows if and only if the code is limited or no such call is outstanding
  (`NothingAfterRevocationExactly`, `RedeemedAfterRevocation`). After its expiry any code can; no
  redemption follows if and only if no such call is outstanding, or the code is limited and also revoked
  or used up (`NothingAfterExpiryExactly`, `RedeemedAfterExpiry`).
- The transparency page does not depend on the order of its input if and only if the total rows of
  each type print alike (`OrderIndependent`, `OrderMattersOtherwise`).

Assumptions: ids the database generates are fresh; the clocks given to the limiters, the recovery
configuration and the recovery protocol do not run backwards (where a result needs this it says so);
recovery weights read from the table are not negative; times are whole milliseconds (nanoseconds in
the Go limiter); a single database action is atomic, and so is a merge, reversal, re-proof or
redemption transaction, as their isolation levels, row locks and unique constraints make them.

## Model

| member | source | states |
|---|---|---|
| `MergeRoundTrip.RoundTrip` | apps/minister/src/lib/merge.ts:251-1221 | for every database that keeps its constraints and every committed merge, the recorded snapshot can be reversed at once and the reversal gives back every table: owners, deleted eligibilities, redemptions and grants, overrides, primary flags, ban and tombstone |
| `MergeRoundTrip.RoundTripTable` | apps/minister/src/lib/merge.ts:519-559 | re-pointing a plain table and pointing the snapshotted ids back is the identity |
| `MergeRoundTrip.RoundTripEmails` | apps/minister/src/lib/merge.ts:690-696 | addresses demoted by the merge are primary again after the reversal, and no others |
| `MergeRoundTrip.RoundTripClaims` | apps/minister/src/lib/merge.ts:1119-1144 | moved and deleted per-user-unique rows come back exactly, and recreating them never collides |
| `MergeRoundTrip.RoundTripGrants` | apps/minister/src/lib/merge.ts:1100-1175 | moved and union-merged grants fall apart into the two originals |
| `MergeRoundTrip.RoundTripOverrides` | apps/minister/src/lib/merge.ts:1084-1118 | moved and created subject overrides are undone without touching others |
| `MergeOps.ResolveEligibilities` | apps/minister/src/lib/merge.ts:402-476 | the loop deletes exactly the eligibilities that lose (later date; on a tie the donor's) and moves the donor's remaining ones |
| `MergeOps.ResolveRedemptions` | apps/minister/src/lib/merge.ts:482-516 | the loop deletes exactly the donor redemptions of codes the survivor also redeemed |
| `MergeOps.MoveEach` | apps/minister/src/lib/merge.ts:566-573 | moves the given entries one update at a time, succeeds exactly when no target place is taken, and counts the moved entries |
| `MergeOps.MergeGrants` | apps/minister/src/lib/merge.ts:590-661 | the loop over donor grants yields the union-merged table, the moved clients and the snapshot of both sides |
| `MergeOps.CreateOverrides` | apps/minister/src/lib/merge.ts:678-682 | creates one override per donor-only client and fails exactly when one is already there |
| `MergeOps.DeleteOverrides` | apps/minister/src/lib/merge.ts:1112-1118 | drops exactly the overrides that still hold the value the merge wrote |
| `MergeOps.Recreate` | apps/minister/src/lib/merge.ts:1119-1144 | recreates the deleted rows, and succeeds exactly when ids and (owner, slot) pairs are free |
| `MergeOps.SplitEach` | apps/minister/src/lib/merge.ts:1146-1175 | splits union-merged grants back, and succeeds exactly when the donor's places and ids are free |
| `MergeOps.RePointTables` | apps/minister/src/lib/merge.ts:519-578 | table by table re-pointing equals re-pointing all plain rows of the donor |
| `MergeOps.PointTablesBack` | apps/minister/src/lib/merge.ts:972-1100 | table by table reversal equals pointing all snapshotted plain rows to the donor, with the number of rows restored |
| `MergeDatabase.CheckGuards` | apps/minister/src/lib/merge.ts:252-301 | the first failing guard in order: same account, missing survivor, missing donor, tombstoned donor, token drift |
| `MergeDatabase.ClassifyClients` | apps/minister/src/lib/merge.ts:309-339 | the loop splits the precomputed clients into overrides to create and stranded ones |
| `MergeDatabase.MergeTx` | apps/minister/src/lib/merge.ts:251-798 | statement by statement, the transaction fails exactly when a guard or a unique constraint does and otherwise computes the merged tables and the snapshot |
| `MergeDatabase.ReverseTx` | apps/minister/src/lib/merge.ts:953-1207 | statement by statement, the reversal commits exactly when no unique constraint is hit and then computes the reversed tables and the number of restored rows |
| `MergeDatabase.Database.PrecomputeSubs` | apps/minister/src/lib/merge.ts:231-243 | derives the donor's sub at exactly the clients it holds tokens for |
| `MergeDatabase.Database.MergeAccounts` | apps/minister/src/lib/merge.ts:207-798 | an error leaves the database as it was; otherwise the tables are merged, both generations bumped, the donor's authorization codes deleted and a merge record written |
| `MergeDatabase.Database.ReadRecord` | apps/minister/src/lib/merge.ts:926-943 | the look outside the transaction: refused with the first failing check on the record, or the snapshot |
| `MergeDatabase.Database.RunReversal` | apps/minister/src/lib/merge.ts:951-1221 | the transaction, for a snapshot read at any earlier time: refused without change, or the reversal with the number of restored and recreated rows |
| `MergeDatabase.Database.ReverseMerge` | apps/minister/src/lib/merge.ts:925-1221 | the two without interruption: refused with the first failing check and no change, or reversed |
| `MergeDatabase.ReportsEveryMove` | apps/minister/src/lib/merge.ts:968-1110 | right after a merge the reversal reports one restored row for each the merge has moved |
| `MergeLaws.MergeKeepsConstraints` | apps/minister/src/lib/merge.ts:402-661 | a committed merge keeps every per-user uniqueness constraint |
| `MergeLaws.ReversalKeepsConstraints` | apps/minister/src/lib/merge.ts:972-1175 | so does a committed reversal, whatever happened in between |
| `MergeLaws.MergedStateValid` | apps/minister/src/lib/merge.ts:698-798 | the database invariant, records and generations included, survives a merge |
| `MergeLaws.ReversedStateValid` | apps/minister/src/lib/merge.ts:1185-1207 | and a reversal |
| `MergeLaws.DonorIsEmptied` | apps/minister/src/lib/merge.ts:519-661 | the donor owns no movable row and holds no grant afterwards |
| `MergeLaws.EarliestEligibility` | apps/minister/src/lib/merge.ts:402-476 | for every eligibility either account had, the survivor ends with one of that badge type that is no later |
| `MergeLaws.EligibilityKeptExactly` | apps/minister/src/lib/merge.ts:402-476 | the survivor's eligibility is kept unless the donor was eligible earlier, the donor's unless the survivor was eligible no later |
| `MergeLaws.DonorRowsAccounted` | apps/minister/src/lib/merge.ts:402-661 | the snapshot of a committed merge accounts for every donor eligibility, redemption and grant: moved unchanged, deleted with a full copy, or united with both sides on record; no other account loses a row without a copy, and a deleted redemption's code is still held by the survivor |
| `MergeLaws.DedupMembers` | apps/minister/src/lib/merge.ts:43-45 | the union of two lists has exactly the members of both, each once |
| `MergeLaws.GrantIsUnion` | apps/minister/src/lib/merge.ts:590-661 | at every client the survivor's grant is exactly the union (or disjunction) of what both had disclosed, field by field, the survivor's first |
| `MergeLaws.SubAfterMerge` | apps/minister/src/lib/oidc-subject.ts:20-27 | which sub the survivor presents at each client after any committed merge |
| `MergeLaws.DonorOnlyClientsKeepSub` | apps/minister/src/lib/merge.ts:678-682 | a client only the donor used keeps seeing the donor's sub |
| `MergeLaws.SurvivorClientsKeepSub` | apps/minister/src/lib/merge.ts:566-573 | a client the survivor used keeps seeing the survivor's sub, if and only if no different donor override moves there |
| `MergeExamples.OverrideRedirects` | apps/minister/src/lib/merge.ts:566-573 | such a case: the survivor's own sub gives way to an override the donor brings along |
| `MergeLaws.TokenClientsClassified` | apps/minister/src/lib/merge.ts:287-339 | the client of every re-pointed token is in exactly one of the two lists, even with tokens minted after the precompute |
| `MergeLaws.OverrideConflictExactly` | apps/minister/src/lib/merge.ts:566-573 | past the guards a merge is refused exactly when the donor has an override at a token client the survivor has not used |
| `MergeLaws.MergeAcceptedExactly` | apps/minister/src/lib/merge.ts:252-301 | a merge goes through if and only if two different accounts exist, the donor is live, the subs are for exactly its token clients and no override is in the way; otherwise the first of these that is wrong is the answer |
| `MergeRuns.ReversalUndoes` | apps/minister/src/lib/merge.ts:925-1221 | from any state whose tables are as the merge left them, a reversal is accepted if and only if fewer than seven days have passed; it restores the tables and every later one is refused |
| `MergeRuns.UnwindRestores` | apps/minister/src/lib/merge.ts:925-1221 | any stack of committed merges reversed last-in-first-out, each at any time in its window, restores all tables, with every generation up by two per involvement |
| `MergeOrder.InOrderRestoresExactly` | apps/minister/src/lib/merge.ts:951-1207 | any two committed merges whose committed reversals come in the order of the merges: all tables are restored if and only if the two snapshots are untangled (moved rows, deleted eligibilities, united grants, overrides and ban flags) |
| `MergeOrder.UnrelatedInOrder` | apps/minister/src/lib/merge.ts:951-1207 | in particular whenever the first survivor has no part in the second merge |
| `MergeRuns.ReversedInOrder` | apps/minister/src/lib/merge.ts:925-1221 | the same for two merge records of a whole database |
| `MergeExamples.NestedBadge` | apps/minister/src/lib/merge.ts:972-992 | b into a, a into z, four commits: b's badge ends with a |
| `MergeExamples.SiblingBan` | apps/minister/src/lib/merge.ts:1183-1192 | a banned b into a, then e into a, four commits: a stays banned |
| `MergeExamples.SiblingGrant` | apps/minister/src/lib/merge.ts:1146-1171 | b into a, then e into a, at one client: a keeps what only b had disclosed |
| `MergeExamples.SiblingEligibility` | apps/minister/src/lib/merge.ts:1119-1132 | b into a, then an earlier-eligible e into a: b's eligibility ends with a |
| `MergeRuns.SnapshotKept` | apps/minister/src/lib/merge.ts:926-943 | over every run, what a merge record says of its merge never changes |
| `MergeRuns.GuardExactly` | apps/minister/src/lib/merge.ts:952-966 | after a committed reversal the guard of its transaction passes again if and only if the pair was merged anew and has not been released since |
| `MergeRuns.RerunCommitsExactly` | apps/minister/src/lib/merge.ts:945-966 | over every run, a reversal run again on a look from any time commits if and only if the pair was merged anew, that merge stands and no constraint is in the way; otherwise it changes nothing |
| `MergeRuns.RerunUndoesNextMerge` | apps/minister/src/lib/merge.ts:926-966 | such a run, from every database and for every merge that commits in it: two looks, a reversal, a new merge, and the second reversal undoes it, leaving a record that can no longer be reversed |
| `MergeWindow.LookAnswersExactly` | apps/minister/src/lib/merge.ts:926-936 | over every run, a look at the record of a committed merge answers "already reversed" if a reversal of it has committed, else "passed" from seven days after the merge on, else lets the reversal go ahead |
| `MergeWindow.ReversedInWindow` | apps/minister/src/lib/merge.ts:926-936 | every reversal that goes ahead looked after the merge, less than seven days after it, and before any reversal of the same record committed |
| `MergeCodes.StepKeepsCodesExactly` | apps/minister/src/lib/merge.ts:664-673 | a step keeps merged accounts without authorization codes unless something other than a merge or reversal issues one |
| `MergeCodes.RunKeepsCodesExactly` | apps/minister/src/lib/merge.ts:664-673 | over every run, no authorization code ever belongs to a merged account if and only if nothing else issues one to such an account |
| `MergeCodes.CodeLostExactly` | apps/minister/src/lib/merge.ts:664-673 | a code nothing else uses up is lost in a run if and only if its own account is merged away |
| `MergeRuns.MergeKeepsForestExactly` | apps/minister/src/lib/merge.ts:276-278 | a merge keeps the merged-into graph acyclic if and only if the survivor's chain does not end at the donor |
| `MergeRuns.StepKeepsForestExactly` | apps/minister/src/lib/merge.ts:252-278 | a step of a run, with whatever was read earlier, keeps the forest if and only if it is not such a merge |
| `MergeRuns.RunKeepsForestExactly` | apps/minister/src/server/merge-actions.ts:350-384 | over every run whose merges were confirmed for live accounts at some earlier moment, the graph is always a forest if and only if no merge commits for a survivor whose chain then ends at the donor |
| `MergeRuns.LoopNeedsRace` | apps/minister/src/server/merge-actions.ts:350-384 | a merge that closes a loop had its survivor merged away between its look and its transaction |
| `MergeExamples.RacingMergesLoop` | apps/minister/src/server/merge-actions.ts:350-384 | two sessions confirm opposite merges, both pass every guard and commit, and the two tombstones point at each other |
| `MergeRuns.StepRaisesGenerations` | apps/minister/src/lib/merge.ts:698-729 | no step lowers a generation, and a merge or reversal raises both |
| `MergeRuns.RunRaisesGenerations` | apps/minister/src/lib/merge.ts:1185-1207 | generations never fall over a run |
| `MergeRuns.OldSessionsStayDead` | apps/minister/src/lib/session.ts:33-53 | a session stamped before a merge or reversal of its user is never accepted again |
| `MergeRuns.SessionsLiveOn` | apps/minister/src/lib/session.ts:33-53 | as long as an account is left alone, its session is accepted exactly while it is neither banned nor merged |
| `MergeFrame.ReversalFrameTable` | apps/minister/src/lib/merge.ts:972-1100 | after any activity a reversal changes the owner of exactly the surviving rows the donor had, and of no later row |
| `MergeFrame.ReversalFrameClaims` | apps/minister/src/lib/merge.ts:1068-1144 | the same for eligibilities and redemptions, whose deleted rows come back as they were |
| `MergeFrame.ReversalFrame` | apps/minister/src/lib/merge.ts:953-1207 | the frame for all id-keyed tables of a committed reversal together |
| `MergeFrame.OnlyNewRowsBlock` | apps/minister/src/lib/merge.ts:953-1175 | as long as rows were merely deleted or edited since the merge, the reversal commits |
| `MergeFrame.WhereRowsReturnFrom` | apps/minister/src/lib/merge.ts:972-1100 | snapshotted rows, tokens and addresses go to the donor from whoever has them, authenticators from the survivor only |
| `MergeFrame.CreatedOverrideGoesExactly` | apps/minister/src/lib/merge.ts:1112-1118 | an override the merge created goes if and only if it still says what the merge wrote |
| `MergeFrame.PrimariesRestoredExactly` | apps/minister/src/lib/merge.ts:1176-1182 | after any activity, the donor's primary addresses are those of before if and only if they still exist and no other address of the donor has become primary; the survivor's, if and only if its own were left alone since the merge |
| `MergeExamples.TwoPrimaries` | apps/minister/src/server/credential-actions.ts:520-537 | a run: the survivor makes a moved address primary, and the reversal leaves the donor two primary addresses and the survivor none |
| `MergeFrame.LateGrantMoves` | apps/minister/src/lib/merge.ts:1101-1110 | a grant the survivor made after the merge goes to the donor if and only if the merge had moved one at that client |
| `MergeExamples.LateGrantHandedOver` | apps/minister/src/server/admin-actions.ts:424-440 | a run: the client of a moved grant is deleted and seeded again, the survivor consents anew, and the reversal gives the new grant to the donor |
| `MergeFrame.BanLiftedExactly` | apps/minister/src/lib/merge.ts:1183-1192 | a ban in force is lifted if and only if the survivor was not banned before the merge |
| `MergeExamples.LateBanLifted` | apps/minister/src/server/admin-actions.ts:48-58 | a run: the survivor is banned after the merge and the reversal unbans it |
| `MergeBans.RootBanned` | apps/minister/src/lib/merge.ts:698-702 | where bans follow tombstones, a ban reaches the live account at the end of the chain |
| `MergeBans.StepKeepsBansExactly` | apps/minister/src/lib/merge.ts:1183-1191 | a step of a run keeps bans following tombstones if and only if it neither bans a tombstone of an unbanned account by a merge, nor puts back by a reversal a flag at odds with another account merged into the survivor or with the one the survivor is merged into |
| `MergeBans.RunKeepsBansExactly` | apps/minister/src/lib/merge.ts:85 | over every run in which administrators leave bans alone, every absorber of a banned account is banned at every moment if and only if no step is such a merge or reversal |
| `MergeExamples.SiblingUnbanned` | apps/minister/src/lib/merge.ts:1183-1191 | e into a, a banned b into a, the first merge reversed: a is unbanned with b still merged into it |
| `SybilScorer.Collect` | apps/minister/src/lib/sybil-score.ts:178-203 | the map and sequence-number loop holds, per category, the family maxima and every single badge |
| `SybilScorer.SortDescending` | apps/minister/src/lib/sybil-score.ts:206-209 | the sorted list is the descending arrangement of the same weights |
| `SybilScorer.ScoreCategory` | apps/minister/src/lib/sybil-score.ts:206-216 | the decaying capped sum of one category equals its definition on the multiset |
| `SybilScorer.SybilScore` | apps/minister/src/lib/sybil-score.ts:168-227 | the implementation computes the raw score and bucket defined on the counted badges |
| `SybilLaws.WeightIsMostSpecific` | apps/minister/src/lib/sybil-score.ts:138-147 | the weight is that of the first configured candidate in the chain, zero if none is |
| `SybilLevels.WeightByAttributes` | apps/minister/src/lib/sybil-score.ts:81-147 | what each kind of badge weighs by its provider, detail, age or the star, in that order |
| `SybilLaws.FewerAttributesFallBack` | apps/minister/src/lib/sybil-score.ts:89-136 | a missing attribute drops the most specific candidates and nothing else, and the chain always ends in the wildcard |
| `SybilLaws.OrderIndependent` | apps/minister/src/lib/sybil-score.ts:168-227 | raw score, qualifying categories and bucket depend on the multiset of badges only |
| `SybilLaws.MoreBadgesNeverHurt` | apps/minister/src/lib/sybil-score.ts:168-227 | with non-negative caps one more badge never lowers score, categories or bucket, for any cutoffs |
| `SybilLaws.RawFallsExactly` | apps/minister/src/lib/sybil-score.ts:206-216 | without that, the raw score falls if and only if the badge is the first of a category with a negative cap |
| `SybilLaws.NegativeCapLowers` | apps/minister/src/lib/sybil-score.ts:206-216 | such a case: a first badge in a category capped at minus one |
| `SybilLaws.ContributionFallsExactly` | apps/minister/src/lib/sybil-score.ts:206-216 | the same per category, for any grown collection of members |
| `SybilLaws.MembersGrow` | apps/minister/src/lib/sybil-score.ts:182-202 | a badge adds a member, raises one, or changes nothing, in its own category only |
| `SybilLaws.FamilyCollapses` | apps/minister/src/lib/sybil-score.ts:148-156 | for any list, dropping all badges of a family in a category but one heaviest, in whatever order the rest is kept, leaves raw score, qualifying categories and bucket as they are |
| `SybilLevels.LadderCollapses` | apps/minister/src/lib/sybil-score.ts:148-156 | the same said of all types named age-over- and all named residency- |
| `SybilLevels.OtherBadgesCountEach` | apps/minister/src/lib/sybil-score.ts:148-156 | a badge of any other type is one more member, however many of its type are held |
| `SybilLaws.GeometricBound` | apps/minister/src/lib/sybil-score.ts:206-215 | a category whose heaviest member weighs g contributes at most 2g - popcount(g), and at most its cap |
| `SybilLaws.BoundAttained` | apps/minister/src/lib/sybil-score.ts:206-215 | enough equal members reach that bound |
| `SybilLevels.BucketIsHighestMet` | apps/minister/src/lib/sybil-score.ts:215-226 | the bucket is the highest level of which the holder meets both the score and the number of categories worth eight points |
| `SybilLevels.NarrowHolder` | apps/minister/src/lib/sybil-score.ts:215-226 | however many badges are held, a level that asks for more categories than they lie in is out of reach |
| `SybilLevels.BroadHolder` | apps/minister/src/lib/sybil-score.ts:206-226 | a badge of weight eight in each of n categories reaches every level that asks for no more than n categories and eight points from each |
| `BucketStats.StatsStore.RecomputeBucketStats` | apps/minister/src/lib/stats-recompute.ts:156-212 | the cursor loop visits every user once for any batch boundary and stores the tally of each bucket |
| `BucketStats.TalliesCoverUsers` | apps/minister/src/lib/stats-recompute.ts:156-212 | the five counts add up to the number of users |
| `BucketStats.TallyIsDirect` | apps/minister/src/lib/user-sybil-bucket.ts:16-35 | each count is the number of users the per-user computation puts in the bucket a millisecond later |
| `BucketBoundary.BatchIsDirectExactly` | apps/minister/src/lib/user-sybil-bucket.ts:16-35 | batch and per-user bucket agree at the same instant under every configuration if and only if each native badge expiring in it is of a family kind and another native badge of that kind lives on |
| `BucketBoundary.LastMillisecond` | apps/minister/src/lib/stats-recompute.ts:172-179 | a user with one badge in its last millisecond whose two buckets differ |
| `BucketBoundary.TallyAtInstant` | apps/minister/src/lib/stats-recompute.ts:156-212 | under that condition for every user, each count is the number of users the per-user computation puts in the bucket at the same instant |
| `BucketStats.BatchIsDirectOneLater` | apps/minister/src/lib/stats-recompute.ts:172-179 | the batch at an instant is the per-user computation at the next |
| `BucketStats.BatchNeverOverstates` | apps/minister/src/lib/stats-recompute.ts:172-179 | at such an instant the batch can only understate, caps being non-negative |
| `RecoveryProtocol.StepKeepsInv` | apps/minister/src/lib/recovery-threshold.ts:157-299 | every atomic action of every call, with whatever it read earlier, keeps scores, claims, markers and tickets consistent |
| `RecoveryProtocol.RunKeepsInv` | apps/minister/src/lib/recovery-threshold.ts:157-299 | hence every state of every interleaving is consistent |
| `RecoveryProtocol.ScoreIsProofSum` | apps/minister/src/lib/recovery-threshold.ts:157-254 | an attempt's score is the summed weight of its distinct proven types, and it is pending exactly while that falls short |
| `RecoveryProtocol.StartAgreesExactly` | apps/minister/src/lib/recovery-threshold.ts:112-138 | at the start that equivalence holds if and only if the requirement is at least one |
| `RecoveryProtocol.NothingRequiredStillPending` | apps/minister/src/lib/recovery-threshold.ts:112-138 | such a case: nothing is required and the attempt is pending |
| `RecoveryProtocol.OneTicketPerAttempt` | apps/minister/src/lib/recovery-threshold.ts:269-299 | no attempt yields two tickets, and a ticket is for the attempt's user and a reached requirement |
| `RecoveryProtocol.TicketsAuthenticateOnce` | apps/minister/src/lib/recovery-ticket.ts:42-104 | a ticket authenticates at most once over a whole run, and only a minted one does |
| `RecoveryProtocol.RunKeepsProofs` | apps/minister/src/lib/recovery-threshold.ts:157-254 | proofs and weights are never lost, scores never fall and statuses never go back |
| `RecoveryRuns.ProofChecked` | apps/minister/src/lib/recovery-threshold.ts:172-190 | over every run, each proof was checked for a held badge of an eligible type while its attempt was pending and in time |
| `RecoveryRuns.TicketTraced` | apps/minister/src/lib/recovery-threshold.ts:268-299 | each ticket was minted by a call that found its attempt satisfied and in time, and lives for ten minutes |
| `RecoveryRuns.TicketUsableExactly` | apps/minister/src/lib/recovery-ticket.ts:42-104 | over every run a ticket stays good for its one login until it is used or swept, whatever else happens |
| `RecoveryRuns.LoginEarned` | apps/minister/src/lib/recovery-threshold.ts:268-299 | each login goes back to an attempt started for the user, found satisfied within fifteen minutes by proofs that sum to what was required, and came within ten minutes of the minting |
| `RecoveryRuns.ConsumeAnswersExactly` | apps/minister/src/lib/recovery-threshold.ts:268-281 | each refusal of a consume call is given exactly for its reason |
| `RecoveryRuns.ProofAnswersExactly` | apps/minister/src/lib/recovery-threshold.ts:172-211 | so is each refusal of a proof |
| `RecoveryRuns.LoginExactly` | apps/minister/src/lib/recovery-threshold.ts:268-299 | an uninterrupted consume and login succeeds if and only if the attempt is satisfied and in time |
| `RecoveryRuns.RecoveryWorksExactly` | apps/minister/src/lib/recovery-threshold.ts:157-299 | starting, re-proving different eligible types and consuming later logs the user in if and only if the weights sum to what is required and fewer than fifteen minutes have passed |
| `RecoveryProtocol.RecoveryStore.StartAttempt` | apps/minister/src/lib/recovery-threshold.ts:112-138 | the tables move by the start action |
| `RecoveryProtocol.RecoveryStore.BeginReProof` | apps/minister/src/lib/recovery-threshold.ts:157-208 | returns the first failing check in order, and otherwise leaves the call with the weight it read |
| `RecoveryProtocol.RecoveryStore.FinishReProof` | apps/minister/src/lib/recovery-threshold.ts:217-254 | the transaction inserts the proof, adds the weight and flips the status, or reports a duplicate and changes nothing |
| `RecoveryProtocol.RecoveryStore.BeginConsume` | apps/minister/src/lib/recovery-threshold.ts:269-280 | returns the first failing check of a consume call |
| `RecoveryProtocol.RecoveryStore.ClaimAttempt` | apps/minister/src/lib/recovery-threshold.ts:282-293 | the conditional update lets one caller claim a satisfied attempt |
| `RecoveryProtocol.RecoveryStore.IssueTicket` | apps/minister/src/lib/recovery-ticket.ts:42-64 | creates the single-use marker of a fresh ticket |
| `RecoveryProtocol.RecoveryStore.VerifyTicket` | apps/minister/src/lib/recovery-ticket.ts:72-104 | accepts a signed unexpired ticket exactly when its marker is still there, and deletes the marker |
| `RecoveryConfig.EditKeepsSound` | apps/minister/src/server/recovery-config-actions.ts:151-440 | every accepted or refused edit keeps weights, threshold and pending values in bounds and no non-solo row able to reach the threshold |
| `RecoveryConfig.SoundMeans` | apps/minister/src/lib/recovery-config-guardrails.ts:23-78 | what that comes to: weights within 0 and 100, threshold within 100 and 1000, and at no time a non-solo row that reaches it alone |
| `RecoveryConfig.RefusedExactly` | apps/minister/src/server/recovery-config-actions.ts:151-440 | an edit is refused if and only if there is nothing to edit or carrying it out would leave the configuration unsound |
| `RecoveryConfig.SoloFlagDecides` | apps/minister/src/server/recovery-config-actions.ts:151-240 | after the flag is set any weight in bounds may follow; after it is cleared none that would ever be enough alone |
| `RecoveryConfig.NoSoloRecovery` | apps/minister/src/lib/recovery-config-guardrails.ts:65-78 | at any time a row without the solo flag weighs less than the threshold |
| `RecoveryConfig.EditNeverWeakensSoon` | apps/minister/src/lib/recovery-config-guardrails.ts:109-167 | for 72 hours after an edit no weight is higher and the threshold no lower than without it |
| `RecoveryConfig.DelayOverRuns` | apps/minister/src/lib/recovery-config-guardrails.ts:180-208 | over every edit history: no weight above, no threshold below, what any configuration of the previous 72 hours gives for the same time |
| `RecoveryConfig.ClearingSetsNeverGrowSoon` | apps/minister/src/lib/recovery-config-guardrails.ts:180-208 | a set of badge types that clears recovery would have cleared under every configuration of the previous 72 hours |
| `RecoveryConfig.EditClearsExactly` | apps/minister/src/lib/recovery-config-guardrails.ts:100-167 | which sets of rows clear at any later time after an allowed edit left alone: those of the value written outright, or for 72 hours after a weakening edit, those of the configuration without the pending value it replaced |
| `RecoveryConfig.DelayIsTight` | apps/minister/src/lib/recovery-config-guardrails.ts:109-128 | an edit after which a set clears exactly from 72 hours on |
| `RateLimiter.Limiter.Sweep` | apps/minister/src/lib/rate-limit.ts:32-38 | the loop over keys keeps exactly the live hits and no empty key |
| `RateLimiter.Limiter.Check` | apps/minister/src/lib/rate-limit.ts:41-59 | with a clock that never ran backwards, verdict, retry time and effect equal those of a limiter with its full history; sweeping is invisible |
| `RateLimiter.WindowNeverOverfull` | apps/minister/src/lib/rate-limit.ts:41-59 | over every run no window, wherever it starts, holds more than max allowed hits of a key |
| `RateLimiter.RetryIsExact` | apps/minister/src/lib/rate-limit.ts:47-54 | a denied key stays denied until its oldest live hit ages out and is allowed from then on, if no hit of it comes between |
| `RateLimiter.RetryAfterSuffices` | apps/minister/src/lib/rate-limit.ts:47-54 | waiting the advertised seconds is enough |
| `RateLimiter.RetryAfterIsLeast` | apps/minister/src/lib/rate-limit.ts:47-54 | a second earlier the key is still denied |
| `RateLimiter.ForwardClockExactly` | apps/minister/src/lib/rate-limit.ts:28-61 | after any checks in order, the last at t1, every check at t2 gets the verdict of a limiter that never forgets, if and only if t2 is not before t1 (or the limit is below one) |
| `RateLimiter.BackwardsClockForgets` | apps/minister/src/lib/rate-limit.ts:44-45 | a run of one key after which an earlier check is allowed although the full history denies it |
| `RateLimiter.BackwardsClockForgetsSwept` | apps/minister/src/lib/rate-limit.ts:32-42 | the same with a limit of one, where only the sweep forgets |
| `IpLimiter.FilterInPlace` | services/ws-proxy/limiter.go:43-48 | reading and appending through one backing array leaves exactly the plain filter of the old contents, and nothing beyond the slice changes |
| `IpLimiter.Limiter.Prune` | services/ws-proxy/limiter.go:42-53 | the address's slice holds its live starts, or is gone; no other address's slice changes |
| `IpLimiter.Limiter.Acquire` | services/ws-proxy/limiter.go:38-65 | grants exactly when the full log and the unreleased grants leave room, records one grant, and otherwise reserves nothing |
| `IpLimiter.Limiter.Release` | services/ws-proxy/limiter.go:66-75 | gives back one connection, and does nothing when called again |
| `IpLimiter.ReleaseKeepsCount` | services/ws-proxy/limiter.go:70-73 | the counters stay the numbers of unreleased grants, within the ceiling |
| `IpLimiter.GrantKeepsCount` | services/ws-proxy/limiter.go:58-63 | and so after a grant |
| `IpLimiter.GrantKeepsRate` | services/ws-proxy/limiter.go:55-62 | every grant found room in the minute that ends with it, although the limit is checked at one reading of the clock and stamped at a later one |
| `IpLimiter.MinuteNeverOverfull` | services/ws-proxy/limiter.go:38-76 | any minute, wherever it starts, holds at most ratePerMin grants of an address |
| `Base64.OctetsOfSextets` | packages/shared/src/pair-protocol.ts:87-101 | bytes cut into sextets with zero fill and back are the same bytes |
| `Base64.SextetsOfOctets` | packages/shared/src/pair-protocol.ts:103-113 | sextets come back from their bytes if and only if they are canonical: a possible length and no stray trailing bit |
| `PairCodec.BtoaEncodes` | packages/shared/src/pair-protocol.ts:87-91 | btoa with its alphabet swapped and padding stripped is the bit-level unpadded base64url |
| `PairCodec.ToBase64Url` | packages/shared/src/pair-protocol.ts:87-91 | the loop and btoa compute the bit-level encoding |
| `PairCodec.DecodeExact` | packages/shared/src/pair-protocol.ts:104-113 | yields b if and only if the text is non-empty, b has the length asked for and the text is the encoding of b |
| `PairCodec.AcceptedExactly` | packages/shared/src/pair-protocol.ts:103-113 | the texts that encode n bytes are exactly those with the right alphabet, the right length and zero trailing bits |
| `PairCodec.EncodedApart` | packages/shared/src/pair-protocol.ts:87-91 | distinct bytes have distinct encodings |
| `PairCodec.Vectors` | packages/shared/src/pair-protocol.ts:87-91 | published vectors of the encoding |
| `PairCodec.IsValidSessionId` | packages/shared/src/pair-protocol.ts:160-168 | true exactly for the 22 characters of some 16 bytes |
| `PairCodec.EncodePairQr` | packages/shared/src/pair-protocol.ts:172-180 | the payload of the QR, or nothing for a bad session id or key length |
| `PairCodec.ParsePairQr` | packages/shared/src/pair-protocol.ts:186-207 | a text parses as a QR if and only if that QR encodes as the text |
| `PairCodec.PayloadsApart` | packages/shared/src/pair-protocol.ts:172-180 | different QRs have different payloads |
| `PairCodec.PayloadLayout` | packages/shared/src/pair-protocol.ts:170-180 | the payload letter by letter, and exactly which QRs have one |
| `PairCodec.EncodeRelayBody` | packages/shared/src/pair-protocol.ts:212-217 | 64 bytes become 86 characters, anything else is refused |
| `PairCodec.DecodeRelayBody` | packages/shared/src/pair-protocol.ts:220-222 | a text decodes to a body if and only if that body encodes to the text |
| `Utf8.EncodeApart` | packages/shared/src/pair-protocol.ts:147-149 | two strings of UTF-16 code units share their bytes if and only if they have the same scalar values |
| `Utf8.BytesDetermineExactly` | packages/shared/src/pair-protocol.ts:147-149 | no other string has the bytes of a string if and only if it has no lone surrogate and no replacement character |
| `PairCodec.AadBytesExactly` | packages/shared/src/pair-protocol.ts:142-150 | two accepted pairings have the same authenticated bytes if and only if their users and sessions have the same scalar values and their epochs are equal |
| `PairCodec.AadBindsFields` | packages/shared/src/pair-protocol.ts:142-150 | without lone surrogates, equal bytes mean equal user, session and epoch |
| `PairCodec.LoneSurrogatesCollide` | packages/shared/src/pair-protocol.ts:142-150 | two different users, one a lone surrogate, that share their bytes |
| `PairCodec.AadRefusedExactly` | packages/shared/src/pair-protocol.ts:117-125 | refused exactly for an empty or separator-bearing user or session |
| `PairCodec.AadLayout` | packages/shared/src/pair-protocol.ts:127-150 | the authenticated bytes are the prefix, the user, a bar, the session, a bar and the epoch, each encoded |
| `PublicCounts.RangesTile` | apps/minister/src/lib/stats-public.ts:62-71 | the fixed ranges ascend and cover one to 999 without gap or overlap |
| `PublicCounts.LabelMeansBound` | apps/minister/src/lib/stats-public.ts:81-108 | two counts print alike if and only if their lower bounds are equal |
| `PublicCounts.BoundIsItsOwn` | apps/minister/src/lib/stats-public.ts:101-108 | a lower bound prints as its count does and is its own lower bound, never above the count |
| `PublicCounts.BoundMonotone` | apps/minister/src/lib/stats-public.ts:101-108 | lower bounds are monotone |
| `PublicCounts.LabelIsTrue` | apps/minister/src/lib/stats-public.ts:62-108 | the numbers in a printed range enclose the count |
| `PublicCounts.CohortFromRanges` | apps/minister/src/lib/transparency-view.ts:188-220 | a cohort row, percentage included, is a function of the two ranges it prints |
| `PublicCounts.PercentInRange` | apps/minister/src/lib/transparency-view.ts:188-220 | for a part of a whole the percentage appears exactly when the part survives suppression, as a multiple of five from 0 to 100, with every floating-point operation rounded |
| `PublicCounts.PercentIsNearest` | apps/minister/src/lib/transparency-view.ts:188-220 | the percentage is the multiple of five next to the ratio of the two lower bounds |
| `TransparencyBuilder.Accumulate` | apps/minister/src/lib/transparency-view.ts:87-130 | the loop leaves one row per visible type with its last total, and per attribute the allowlisted values in order |
| `TransparencyBuilder.BuildPublicTypeRows` | apps/minister/src/lib/transparency-view.ts:87-160 | the maps, shaping and sorts yield a page: the right types, totals, groups and values, each list sorted by what is printed |
| `TransparencyBuilder.OnlyAllowlisted` | apps/minister/src/lib/transparency-view.ts:112-118 | every attribute and value on the page is on the allowlist |
| `TransparencyBuilder.EverythingShown` | apps/minister/src/lib/transparency-view.ts:87-130 | every allowlisted statistic is on the page with its printed count |
| `TransparencyBuilder.TotalShown` | apps/minister/src/lib/transparency-view.ts:87-130 | so is every type with a total, with the last one |
| `TransparencyBuilder.PageInOrder` | apps/minister/src/lib/transparency-view.ts:132-165 | types and values from the largest range down and by name within a range, attributes by name |
| `Transparency.PageFromRanges` | apps/minister/src/lib/transparency-view.ts:132-160 | tables that agree up to printed ranges print identical pages |
| `Transparency.CountsStayHidden` | apps/minister/src/lib/transparency-view.ts:132-160 | replacing every count by the bottom of its range changes nothing that is printed, positions included |
| `Transparency.OrderIndependent` | apps/minister/src/lib/transparency-view.ts:87-160 | reordering the input changes nothing while each type's totals print alike |
| `Transparency.OrderMattersOtherwise` | apps/minister/src/lib/transparency-view.ts:104-111 | if they do not, two arrangements of the input print differently |
| `InviteCodes.LookAgainstTransaction` | apps/minister/src/lib/invite-codes.ts:44-91 | the look accepts exactly what the transaction would, except that it alone refuses expired codes and revoked unlimited ones |
| `InviteCodes.LookAnswersExactly` | apps/minister/src/lib/invite-codes.ts:44-60 | a code that is revoked, expired, used up or unknown is invalid to everybody; of any other a repeat user learns that it is already redeemed |
| `InviteCodes.StepKeepsInv` | apps/minister/src/lib/invite-codes.ts:67-110 | every action of every redemption and revocation keeps uses left plus redeemers equal to the total of a limited code, non-negative, one redemption per user |
| `InviteCodes.Conservation` | apps/minister/src/lib/invite-codes.ts:67-110 | hence in every state of every run from an empty database |
| `InviteCodes.FirstComeFirstServed` | apps/minister/src/lib/invite-codes.ts:44-110 | of different users who redeem a valid code in turn exactly the first get in, as many as it has uses left |
| `InviteCodes.LimitedNeverAfterRevocation` | apps/minister/src/lib/invite-codes.ts:85-91 | no redemption of a limited code follows its revocation |
| `InviteCodes.NothingAfterRevocationExactly` | apps/minister/src/lib/invite-codes.ts:77-95 | nothing follows a revocation in any run if and only if the code is limited or no new redemption that passed its look is outstanding |
| `InviteCodes.RedeemedAfterRevocation` | apps/minister/src/lib/invite-codes.ts:82-94 | a run in which an unlimited code is redeemed after its revocation |
| `InviteCodes.NothingAfterExpiryExactly` | apps/minister/src/lib/invite-codes.ts:77-95 | nothing follows the expiry in any run if and only if no new redemption that passed its look is outstanding, or the code is limited and also revoked or used up |
| `InviteCodes.RedeemedAfterExpiry` | apps/minister/src/lib/invite-codes.ts:82-94 | a run in which a limited code is redeemed after its expiry |
| `InviteCodes.InviteStore.CreateInviteCode` | apps/minister/src/server/admin-actions.ts:147-168 | creates a code with all its uses left, unless the text is taken |
| `InviteCodes.InviteStore.RevokeInviteCode` | apps/minister/src/server/admin-actions.ts:189-198 | stamps a code once |
| `InviteCodes.InviteStore.BeginRedeem` | apps/minister/src/lib/invite-codes.ts:44-78 | the look: refused with the verdict on the row, or pending with the total it saw |
| `InviteCodes.InviteStore.FinishRedeem` | apps/minister/src/lib/invite-codes.ts:80-110 | the transaction: conditional decrement, then the unique redemption; a clash rolls the decrement back |

## Left out

- Cryptography (HPKE, HMAC derivation, JWT signatures, the pairing code hash): subjects are an uninterpreted function, ticket signatures a flag.
- Merge: nullifier re-tagging, post-commit work, timestamps, audit rows, the snapshot's version field, the summary counts, and the retry on write conflicts.
- Merge: rows deleted through foreign keys when a user is deleted; activity after a merge is any change of rows that keeps owners.
- Sybil score: how the configuration maps are built from rows; numbers in badge attributes are carried in their printed form.
- Recovery: re-proof ceremonies, e-mail, audit rows and the status endpoint; attempts that are marked expired or failed by other code.
- Recovery configuration: session checks, audit rows and notices of the admin actions.
- BucketStats.StatsStore.RecomputeBucketStats: one snapshot for the whole pass, as the file's header promises; the code sets no isolation level, so rows that change between two pages are not modelled.
- RateLimiter.ForwardClockExactly: for windows that are not negative, as all configured ones are.
- RateLimiter.Limiter.Check: the verdict is tied to the full history only while the clock has not run backwards, because pruning forgets otherwise.
- IpLimiter.Limiter.Acquire: the mutex is not modelled, one call is one action; the clock is monotonic, as Go's is.
- PairCodec.FromBase64Url: the whitespace atob ignores is not modelled and nothing is said about text outside the URL-safe alphabet, because the pattern test before the only call lets neither through.
- PairCodec.AadBytesExactly: epochs are integers printed in plain decimal, not numbers so large that JavaScript prints an exponent.
- Transparency.PageFromRanges: the order of names in the locale is any total order in which different names differ.
- Transparency: the allowlist itself, and the suppression and rounding helpers the page no longer uses.
- InviteCodes.Conservation: runs of redemptions, revocations and creations; a merge that drops a duplicate redemption does not give the use back.
- Invite codes: generating codes, trimming and upper-casing what was typed; the code text stands for the row.
- OIDC authorization, policies, status lists, plugins, cohort queries, pages, the relay and other I/O.
