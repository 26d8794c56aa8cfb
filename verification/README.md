# Proofs about the importer, the sessions and the documents

A model of the parts of the system whose behaviour no single branch settles, with proofs of what
they promise. Each module models one component:

- **Product clustering** (`DisjointSets`, `Guards`, `Items`, `Clusters`, `IdenticalTier`,
  `ImpaGroups`, `ImpaPlacing`, `HolderFit`, `ImpaRanking`, `ImpaTier`, `Catalogue`, `Products`). The
  importer joins offered lines into catalogue items with a union-find that also carries, per root, the IMPA codes, the members, the quotation
  keys and a split label. Three tiers drive it. The class `Clusters.Clusters` has the five lists as
  fields; its union is proved equal to a function of the state (`Items.AfterUnion`), and the tiers
  are loops over it.
- **Sessions** (`SessionStore`, `SessionSteps`, `SessionInvariant`, `SessionSafety`,
  `SessionEndings`). Logins, refreshes, logouts, password changes, resets, account edits and the token purge as transactions
  whose statements interleave under row locks. A run is any sequence of enabled statements.
- **Copies and revisions** (`Requests`, `Copies`, `Inheritance`, `CopyPasses`, `CopyTrace`,
  `SharedLines`, `Classes`, `Chains`, `Revisions`, `Labels`). Three passes drop copies of filed quotations; the rest
  are grouped by number, split into revision chains and numbered.
- **Seed rules** (`Money`, `SeedTotals`, `MatchLines`, `Contacts`). Money with its roundings, the
  match of invoice lines to purchase order lines, and one contact per person. Money is in whole sen;
  quantities and percentages are reals, and rounding is half away from zero.
- **Counters** (`MissCounter`, `RateCounter`). The bounded tally of login misses and the
  sliding-window counter behind the rate limits.
- **PDF attachment** (`AttachPdfs`), **search merge** (`SearchMerge`, `SearchAnswer`) and **LaTeX
  escaping** (`LatexText`, `LatexSafe`).

`Wrappers`, `DistinctLists`, `Texts` and `Sorting` hold what several modules share.

What the code changes step by step is a class or a method with loops here, proved against a
specification function or predicate; the promises are then proved about that specification.

Results where the code keeps less than its comments suggest, each with its condition:

- `match_lines` is complete for a purchase order exactly when no free line stands before a priced
  line that rounds to zero in a run of zero amounts that a non-zero amount follows
  (`MatchLines.ScanIsComplete`, with an order and an invoice in `MatchLines.TrapExample`).
- `split_discount` adds up exactly when there is something to discount or nothing to take off
  (`SeedTotals.SplitDiscountSums`). Its last line goes below zero exactly when the other lines,
  rounded, take more than the discounted base (`SeedTotals.LastLineBelowZero`); a share of half a sen
  for each other line is enough to prevent it (`SeedTotals.LastLineStaysAbove`).
- `split_total` adds up exactly when there is a line or the total is zero
  (`SeedTotals.SplitTotalSums`).
- The running totals of a quotation drift at a line exactly when it carries half a sen across zero
  (`SeedTotals.AddedExactly`), which takes a negative quantity or price.
- A revision sheet joins the record its workbook bound it to exactly when both are in one number
  group (`Revisions.BoundSheetJoins`).

The chains of a group are independent of order because `_shared` is symmetric, although the matching
of lines is not transitive and the scan is greedy (`SharedLines.CountSymmetric`).

## Model

| member | source | states |
|---|---|---|
| DisjointSets.Sets.Find | apps/api/db/import/clean_products.py:855-859 | path halving terminates, returns the root and changes no class |
| DisjointSets.Sets.Link | apps/api/db/import/dedup.py:454-471 | joins exactly the two classes and no others |
| DisjointSets.MergedRoots | apps/api/db/import/clean_products.py:886-892 | a union of two classes leaves one class fewer |
| DisjointSets.ComponentsAreConnected | apps/api/db/import/dedup.py:499-525 | two entries share a root exactly when a path of the relation joins them |
| Guards.BlockingGuardSymmetric | apps/api/db/import/clean_products.py:480-500 | the guard names the same rule whichever text comes first |
| Guards.PassingIsNotTransitive | apps/api/db/import/clean_products.py:480-500 | two texts may each pass with a third and still block each other, so a union must look at all members |
| Items.GuardIsCompleteLinkage | apps/api/db/import/clean_products.py:871-884 | the tables at two roots name a rule exactly when some pair of members is blocked |
| Items.SeparationPersists | apps/api/db/import/clean_products.py:871-898 | a rule between two items stays whatever is joined to either later |
| Items.InitialValid | apps/api/db/import/clean_products.py:847-853 | a fresh clustering's tables describe its singletons |
| Items.JoinedValid | apps/api/db/import/clean_products.py:892-898 | after a union the tables at each root again describe exactly its class |
| Items.JoinedLinked | apps/api/db/import/clean_products.py:886-898 | joining items no rule separates keeps every pair inside an item unblocked |
| Clusters.Clusters.constructor | apps/api/db/import/clean_products.py:847-853 | the starting tables |
| Clusters.Clusters.Find | apps/api/db/import/clean_products.py:855-859 | the root of a variant, with all tables as they were |
| Clusters.Clusters.CodesConflict | apps/api/db/import/clean_products.py:861-863 | true exactly when both classes hold a code and they differ |
| Clusters.Clusters.SameQuotationConflict | apps/api/db/import/clean_products.py:865-869 | true exactly when one quotation has two keys across the two classes |
| Clusters.Clusters.GuardOf | apps/api/db/import/clean_products.py:871-884 | the first rule between the two items, in the code's order |
| Clusters.Clusters.Union | apps/api/db/import/clean_products.py:886-898 | joins exactly when it may, and the whole state after it |
| IdenticalTier.UnforcedUnion | apps/api/db/import/clean_products.py:886-898 | an unforced union succeeds exactly when the two are neither one item nor separated, and settles them for good |
| IdenticalTier.JoinEarlier | apps/api/db/import/clean_products.py:1013-1028 | after its first success or none, the variant is in one item with, or separated from, every earlier one |
| IdenticalTier.MergeBucket | apps/api/db/import/clean_products.py:1038-1040 | within a bucket every two are in one item or separated |
| IdenticalTier.Merge | apps/api/db/import/clean_products.py:1031-1041 | the tier ends maximal: equal keys or sorted keys are in one item or a rule separates their items; no item grows beyond such pairs; each merge removes one item |
| ImpaPlacing.FormGroups | apps/api/db/import/clean_products.py:929-942 | the holders of a code split into groups whose members never block each other; each holder, in its turn, is in the group that took it and whose head is closest, the first of equals, and began one exactly when every group refused it |
| ImpaGroups.GroupsDisputed | apps/api/db/import/clean_products.py:929-942 | several groups only if a holder refuses another |
| ImpaGroups.CliqueGrows | apps/api/db/import/clean_products.py:971-983 | a variant no member blocks may join the group, in either order of comparison |
| ImpaGroups.ClosestGroup | apps/api/db/import/clean_products.py:932-936 | of the groups that take the variant the one whose head scores highest, the first of equals; none only when all refuse |
| HolderFit.SupportCounts | apps/api/db/import/clean_products.py:996-1000 | support is the number of requests, each with its copies, that pass every guard with some member of the group |
| HolderFit.BetterFitOutranks | apps/api/db/import/clean_products.py:986-1010 | a fit is better exactly when the group answers more requests; or as many, and its closest text is closer to the tenth; or that too is equal and it has more lines, all counted on requests and lines |
| ImpaRanking.MostRequestsWin | apps/api/db/import/clean_products.py:986-1010 | the group that answers more requests than each other keeps the code, whatever its lines |
| ImpaRanking.CloserTextThenLines | apps/api/db/import/clean_products.py:986-1010 | among groups that answer equally many the closer text keeps it, and only at equal closeness the line count decides |
| ImpaRanking.FirstIsBest | apps/api/db/import/clean_products.py:986-1010 | with no tie at the top the first ranked group outranks each of the others |
| ImpaRanking.TieHasNoBest | apps/api/db/import/clean_products.py:944-948 | with a tie at the top no group does |
| ImpaTier.StrippedValid | apps/api/db/import/clean_products.py:949-953 | discarding a code at a variant's own entry keeps the tables exact, because that variant is still alone |
| ImpaTier.JoinGroup | apps/api/db/import/clean_products.py:965-967 | every union inside the winning group succeeds |
| ImpaTier.SettleCode | apps/api/db/import/clean_products.py:929-967 | the group that fits the requests strictly best keeps the code, all keepers in one item, and with no such group nobody does; the others end alone without it; a conflict is counted exactly when one loses it |
| Catalogue.JoinByCode | apps/api/db/import/clean_products.py:922-968 | after the tier variants share an item exactly when they keep one code; a code is lost only where holders block each other; its holders are grouped heaviest first and the group that outranks the others keeps it, by requests answered, then closest text, then lines |
| Catalogue.HardDisputeLoses | apps/api/db/import/clean_products.py:929-967 | a hard rule between two holders always costs one of them the code |
| Catalogue.ForcedUnion | apps/api/db/import/clean_products.py:886-898 | a forced union skips every rule but the codes |
| Catalogue.JoinedByHandStill | apps/api/db/import/clean_products.py:1147-1161 | whoever an override joins has a line of an override in the item |
| Catalogue.ApplyMerge | apps/api/db/import/clean_products.py:1147-1161 | one override: its lines end in one item, or it is reported and two of them hold two codes |
| Catalogue.ApplyMerges | apps/api/db/import/clean_products.py:1147-1161 | in the end the reported overrides are exactly those whose lines are not in one item |
| Catalogue.RefusedIsNotHonoured | apps/api/db/import/clean_products.py:1147-1161 | no reported override is honoured by a later one |
| Products.CodesSettledForGood | apps/api/db/import/clean_products.py:922-968 | after all tiers and overrides an item holds at most one code and a code sits in one item or none |
| Products.AgreeIsUnblocked | apps/api/db/import/clean_products.py:480-500 | two lines block each other exactly when they disagree in kind, marks, words, split, quotation keys, or, unless spelled alike but for spaces, in numbers, parts or short tokens |
| Products.Build | apps/api/db/import/clean_products.py:1214-1290 | products partition the lines; one product per code; undisputed codes are kept, and disputed ones by fit; lines with one key or one sorted key are in one product unless the two products carry two codes or hold two lines that disagree; the lines of a product agree unless an override named one of them; nothing is joined that no code, key or override links; merges counted are products removed |
| SessionStore.BlastOnlyOnReplay | apps/api/internal/auth/service.go:329-365 | a refusal ends sessions only for a token rotated out longer ago than the grace window, of a current session |
| SessionInvariant.StepKeeps | apps/api/internal/auth/service.go:150-325 | every statement of every transaction keeps the invariant of rows, locks and tasks |
| SessionInvariant.RunKeeps | apps/api/internal/auth/service.go:150-325 | so does every run |
| SessionInvariant.OwnerNeverGone | apps/api/internal/auth/refresh.go:128-146 | a rotation that locked its owner still finds it |
| SessionInvariant.EndCommitRevokesAll | apps/api/internal/auth/refresh.go:160-175 | when an ending commits, every token of the account was in its reach or already revoked |
| SessionSafety.RunNoOlder | apps/api/internal/auth/refresh.go:160-175 | an account's session version never falls |
| SessionSafety.SessionsEndForGood | apps/api/internal/auth/refresh.go:135-175 | after an ending commits at version v nothing minted under v or earlier is accepted again, a rotation in flight included |
| SessionSafety.NothingActiveLeft | apps/api/internal/auth/refresh.go:160-175 | the commit leaves no active refresh token and ends every session that exists |
| SessionSafety.ClaimedHashIsStored | apps/api/internal/auth/service.go:183-201 | a claim in hand was made on the stored hash and holds until the transaction ends |
| SessionSafety.LoginRacesChange | apps/api/internal/auth/service.go:183-201 | a login that commits on a hash replaced anywhere in the run, by change or reset, did so before the replacement, and its session is over |
| SessionSafety.AtMostOneChange | apps/api/internal/auth/password.go:50-79 | of all changes begun from one password at most one is committed in a run |
| SessionSafety.OneChangePerHash | apps/api/internal/auth/password.go:50-79 | once a hash is replaced, by whatever transaction, in every later state it is not stored and nobody claims it or holds a claim on it |
| SessionSafety.OneChainPerLogin | apps/api/internal/auth/service.go:263-315 | in every reachable state a login's tokens stand in one line by generation, each one on from the token it replaced, and only the last can be redeemed |
| SessionSafety.LineFromLogin | apps/api/internal/auth/service.go:263-315 | until the purge, the line leads unbroken from the login's first token to any of its tokens, past all of earlier generations |
| SessionSafety.OneRotationAtATime | apps/api/internal/auth/refresh.go:80-104 | two rotations of one token are never both in flight |
| SessionSafety.LoserEndsNothing | apps/api/internal/auth/service.go:263-365 | over any run inside the grace window in which nobody logs the successor out, rotates it or ends the sessions for a reason of his own, every lookup of the replaced token is told it raced and ends nothing, and the successor stays redeemable |
| SessionSafety.StaleReplayEndsNothing | apps/api/internal/auth/service.go:329-365 | a token of an ended session never starts another ending |
| SessionEndings.LookupBlames | apps/api/internal/auth/service.go:329-365 | a lookup sets the request on to end the owner's sessions exactly when rotation retired the token, the grace window is over and its session is the current one |
| SessionEndings.LateReplayEndsSessions | apps/api/internal/auth/service.go:263-365 | presenting such a token ends the sessions: in every run from that lookup in which the request is not broken off, once it is over nothing of that version works |
| SessionEndings.LogoutIsFinal | apps/api/internal/auth/service.go:367-375 | a token logged out while active is never redeemed again in any run, and presenting it never ends a session |
| SessionEndings.AccountChangeEndsSessions | apps/api/internal/users/repo.go:344-355 | whatever the run, an account whose role or password changed, or that was closed, has lost every session from before |
| SessionSafety.SomeoneAdvances | apps/api/internal/auth/refresh.go:132-146 | the lock order leaves no deadlock: some open transaction can always run its next statement |
| MissCounter.TrackedAfter | apps/api/internal/auth/misscounter.go:67-82 | one miss moves the address to the front of the most recent `limit` distinct ones |
| MissCounter.TallyAfter | apps/api/internal/auth/misscounter.go:67-82 | how one miss changes every address's tally |
| MissCounter.Counter.Count | apps/api/internal/auth/misscounter.go:57-65 | the tally that the history gives |
| MissCounter.Counter.Miss | apps/api/internal/auth/misscounter.go:67-82 | list and map stay in bijection and hold exactly what the history gives |
| MissCounter.TrackedWhileRecent | apps/api/internal/auth/misscounter.go:67-82 | an address is tracked exactly while fewer than `limit` distinct others were missed since its last miss |
| MissCounter.TallyIsMissesSinceEntry | apps/api/internal/auth/misscounter.go:57-82 | a tally is the number of misses since the address last entered the table |
| RateCounter.Counter.Roll | apps/api/internal/auth/ratecounter.go:75-89 | after any gap the two maps, never one and the same, hold the sums of the log's current and previous window |
| RateCounter.Counter.IncrementBy | apps/api/internal/auth/ratecounter.go:54-63 | adds to the current window of the log |
| RateCounter.Counter.Get | apps/api/internal/auth/ratecounter.go:65-73 | the estimate that the log gives |
| RateCounter.EstimateBetween | apps/api/internal/auth/ratecounter.go:65-73 | the estimate lies between the current window's count and both windows' |
| RateCounter.EstimateWeighs | apps/api/internal/auth/ratecounter.go:65-73 | the estimate is within half an increment of the current count plus the previous one weighed by the share of its window still inside |
| RateCounter.EstimateNeverRises | apps/api/internal/auth/ratecounter.go:65-89 | with nothing added it never rises, across any number of rolls |
| RateCounter.NoWindowOverLimit | apps/api/internal/auth/ratecounter.go:54-73 | callers that add one only below the limit keep every window within it |
| RateCounter.NoIntervalOverTwice | apps/api/internal/auth/ratecounter.go:54-73 | and every interval of one window's length within twice the limit |
| AttachPdfs.Attachment.RunPass | apps/api/db/import/reconcile.py:213-230 | one pass attaches injectively and leaves no PDF with a free candidate of that pass |
| AttachPdfs.Attachment.Attach | apps/api/db/import/reconcile.py:204-233 | the result is a partial injection and the list returned is exactly the unattached PDFs; each PDF went to the record that suited it best of those then free: by total, then by file name, then the first |
| AttachPdfs.PickSuits | apps/api/db/import/reconcile.py:165-182 | the narrowing picks the candidate whose total matches if any does, then whose file name does, then the first |
| AttachPdfs.NothingFreeForLeftovers | apps/api/db/import/reconcile.py:204-233 | no PDF returned has a free record by number or by name |
| AttachPdfs.EarlierClaimsComeFirst | apps/api/db/import/reconcile.py:204-233 | if a record is taken in a pass, every PDF it suited in an earlier pass is attached |
| SearchMerge.Ranking.Upsert | apps/api/internal/items/merge.go:72-104 | each hit tells the best tier and score, the tiers and the first extras of all contributions seen |
| SearchAnswer.CandidateIds | apps/api/internal/items/merge.go:41-64 | every id once, in order of first appearance over the three layers |
| SearchAnswer.MergeAdvanced | apps/api/internal/items/merge.go:69-172 | the answer is each wanted id some layer found once, with the best tier and score any layer gave it, by the order of the tiers, then score, then id; the counts are those of the tiers |
| SearchAnswer.CountsSum | apps/api/internal/items/merge.go:159-171 | the counts of all tiers add up to the total |
| SearchAnswer.AnswerIndependentOfOrder | apps/api/internal/items/merge.go:69-172 | id, tier, score and order do not depend on the order of contributions or of map iteration |
| SearchAnswer.PagesConcatenate | apps/api/internal/items/merge.go:154-172 | consecutive pages concatenate to the whole list |
| LatexText.LatexBreakable | apps/api/internal/pdfgen/pdfgen.go:197-229 | the text is spelled character by character, with a break point before every character but the first of each token over the cap |
| LatexText.Flush | apps/api/internal/pdfgen/pdfgen.go:205-217 | writes a finished token escaped, or broken when it is over the cap |
| LatexText.BreakableDecodes | apps/api/internal/pdfgen/pdfgen.go:174-229 | a decoder recovers every text from its breakable form |
| LatexText.EscapeDecodes | apps/api/internal/pdfgen/pdfgen.go:174-195 | and from its plain escape |
| LatexText.BreaksAreAllThatDiffers | apps/api/internal/pdfgen/pdfgen.go:197-229 | without its break points the breakable form is the plain escape |
| LatexText.NoLongStretch | apps/api/internal/pdfgen/pdfgen.go:192-229 | in more than the cap's characters there is a space, or a break point before each after the first |
| LatexText.BreaksInToken | apps/api/internal/pdfgen/pdfgen.go:197-229 | inside a token break points stand exactly when it is over the cap |
| LatexText.ShortTextIsEscaped | apps/api/internal/pdfgen/pdfgen.go:193-196 | a text of short tokens is simply escaped |
| LatexSafe.EscapeIsSafe | apps/api/internal/pdfgen/pdfgen.go:174-195 | no special character stands bare in the plain escape |
| LatexSafe.BreakableIsSafe | apps/api/internal/pdfgen/pdfgen.go:197-229 | nor in the breakable form |
| SeedTotals.AddedExactly | apps/api/db/import/seed_model.py:522-535 | a line adds exactly its own rounded amounts to the running totals, unless it carries half a sen across zero: then, and only then, they drift |
| SeedTotals.PlainNeverCrosses | apps/api/db/import/seed_model.py:522-535 | which no quantity and price the columns allow ever does |
| SeedTotals.QuotationTotals | apps/api/db/import/seed_model.py:519-536 | the totals are the sums of the lines' own amounts, whatever order the lines come in |
| SeedTotals.NothingDrifts | apps/api/db/import/seed_model.py:519-536 | total less discount is the sum of the nets; the grand total is the sum of net plus PPN |
| SeedTotals.DiscountWithinProducts | apps/api/db/import/seed_model.py:519-536 | the discount lies between zero and the product total |
| SeedTotals.PpnNearElevenPercent | apps/api/db/import/seed_model.py:509-536 | PPN is within 0.56 sen a line of 11 percent of the nets |
| SeedTotals.DiscountNearPercentage | apps/api/db/import/seed_model.py:519-536 | the discount is within a sen a line of the percentage |
| Money.RoundShift | apps/api/db/import/seed_model.py:71-73 | a whole amount may be added before or after rounding exactly when it carries no half across zero |
| SeedTotals.SplitDiscountSums | apps/api/db/import/seed_model.py:572-579 | the nets add up exactly when there is something to discount or nothing to take off |
| SeedTotals.SplitDiscountIsFair | apps/api/db/import/seed_model.py:572-579 | each line but the last is its share to half a sen |
| SeedTotals.LastLineIsFair | apps/api/db/import/seed_model.py:572-579 | the last line is its share to half a sen for each other line |
| SeedTotals.LastLineBelowZero | apps/api/db/import/seed_model.py:572-579 | the last net is negative exactly when the others, rounded, take more than the discounted base |
| SeedTotals.LastLineStaysAbove | apps/api/db/import/seed_model.py:572-579 | it never is when its own share is at least half a sen for each other line |
| SeedTotals.LastLineCanGoNegative | apps/api/db/import/seed_model.py:572-579 | the bound is met for every even number of other lines |
| SeedTotals.SplitTotalSums | apps/api/db/import/seed_model.py:582-588 | the parts add up exactly when there is a line or the total is zero |
| Money.SumPermutes | apps/api/db/import/seed_model.py:522 | a sum over lines does not depend on their order |
| MatchLines.SelectsInOrder | apps/api/db/import/seed_model.py:1466-1482 | a match is in order and passes over nothing but free lines before its last |
| MatchLines.ScanSelects | apps/api/db/import/seed_model.py:1466-1482 | whatever the scan chooses is a match |
| MatchLines.Match | apps/api/db/import/seed_model.py:1466-1482 | returns the lines of a match exactly when the scan finds one; an error names the first printed line that cannot be placed and the priced line it would skip |
| MatchLines.ScanIsComplete | apps/api/db/import/seed_model.py:1466-1482 | for a purchase order the scan finds a match whenever one exists, exactly when the order has no trap |
| MatchLines.NoTinyLinesNoTrap | apps/api/db/import/seed_model.py:1466-1482 | with no priced line that rounds to zero it succeeds exactly when a match exists |
| MatchLines.TrapExample | apps/api/db/import/seed_model.py:1466-1482 | an order with a trap, and an invoice that can be placed but raises |
| Contacts.FullerAre | apps/api/db/import/seed_model.py:844-853 | the candidates of a contact are the other standing contacts of its group that share an address or hold all its words |
| Contacts.SoleCandidateMerged | apps/api/db/import/seed_model.py:841-857 | a contact is merged in its turn exactly when one candidate alone stands and its name has no fewer words |
| Contacts.TurnsByName | apps/api/db/import/seed_model.py:840 | longer names have their turn first, equally long ones by key |
| Contacts.TurnMerged | apps/api/db/import/seed_model.py:841-862 | one contact's turn keeps the forest and the votes, and links nobody but this contact |
| Contacts.Builder.MergeContacts | apps/api/db/import/seed_model.py:828-868 | the links form a forest and lead to names of no fewer words; each survivor holds the votes and earliest date of its own tree; each quotation names its contact's root |
| Contacts.Builder.Redirect | apps/api/db/import/seed_model.py:866-868 | following a quotation's links terminates at the root of its tree |
| Contacts.ForestLinked | apps/api/db/import/seed_model.py:857-858 | linking one root to another keeps a forest |
| Contacts.AllMerged | apps/api/db/import/seed_model.py:835-862 | the links after all turns form a forest over the original contacts |
| Contacts.QuotationsNameStanding | apps/api/db/import/seed_model.py:863-868 | a quotation's contact ends as a survivor of the same client |
| Contacts.VotesConserved | apps/api/db/import/seed_model.py:859-861 | address and phone votes over survivors are those over all contacts |
| SharedLines.Shared | apps/api/db/import/dedup.py:95-105 | the number of pairs of the one greedy pairing |
| SharedLines.OnePairing | apps/api/db/import/dedup.py:95-105 | the scan's pairing is the only one its rule allows |
| SharedLines.CountSymmetric | apps/api/db/import/dedup.py:95-105 | the count is the same whichever record is read first |
| SharedLines.AreRelated | apps/api/db/import/dedup.py:480-496 | decides the relation of two records |
| SharedLines.RelatedSymmetric | apps/api/db/import/dedup.py:480-496 | which is symmetric |
| Classes.Gather | apps/api/db/import/dedup.py:473-477 | the groups are exactly the classes of the union-find, each entry in one |
| Classes.ComponentsReordered | apps/api/db/import/dedup.py:499-504 | components do not depend on the order of the entries |
| Chains.NumberGroups | apps/api/db/import/dedup.py:451-477 | the groups are the components of sharing a year-and-number key |
| Chains.NumberGroupsReordered | apps/api/db/import/dedup.py:451-477 | whatever order the records come in |
| Chains.Split | apps/api/db/import/dedup.py:499-525 | the chains are the components of being related or bound |
| Chains.ChainsReordered | apps/api/db/import/dedup.py:499-525 | whatever order the records come in |
| Revisions.TableComponents | apps/api/db/import/dedup.py:548-555 | over all records, the chains are the components of related-or-bound inside a number group |
| Revisions.BoundSheetJoins | apps/api/db/import/dedup.py:502-503 | a revision sheet stands in the chain of the record it was bound to exactly when both are in one number group |
| Labels.KeylessAlone | apps/api/db/import/dedup.py:451-477 | a record without a number is alone in its group |
| Labels.SameStemSameGroup | apps/api/db/import/dedup.py:567-576 | chains with one key stem come from one number group |
| Labels.LabelChains | apps/api/db/import/dedup.py:567-587 | every chain of two or more is labelled in chain order, under a key no other has |
| Labels.LinkRevisions | apps/api/db/import/dedup.py:548-587 | groups and chains are those components; a record is labelled exactly when its chain has another; one key to a chain, counted from one for each year, digits and client of the base; indices below the count, by date, then unmarked first, workbooks before exports, by time saved, by path; the base has index 0 |
| Labels.BaseIsEarliest | apps/api/db/import/dedup.py:528-554 | the base is of the chain's earliest date, and unmarked if any record of that date is |
| Copies.Kept | apps/api/db/import/dedup.py:396-415 | keeping a record keeps the account of files and drops |
| Copies.DroppedInto | apps/api/db/import/dedup.py:336-358 | so does merging one into a kept record, which then has the files of both |
| Copies.ClustersIntoDataEntry | apps/api/db/import/dedup.py:291-301 | an identical data-entry record is merged into a data-entry record |
| Copies.MoreFiles | apps/api/db/import/dedup.py:336-358 | after a merge the survivor has exactly its own files and those of the records dropped into it, and no other record's files change |
| Copies.RankPrecedes | apps/api/db/import/dedup.py:278-301 | the survivor order puts data entry first, then the record that proves more of reference, vessel, costs and total, then the one marked less |
| CopyPasses.Resolver.FormClusters | apps/api/db/import/dedup.py:402-411 | clusters in which every two may answer one request, no head fitting an earlier cluster; the head is data entry if any is, has the most proofs of its kind, and of equals the least marks |
| CopyPasses.Resolver.DropStale | apps/api/db/import/dedup.py:361-393 | drops exactly the sheets that repeat another client's lines |
| CopyPasses.Resolver.DropIdentical | apps/api/db/import/dedup.py:396-415 | keeps the head of each cluster of one content and merges the others into it |
| CopyPasses.Resolver.DropPrintExports | apps/api/db/import/dedup.py:431-445 | merges each export into the first kept record, in rank order, that it prints; a kept export prints the same as no other kept record |
| CopyPasses.Resolver.ResolveCopies | apps/api/db/import/dedup.py:635-646 | every record is kept or dropped once; links end at a survivor after one step or two; a survivor has exactly the files of those who reach it, its own first; it keeps its vessel and reference, and lacking one takes the first of those merged into it, none only if none has one |
| Inheritance.MergeInherits | apps/api/db/import/dedup.py:324-333 | each merge keeps it so: a record has the first vessel of all merged into it, and the first reference of those that may pass one on |
| Inheritance.OwnStays | apps/api/db/import/dedup.py:324-333 | what a record had it keeps; one that no reference can decide for takes none |
| Inheritance.DirectFamily | apps/api/db/import/dedup.py:336-358 | without chains the order is that of the merges |
| CopyTrace.TwoTraced | apps/api/db/import/dedup.py:396-445 | two passes in a row trace every drop |
| CopyTrace.OneLookup | apps/api/db/import/dedup.py:514-516 | for a data-entry record one lookup finds the survivor |

## Left out

- Clusters.Clusters: a variant's `impa` and `rejected` are fields of the clustering, by variant; two variables naming one variant object are not modelled.
- ImpaPlacing.FormGroups: fuzzy text scores are an uninterpreted function of two texts, and the closeness of a group is rounded to tenths half up; a code whose holders have no request at all, where the code's maximum would fail, is not modelled.
- Products.Build: names, specifications, review rows and the order of the products are not built, and the fuzzy tier, which only queues review rows, is not run.
- SessionSafety.StaleReplayEndsNothing: speaks of the moment of the lookup; the ending it would start runs in a transaction of its own, which ends whatever session is current when it commits.
- SessionSteps: failed-attempt counters and backoff, account creation and the advisory lock of the account editor; the editor reads role and activity when it updates.
- Sessions in general: bcrypt, SHA-256, JWT signing and random bytes are abstract values that do not collide.
- RateCounter.Counter: the clock never goes back and the window length is set once; the estimate is an exact real, rounded half away from zero.
- MissCounter.Counter: the mutex, and collisions of the address digest.
- AttachPdfs.Attachment: how numbers and names are read off file names and sheets.
- SearchMerge.Ranking.Upsert: of the fields copied from a contribution only name, vendor and request stand in the model; scores are reals, and NaN is excluded.
- SeedTotals.QuotationTotals: products are exact reals, where the decimal type has 28 digits.
- SeedTotals.NothingDrifts: for quantities and prices that are not negative and a percentage from 0 to 100, which is what the columns hold and the importer, which leaves credit rows out, passes on; AddedExactly says where a line would drift.
- MatchLines.Match: a purchase order line carries its quantity times price as one figure.
- Contacts.Builder: the making of contacts from printed names, and the display-name votes, which merging leaves alone.
- SharedLines.AreRelated: normalisation and splitting of texts into words; offers and requests arrive as words.
- Chains.Filed: dates, save times and paths stand as numbers in their order; the digits of a number arrive extracted.
- Revisions.SplitGroups: all groups are split before the first label is written, where the code takes group after group; no split reads a label. A group of one is split too, into one chain that gets no label.
- Labels.LinkRevisions: a key is a tuple of year, digits, client and count, not its text; the flags and `related_to` links between chains are not written.
- CopyPasses.Resolver.DropIdentical: a record's client, date, discount and lines stand as texts that are equal when the fingerprint is; aliases, flags and the notes on the owner's sheet are not written.
- Copies.Record: the part of the survivor rank after evidence (marks and path) is one number.
- LatexText: `IsSpace` lists the Unicode white space; bytes that are no valid UTF-8 are not modelled.
- pdfgen.go FormatIDRCents, seed_model.py yearly_numbers and monotonic, status tables, list filters and handlers: each is settled by its own body.
