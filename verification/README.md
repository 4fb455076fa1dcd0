# A(DAI): verified model

This project models the parts of the A(DAI) commons where several tables, runs
or loops have to agree, and proves what they promise.

- **The derive pass** (`derive.dfy`, with `derive_inputs.dfy`, `derive_plan.dfy`,
  `derive_pass.dfy`, `derive_results.dfy`, `derived_edges.dfy`, `mutual.dfy`,
  `topk.dfy`): derive reads a snapshot, computes edges, centroids and suggestions,
  re-checks its inputs under the write lock and applies everything or retries. Other
  writers are arbitrary table states at each read and each lock. What a done run
  leaves is said again of the tables alone, row by row and cell by cell.
- **Claims and handles** (`claims.dfy`, `claim_edits.dfy`, `claim_runs.dfy`,
  `claim_lives.dfy`, `claim_store.dfy`): who holds a page, who may do what to a
  claim, what the page's public face says, which handle resolves to it, with merges
  of pages, metadata patches, new pages and renames as steps of other writers.
- **Notes** (`notes.dfy`, `note_runs.dfy`, `note_lives.dfy`, `note_store.dfy`,
  `public_notes.dfy`): contests, context notes, objections and readings, with their
  queue rows, their signals and the relations they speak of, from filing to verdict.
- **Accounts** (`accounts.dfy`): two sources behind one cursor.
- **Graph searches** (`component.dfy`, `walk.dfy`): the capped breadth-first search
  and the scored walk.
- **The archivist's tool loop** (`agent.dfy`, `agent_trace.dfy`, `agent_tools.dfy`),
  against a model that may reply anything and a visitor who may leave at any moment.
- **Open items** (`open_items.dfy`), **rate limits** (`limits.dfy`) and **island
  relabelling** (`islands.dfy`).

Where the source changes tables or arrays step by step, a class or a loop does so
here, and its contract equates the result with a function of the old state; the
properties are proved of that function. `basics.dfy` holds options and finite lists,
`ordering.dfy` orders and the stable sort that `ORDER BY` and `Array.prototype.sort`
stand for.

Check everything with `dafny verify dfyconfig.toml`.

## What the model takes as given

- Similarities, centring, means and coherence are parameters (`Geometry`, `sim`,
  `dot`, `cosine`): any functions. Only `islands.dfy` lets a cosine be NaN.
- A fingerprint is the value fingerprinted, and a pair hash the pair: no collisions.
- Random ids are parameters; one already in use makes the insert fail and the
  transaction roll back, as the primary key would.
- Rows of an unordered query come in any order. Clocks do not go backwards.
- `created_by` of a note's relation and `created_at` of an account are not NULL, and
  account ids are distinct across the two sources.

## What the proofs found

- Derive's output stays out of its input exactly when no row the diff owns is one of
  the rows it reads; one applied plan establishes that for good.
- A suggestion's queue id is a function of artwork and creator alone. Once such a row
  is settled and the attribution has ended again, proposing the pair anew meets the
  taken id, and every run on steady inputs fails and rolls back, until the pair is
  rejected or attributed (`SettledSuggestionBlocks`, with `FitsExactly` and the tables
  of `OnceApprovedIsBlocked`).
- The suggestions are a function of the inputs exactly when no tie between best
  creators matters; otherwise the order the centroids are scanned in decides, which is
  the order some query returned its rows in, and every order can arise.
- Two edges can share an id exactly when some source id, followed by a derived label,
  begins another source id. Ids made of slugs never do: those of the older rules have
  no capitals, and today's have no two hyphens in a row.
- A reading filed in a batch and still in review when the batch is retired keeps its
  state `pending` with a refused queue row: no verdict reaches it any more, only its
  author can withdraw it. No other note ever parts from its row.
- When derive clears its waiting suggestions, open objections to them stay open, with
  no item, unless the pair is proposed again.
- An anonymous contest or context note still tells, in the JSON that is handed out,
  whether its writer's claim stands (`subject_now`); an anonymous reading tells nothing.
- An empty text delta counts as an answer: a run whose only deltas are empty ends
  without a word and without the fallback.
- A mapped handle changes page exactly by a merge of its page, and then to the page
  kept, whose holder can show it.
- `metadata.claimed` is guarded by nothing: a patch (or an upheld contest of that key)
  can take a claimed page's face or its handle's stamp away. The face, handle and
  30-day results hold exactly while no such write is dishonest; each publishing mends
  the face, not the handle.
- "One handle change per 30 days" holds while somebody holds the page and its stamp is
  left alone. Giving it up and claiming it again starts afresh: two changes can follow at one moment.
- An objection to a claim, contest, context note or reading in review is never
  settled by the verdict on it: only contributions settle their objections.
- A reading, unlike a contest or a context note, can become public again: when its
  relation had ended and lives again.
- The archivist's main loop asks for the final message outside its `try`: a stream
  that ends without one throws, and the trace then has no stop and no error.
- The stored session count can pass the quota, on the very edge of a window; the
  window property holds all the same.
- In the island relabelling the step that hands out leftover ids is needed only when
  a similarity is not a number; with it the result is a bijection in every case.

## Model

| member | source | states |
|---|---|---|
| Derive.Database.Run | src/embed/derive.ts:499-543 | for any tables other writers leave at each read and each write lock: the attempt that ends the run is the first whose inputs did not change in between; a run that is done leaves exactly the plan of the inputs as they stand at its commit, stamped with that attempt's time, and a dry, failed or exhausted run (3 attempts) leaves the tables as it found them |
| Derive.Database.Attempt | src/embed/derive.ts:501-541 | one attempt ends in exactly one of: dry report, applied, insert refused and rolled back, or inputs changed and nothing written |
| Derive.Database.Apply | src/embed/derive.ts:516-540 | the write transaction is all or nothing: all of the plan when every suggestion id is free, else a rollback to how it began |
| Derive.Database.ReplaceSuggestions | src/embed/derive.ts:525-532 | clears the pending pipeline rows, then inserts all suggestions, each with its artwork, creator and stamp, exactly when none meets a taken id |
| Derive.Database.InputFingerprint | src/embed/derive.ts:460-484 | two tables have the same fingerprint exactly when every query of the computation reads the same from them |
| Derive.Database.Read | src/embed/derive.ts:239-278 | the snapshot has, in some row order, exactly what the fingerprint covers |
| Derive.OutputIsNotInput | src/embed/inputs.ts:22-55 | writing a plan leaves what derive reads as it was exactly when no row the diff owns is one derive reads |
| Derive.AppliedIsWellFormed | src/embed/derive.ts:175-215 | after one applied plan no row the diff owns is one derive reads, however the rows began |
| Derive.SecondRunChangesNothing | src/embed/derive.ts:454-484 | a second run on the result of the first inserts, deletes and updates no edge and writes the same centroids |
| Derive.PendingAreSuggestions | src/embed/derive.ts:525-532 | the pending pipeline rows afterwards are exactly the planned suggestions, each row with its own artwork, creator and stamp; every other queue row is untouched |
| Derive.SettledSuggestionBlocks | src/embed/derive.ts:433-445 | over tables: while an unattributed artwork's best creators all have, unrejected, a queue row the run does not clear, every run whose first attempt finds its inputs unchanged fails and leaves the tables as they were |
| Derive.FitsExactly | src/embed/derive.ts:525-532 | the suggestions of a plan can all be inserted exactly when none that the scan arrives at meets an id taken by a row the run does not clear, and no two share an id |
| Derive.BarFreeKeysDiffer | src/embed/derive.ts:435-436 | no two share an id when no artwork id has a bar in it |
| Derive.OnceApprovedIsBlocked | src/embed/derive.ts:433-445 | tables that block: one artwork, one close centroid, the pair approved once, its attribution ended |
| DeriveResults.DoneQueue | src/embed/derive.ts:408-446 | over the tables a done run leaves: each waiting pipeline row proposes, for an artwork with a vector and no live credit row, a creator none of whose rivals is closer, never a pair rejected, under the id of that pair; every other queue row is as it was |
| DeriveResults.DoneSuggestsAll | src/embed/derive.ts:408-446 | and each unattributed artwork that has a close enough creator has such a row waiting, unless a closest pair was rejected |
| DeriveResults.DoneVectors | src/embed/derive.ts:515-525 | the centroids are the recomputed ones as rows of today's model, or as they were when skipped; nodes, vectors and rejections are untouched |
| DeriveResults.QueueAfter | src/embed/derive.ts:525-532 | the queue after a plan, row by row: the planned suggestions with artwork, creator and stamp, no other waiting pipeline row, all else as it was |
| DeriveResults.EdgesAfter | src/embed/derive.ts:175-215 | the edges after a plan, cell by cell: derive's own rows are the wanted edges under their ids (low confidence, derive's signal and tag, live), new ones stamped with the plan's time, old ones with their own; every other row as it was |
| DeriveResults.SuggestedOver | src/embed/derive.ts:408-446 | over the tables: only unattributed artworks are suggested, one closest creator each, never a rejected pair |
| DeriveResults.NobodyForgotten | src/embed/derive.ts:408-446 | and an unattributed artwork with a closest creator is suggested one unless that pair was rejected |
| DeriveResults.AttributedIsNotSuggested | src/embed/derive.ts:408-411 | an artwork with a live CREATED_BY row to a practitioner or a collective is never suggested anyone |
| DeriveResults.CentroidMeaning | src/embed/centroids.ts:37-66 | a recomputed centroid exists exactly for a standing creator some live row credits with an artwork that has a vector, and is the mean of those vectors, one per row |
| DeriveResults.StoredCentroidMeaning | src/embed/derive.ts:243-248 | when told to skip them: the stored centroids of today's model and size, of creators that stand |
| DeriveResults.KinExactly | src/embed/derive.ts:309-345 | STYLE_KIN joins two creators exactly when each is among the closest of those close enough to the other, ranked by similarity and then id |
| DeriveResults.AffineExactly | src/embed/derive.ts:347-384 | VISUALLY_AFFINE joins two artworks exactly when each is among the closest of those that look close enough to the other and share no live creator with it |
| DeriveResults.GatesOver | src/embed/concept-edges.ts:172-203 | a concept passes exactly with enough attested members that have a vector, by enough creators, close enough together |
| DeriveResults.NextToMeaning | src/embed/concept-edges.ts:144-170 | the rows next to one are knnK others, or all when fewer, and none left out is closer |
| DeriveResults.PropagatedExactly | src/embed/concept-edges.ts:172-241 | a concept is propagated to an artwork exactly when it has members and passes, the artwork is no member, and the share of the artworks next to it that are reaches the threshold and the cap, by share and then by id |
| DeriveResults.FirstUnchangedDecides | src/embed/derive.ts:486-543 | three attempts: the first whose inputs did not change decides, and only when none is left does the run give up, with the tables as the last lock found them |
| DerivedEdges.EdgeTable.ApplyDerived | src/embed/derive.ts:168-215 | the table becomes the synced one (unchanged in a dry run), the counters are the true numbers of changes, and only rows that differ are touched |
| DerivedEdges.EdgeTable.Insert | src/embed/derive.ts:187-193 | an insert never meets an existing id: its callers prove there is none |
| DerivedEdges.SyncedMeaning | src/embed/derive.ts:168-215 | the derived rows end as exactly the desired ones with the wanted cells and their old timestamps, every other row as it was |
| DerivedEdges.TouchesOnlyWhatDiffers | src/embed/derive.ts:168-174 | a row is touched exactly when its presence or its content has to change |
| DerivedEdges.SecondSyncIsEmpty | src/embed/derive.ts:168-215 | syncing again counts no change |
| DerivedEdges.NoChangesMeansSame | src/embed/derive.ts:194-213 | counters of zero mean the table is left as it is |
| DerivedEdges.DifferingCells | src/embed/derive.ts:206-211 | setting only the differing cells gives the corrected row, and none differ exactly when it is already correct |
| DerivedEdges.OutputNeverFeedsInput | src/embed/inputs.ts:22-52 | what an input query selects is unchanged by a sync when it selects no owned row, and shrinks when it does |
| DerivedEdges.TaggedRowsAreNotRead | src/embed/inputs.ts:42-52 | rows with the derived tag and a derived type are never read |
| EdgeRows.IdsTellApartExactly | src/embed/derive.ts:165-167 | for any set of source ids: ids tell all their edges apart, whatever derived type and target, exactly when no source id with a derived label begins another |
| EdgeRows.MintedTellApart | src/utils/slug.ts:17-40 | so source ids made of slugs are always told apart: each has no capitals (older rules) or no two hyphens in a row (today's) |
| EdgeRows.CreatorsCanCollide | src/embed/derive.ts:165-167 | creator ids with a label in capitals inside give two edges one id |
| DerivePass.ComputePlan | src/embed/derive.ts:230-451 | whatever row order the queries return, the computed plan is the plan of the fingerprinted inputs, with the centroids scanned in the order their rows came |
| DerivePass.EveryScanArises | src/embed/centroids.ts:40-66 | every order of the centroids is the scan order of some row order |
| DerivePass.Candidates | src/embed/derive.ts:322-333 | the candidate list has every ordered pair above the threshold without a shared creator, each once |
| DerivePass.RowsMembers | src/embed/derive.ts:352-374 | a pair is a candidate exactly when both ends are listed, it is ordered, similar enough, and shares no known creator |
| DerivePass.StyleKinEdges | src/embed/derive.ts:320-345 | adds both directions of exactly the mutually capped creator pairs |
| DerivePass.VisuallyAffineEdges | src/embed/derive.ts:347-384 | adds both directions of exactly the mutually capped artwork pairs |
| DerivePass.Gather | src/embed/centroids.ts:37-56 | groups the vectors of the attributed artworks by creator, with multiplicity, the creators in the order the rows first name them |
| DerivePass.ChooseCentroids | src/embed/derive.ts:249-259 | the centroids scored against are the recomputed ones, or the stored ones when told to skip |
| DerivePass.IndexCreators | src/embed/derive.ts:264-271 | the index holds exactly the attribution pairs |
| DerivePass.GroupMembers | src/embed/concept-edges.ts:105-114 | the groups hold exactly the attested memberships of artworks that have a vector |
| DerivePass.NearestRows | src/embed/concept-edges.ts:144-170 | every row gets the nearest table of the centred matrix |
| DerivePass.VoteFor | src/embed/concept-edges.ts:205-219 | the candidates are exactly the non-members whose neighbour vote reaches the threshold, each once |
| DerivePass.CutCandidates | src/embed/concept-edges.ts:221-222 | keeps exactly those fewer than the cap beat under (vote descending, id ascending), or all when the cap is 0 |
| DerivePass.Propagate | src/embed/concept-edges.ts:172-241 | adds exactly the concept edges of the concepts that pass every gate |
| DerivePass.FindBest | src/embed/derive.ts:414-420 | finds the first creator in the scan above the threshold that no other beats, or none when there is none |
| DerivePass.SuggestAll | src/embed/derive.ts:408-446 | the suggestions are those of the scan order, one per unattributed artwork with a best creator not rejected for it |
| DerivePlan.EqualInputsEqualEdges | src/embed/derive.ts:453-459 | equal inputs give equal edges and centroids, whatever order rows came in |
| DerivePlan.SymmetricAndCapped | src/embed/derive.ts:315-384 | STYLE_KIN and VISUALLY_AFFINE are symmetric and no node has more than its cap of either |
| DerivePlan.PropagationTargets | src/embed/concept-edges.ts:172-241 | propagation reaches only artworks that are not members, of concepts that pass the gates, at most the cap of each |
| DerivePlan.NoTiesOneAnswer | src/embed/derive.ts:414-445 | without a tie that matters any two scan orders give the same suggestions |
| DerivePlan.TiesTwoOrders | src/embed/derive.ts:414-445 | where a tie matters two orders of the same centroids give different suggestions |
| DerivePlan.OneAnswerExactly | src/embed/derive.ts:414-445 | all scan orders give the same suggestions exactly when no tie between best creators matters |
| DerivePlan.SuggestedMeaning | src/embed/derive.ts:408-446 | what is suggested: for each artwork the first of its best creators in scan order, unless that pair was rejected |
| DerivePlan.SourcesTellApart | src/embed/derive.ts:165-167 | no two wanted edges share an id when no source id with a derived label begins another |
| MutualTopK.Cap | src/embed/derive.ts:132-159 | sorting, cutting and intersecting every node's list keeps exactly the pairs whose ends are each among the other's k best; k of 0 or less keeps all |
| MutualTopK.DegreeAtMostK | src/embed/derive.ts:126-131 | no node keeps more than k links |
| MutualTopK.CapIgnoresOrder | src/embed/derive.ts:126-131 | the same pairs in another order survive |
| MutualTopK.CapIsMonotone | src/embed/derive.ts:126-131 | a larger cap keeps every pair a smaller one does |
| MutualTopK.SparseIsUntouched | src/embed/derive.ts:126-131 | where no node has more than k links nothing is dropped |
| MutualTopK.CapIsIdempotent | src/embed/derive.ts:126-131 | capping what was capped drops nothing |
| Neighbours.TopKByVector | src/embed/neighbours.ts:59-90 | scanning with room for k ends with the first k of a stable descending sort of the filtered candidates; with k below 1 the first candidate is a TypeError |
| Neighbours.TopKByNodeId | src/embed/neighbours.ts:177-189 | the list is the scan's best of all rows but the node itself, under its own vector; a node without a query vector has none |
| Neighbours.BestMeaning | src/embed/neighbours.ts:74-89 | the best are min(k, n) of the candidates, similarity descending, and none left out is more similar than one kept |
| Neighbours.CandidatesMean | src/embed/neighbours.ts:59-80 | the candidates are exactly the rows of the wanted kind, beginning with a wanted prefix, not left out and similar enough |
| Neighbours.BestIsStable | src/embed/neighbours.ts:81-87 | among equally similar candidates the one scanned first is kept first |
| NearestTable.Nearest | src/embed/concept-edges.ts:148-170 | the loop with its running minimum computes the table that replaces the least |
| NearestTable.TableIsNearest | src/embed/concept-edges.ts:150-168 | the table holds K other rows, or all when fewer, each once with its score, and no row left out beats one kept |
| ClaimStore.Store.RequestClaim | src/claim/store.ts:218-261 | result and tables are those of the request transition; a failed transaction leaves the tables as they were |
| ClaimStore.Store.ApproveRow | src/claim/store.ts:263-282 | marks the claim, takes the handle when it is still free, and publishes the page |
| ClaimStore.Store.ApproveClaim | src/claim/store.ts:285-306 | approval with the handle proposed in the queue row, and the row settled |
| ClaimStore.Store.RejectClaim | src/claim/store.ts:308-319 | rejection of a pending claim and of its queue row |
| ClaimStore.Store.EndClaim | src/claim/store.ts:326-361 | a pending claim ends with its row refused; an approved one ends and the page is republished; refused exactly when it is not there, not active, or not one's own to withdraw, and then nothing changes |
| ClaimStore.Store.SetHandle | src/claim/store.ts:424-450 | every refusal in the source's order, and the new handle mapped and published |
| ClaimStore.Store.Publish | src/claim/store.ts:146-175 | metadata.claimed is rewritten from the approved claims, or removed when none is left |
| ClaimStore.Store.ListNames | src/claim/store.ts:153-158 | the loop collects each public claimant's name once, in order of approval |
| ClaimStore.Store.InsertAlias | src/claim/store.ts:415-419 | a handle already mapped stays as it is |
| Claims.HandleIsPlain | src/claim/store.ts:400-404 | a well-formed handle normalises to itself |
| Claims.HandleIsRecognised | src/claim/store.ts:400-404 | a handle is recognised between blanks, with an @ before it, and in capitals |
| Claims.TrimMeans | src/claim/notes.ts:295 | trimming takes the blanks at both ends and nothing else |
| ClaimLives.HandleShape | src/claim/store.ts:391-392 | a handle is a letter or digit, 1 to 28 letters, digits, dots, underscores or hyphens, and a letter or digit |
| Claims.FindActiveMeaning | src/claim/store.ts:220-223 | the row found is the first pending or approved claim of this contributor on this node |
| ClaimRuns.UnclaimedIsValid | src/claim/store.ts:212-217 | tables without claims and faces satisfy the invariant |
| ClaimRuns.RunKeepsSound | src/claim/store.ts:212-361 | whatever other writers do, over every run: at most one pending or approved claim per contributor and node, every pending claim has a waiting queue row and no settled one does |
| ClaimRuns.PageAgreesExactly | src/utils/contribution.ts:281-299 | a page's public face and handle agree with claims and aliases all along a run exactly when every write to that page is honest, whatever is written elsewhere |
| ClaimRuns.RunKeepsValid | src/claim/store.ts:212-361 | claims, queue rows, all public faces and all handles agree all along a run exactly when every patch, creation and rename in it is honest; the claim store's steps, merges and invites always are |
| ClaimRuns.PublishingMends | src/claim/store.ts:146-168 | publishing makes a page's face say what the approved claims say, whatever was written there before |
| ClaimEdits.WriteExactly | src/routes/contributor-api.ts:449-517 | a patch of a page's metadata keeps its agreement exactly when it neither adds nor drops the face, leaves the names, and leaves a stamped handle that maps to the page, or none; other pages are spared |
| ClaimEdits.CreateExactly | src/utils/contribution.ts:210-238 | a new page agrees exactly when it comes without a face; no mapped handle moves |
| ClaimEdits.RenameExactly | src/cli/rename-contributor.ts:129 | a renamed contributor leaves a page in agreement exactly when it would list the same names |
| ClaimEdits.UnlistedRename | src/claim/store.ts:153-158 | so it is for whoever holds no approved claim there under a public name |
| ClaimEdits.MergeKeepsPage | src/utils/admin-actions.ts:559-663 | a merge keeps every page's agreement: the one merged away has no active claim, the others keep their handles |
| ClaimRuns.FaceMeaning | src/claim/store.ts:146-168 | a face that agrees exists exactly while some claim is approved and lists each public claimant's name once |
| ClaimRuns.InstantOnlyWhenFree | src/claim/store.ts:233-247 | a new claim on a practitioner is approved at once exactly when it is vouched for and nobody holds the page |
| ClaimRuns.AliasMovesExactly | src/utils/admin-actions.ts:652 | a mapped handle stays mapped; a step gives it another page exactly when it merges its page away, and then the page kept |
| ClaimRuns.AliasesFollowMerges | src/utils/admin-actions.ts:652 | through every run a mapped handle follows the merges of its page and nothing else |
| ClaimRuns.UnmergedKeepsAliases | src/claim/store.ts:321-325 | a handle of a page that is never merged keeps its page for good |
| ClaimRuns.ShownHandleResolves | src/claim/store.ts:453-459 | after every run, with merges, a shown handle resolves to the page that shows it, as long as every write to that page is honest |
| ClaimRuns.HandlesChangePageByMerge | src/claim/store.ts:406-419 | a handle one page showed is shown by another only when the first was merged into it |
| ClaimRuns.HandlesAreNeverReassigned | src/claim/store.ts:406-419 | and by none other while the first is not merged |
| ClaimRuns.MergedHandleCanBeShown | src/utils/admin-actions.ts:652 | after a merge the holder of the page kept can show a handle of the one merged |
| ClaimRuns.HandleChangesAreSpaced | src/claim/store.ts:421-438 | two handle changes of a page are at least 30 days apart by the recorded stamps while somebody holds it and no write of other writers takes its stamp away, whatever else happens between |
| ClaimRuns.WaitIsWhatWasWritten | src/claim/store.ts:430-438 | after a write to a held page an available handle is accepted exactly when the face written shows another one and makes nobody wait |
| ClaimRuns.PatchesEscapeTheWait | src/routes/contributor-api.ts:449-517 | the two patches, without the face and without the stamp: each breaks the page's agreement and lets its holder change the handle at any moment |
| ClaimRuns.ReclaimingEscapesTheWait | src/claim/store.ts:432-438 | on a page nobody holds, claimed anew, a handle is accepted at any time |
| ClaimRuns.TwoChangesAtOnce | src/claim/store.ts:321-438 | one run: a holder changes the handle, gives the page up, claims it again and changes the handle again, all at one moment |
| ClaimLives.StepRows | src/claim/store.ts:212-361 | every step: only a request adds a row; each row keeps its page, contributor and wish to be named, and its status follows the action: approved by approval, rejected by rejection, withdrawn by its own contributor, revoked by revocation |
| ClaimLives.RunAccounts | src/claim/store.ts:326-361 | over every run: a claim is withdrawn only by its own contributor, revoked only by a revocation, approved or rejected only by that verdict while pending, and final once it ended |
| ClaimLives.NewClaimWasAsked | src/claim/store.ts:218-261 | over every run: a claim that was not there was asked for by its contributor, for that page, with that wish to be named, and is approved only by an approval or at once by an instant request |
| ClaimLives.ListedAskedToBeNamed | src/claim/store.ts:153-158 | over every run from no claims on: a name listed on a page that agrees is that of someone whose approved claim there asked to be named |
| ClaimLives.RefusedChangesNothing | src/claim/store.ts:212-450 | a step of the store that is refused leaves the tables as they were |
| ClaimLives.EndExactly | src/claim/store.ts:331-345 | ending a claim is refused exactly when it is not there, not active, or somebody else's to withdraw |
| ClaimLives.RequestExactly | src/claim/store.ts:218-261 | a request makes a claim exactly when the page may be claimed, the contributor has no active claim on it, the handle asked for is free and the row can be written; at once exactly when vouched for and, on a practitioner, uncontended |
| ClaimLives.OwnClaimIsReturned | src/claim/store.ts:220-223 | whoever has an active claim on the page gets it back and nothing changes |
| ClaimLives.ContendersAreNamed | src/claim/store.ts:233-234 | a new claim names as contenders exactly the others who hold a practitioner's page |
| ClaimLives.ApprovalShowsHandle | src/claim/store.ts:263-306 | an approval shows the handle asked for, stamped now and mapped, while it is free; else the page's handle stays |
| ClaimLives.ClaimedSince | src/claim/store.ts:160-166 | publishing keeps since when a page is claimed; newly claimed, it is so since its earliest approval |
| ClaimLives.PublishedHandle | src/claim/store.ts:159-166 | publishing without a handle keeps the handle and its stamp; with one it shows it, stamped now |
| ClaimLives.MergeExactly | src/utils/admin-actions.ts:559-600 | a merge goes through exactly between two standing pages of one type, the first of which nobody claims |
| ClaimLives.MergedIsNotClaimed | src/utils/admin-actions.ts:645-655 | a page merged away is retired and cannot be claimed |
| ClaimLives.InvitesFollowMerges | src/utils/admin-actions.ts:645-655 | whoever was invited to the page merged away is invited to the one kept |
| ClaimLives.NewPagesHandles | src/utils/contribution.ts:210-238 | the handles a new page comes with are its own, but those mapped before |
| NoteStore.Store.FileNote | src/claim/notes.ts:294-376 | result and tables are those of the filing transition, every check in the source's order; a context note is live at once exactly when its writer is trusted, else pending; any other note is open |
| NoteStore.Store.FileReading | src/claim/notes.ts:400-461 | as for a note, with the live relation, source address, duplicate and quota checks; live at once exactly when its writer is trusted, else pending |
| NoteStore.Store.WithdrawNote | src/claim/notes.ts:464-486 | withdrawal by the author: note, signal, queue row, and the words withheld when never published |
| NoteStore.Store.UpholdContest | src/claim/notes.ts:495-526 | upholding ends the relation or restores the key, settles the note and reports what it did |
| NoteStore.Store.EndRelation | src/claim/notes.ts:506-510 | the update ends every live row of the triple and counts them |
| NoteStore.Store.RestoreKey | src/claim/notes.ts:511-523 | the key goes back to the first before-image the edit recorded, and what it replaced is recorded in turn |
| NoteStore.Store.DismissContest | src/claim/notes.ts:528-533 | an open contest is dismissed and its row refused |
| NoteStore.Store.ApproveContext | src/claim/notes.ts:536-541 | a pending context note or reading goes live and its words are published |
| NoteStore.Store.RejectContext | src/claim/notes.ts:543-548 | a pending context note or reading is rejected, its signal superseded and its words withheld |
| NoteStore.Store.SettleNote | src/claim/notes.ts:550-569 | settling updates note, queue row and signal together |
| NoteStore.Store.SettleItemObjections | src/claim/notes.ts:572-576 | every open objection to the item is settled, no other note changes |
| NoteStore.Store.Review | src/utils/review.ts:35-64 | a verdict goes to the code of the item's kind |
| NoteRuns.UnnotedIsValid | src/claim/notes.ts:261-376 | tables without notes satisfy the invariant |
| NoteRuns.RunKeepsValid | src/claim/notes.ts:294-576 | over every run, with retired batches, cleared suggestions and any other writer between: a note's queue row waits exactly while the note is open or pending and its batch was not retired, its state fits its kind, words in review or turned down stay withheld, an open objection's item is gone exactly when derive cleared it, nobody has two open contests on one relation, and the reading quotas hold |
| NoteRuns.StrandedExactlyByRetiring | src/utils/admin-actions.ts:407-433 | a waiting row's note is open or pending, and an open or pending note has no waiting row exactly when its signal was retired in a batch; such a note is a reading |
| NoteRuns.RetiringStrands | src/utils/admin-actions.ts:426-433 | retiring a batch strands every one of its readings still in review |
| NoteRuns.StrandedForGood | src/utils/review.ts:73-89 | after that it stays pending through every run until its author withdraws it |
| NoteRuns.RunThatStrands | src/routes/claim.ts:266-284 | a run that does so: a reading filed in a batch, the batch retired |
| NoteRuns.ClearingOrphansObjections | src/embed/derive.ts:525 | clearing a waiting suggestion leaves an open objection to it open, and no verdict on it can come |
| NoteRuns.RunEvolves | src/claim/notes.ts:463-569 | notes only move forward through any run; upheld, dismissed, rejected and withdrawn are final; signals never become active again |
| NoteRuns.NeverPublicAgain | src/claim/notes.ts:118-129 | a contest or context note that stops being public never is again |
| NoteRuns.ReturnsOnlyWithItsRelation | src/claim/notes.ts:122-129 | a note that stops being public comes back only as a reading whose relation had ended and lives again |
| NoteRuns.ReadingReturns | src/claim/notes.ts:122-129 | a reading once public is public later exactly when it is still live, its signal active and its relation lives, whatever came between |
| NoteRuns.ReadingReturnsAfterContest | src/claim/notes.ts:506-510 | and it does return: hidden by an upheld contest of its relation, it is public again once the relation is asserted anew |
| NoteRuns.RunThatRevives | src/claim/notes.ts:122-129 | a concrete run: filed, its relation ended, its relation alive again |
| NoteRuns.TakenBackStaysPrivate | src/claim/notes.ts:478-479 | the words of a note taken back before it was published stay withheld through every run |
| NoteRuns.UpholdEndsRelation | src/claim/notes.ts:490-510 | after a relation contest is upheld no row of the triple is live, every other triple is as it was, the count is the number of rows ended, and no reading of the relation is public |
| NoteRuns.UpholdRestoresKey | src/claim/notes.ts:511-523 | an upheld edit contest sets the one key to its before-image, when there is one, and changes no other |
| NoteRuns.UpholdIsUndoable | src/claim/notes.ts:514-521 | contesting the upholding in turn, and winning, brings the key back |
| NoteRuns.VerdictSettlesObjections | src/utils/review.ts:35-64 | a verdict leaves an objection to its item open exactly when the item is a claim or a note: only contributions settle their objections |
| NoteRuns.EndTripleMeaning | src/claim/notes.ts:506-510 | each row of the triple ends, each other row stays, the count is exact |
| NoteLives.NoteFiled | src/claim/notes.ts:294-376 | a claimant's note is taken exactly when it has 1 to 2000 characters, its writer holds the page and it may speak of its subject; it is live, pending with its words withheld, or open by kind and trust, with its signal and queue row to match |
| NoteLives.SubjectExactly | src/claim/notes.ts:301-334 | what a note may speak of: a live relation of its own page not already contested by its writer, an edit (a contest only), or a waiting item that names its page (an objection) |
| NoteLives.ReadingFiled | src/claim/notes.ts:400-461 | a reading is taken exactly when it has 1 to 2000 characters, of a readable relation, from an allowed source, not given before, and with fewer than 5 in the last minute and 30 in the last day; live exactly when its writer is trusted |
| NoteLives.SourceExactly | src/claim/notes.ts:418-419 | a source is allowed when there is none, or it begins with http:// or https:// in any case and has at most 2000 characters |
| NoteLives.FiledIsPublic | src/claim/notes.ts:118-129 | a contest, or a trusted writer's context note, is public at once exactly at the pages it speaks of; an objection nowhere |
| NoteLives.ReadingIsPublic | src/claim/notes.ts:118-129 | a reading is public at once exactly at both ends of its relation and when its writer is trusted |
| NoteLives.PublicWasGated | src/claim/notes.ts:338-339 | over every run from no notes on: a context note or reading is public only if its writer was trusted when it was filed or a verdict approved its own row |
| NoteLives.RunFollows | src/claim/notes.ts:463-576 | over every run a note keeps its words, writer and subject; it is withdrawn only by its writer, goes live or is rejected only by a verdict on its row, is upheld or dismissed only by a verdict on the contest or on the item objected to |
| NoteLives.NewNoteWasFiled | src/claim/notes.ts:294-461 | a note that was not there was filed in the run, and only its state may have moved since |
| NoteLives.ReadingsBounded | src/claim/notes.ts:396-405 | over every run nobody has more than 5 readings in any minute or 30 in any day |
| NoteLives.VerdictDecides | src/utils/review.ts:73-89 | a verdict that comes through upholds or dismisses an open contest, publishes or rejects a pending note, and settles that row and no other |
| NoteLives.VerdictComesThrough | src/utils/review.ts:73-89 | and on a waiting row of a note it always comes through, but for an upholding whose own signal id is taken |
| NoteLives.ItemVerdict | src/utils/review.ts:35-64 | a verdict on a claim or a contribution settles its row when its own code carries it out, else nothing happens |
| NoteLives.Withdrawing | src/claim/notes.ts:464-486 | a note is taken back exactly by its own writer while it stands; its signal is superseded unless revoked, its row no longer waits, and words never published are withheld |
| PublicNotes.Show | src/claim/notes.ts:156-174 | the labelling steps give the public view |
| PublicNotes.AnonymousHidesWriter | src/claim/notes.ts:142-174 | two writers of one note look alike exactly when the note is anonymous and, unless it is a reading, their claims on the pages they wrote from agree; the byline never tells |
| PublicNotes.WithheldHidesWords | src/claim/notes.ts:157-172 | the public view of a note is independent of its words and source exactly when it is structural-only |
| PublicNotes.SubjectOnlyWhileClaimStands | src/claim/notes.ts:219-231 | the subject, or the handle, is named exactly for an attributed note that is no reading and whose claim stands |
| PublicNotes.WhatShows | src/claim/notes.ts:156-174 | field by field what shows: own name unless anonymous, the page's handle unless anonymous or a reading, the words unless structural-only, the source only of a reading whose words show |
| PublicNotes.WhoSpeaks | src/claim/notes.ts:219-231 | a named writer is called by the page's handle while their claim stands and it has one, else by their own name |
| Accounts.PageIsPrefix | src/entity/accounts.ts:197-208 | a page is the first of what remains of both sources together, and its cursor is its last account exactly when more remain |
| Accounts.RemainingMeans | src/entity/accounts.ts:112-128 | what remains behind a cursor are the accounts later by time and then by id; on the first page all but blank contributions |
| Accounts.PageSize | src/entity/accounts.ts:197-201 | ten at a time unless asked otherwise, never more than fifty, at least one while any remain |
| Accounts.MergeIsWhole | src/entity/accounts.ts:200-205 | merging the first limit + 1 of each source gives the first limit of both, and tells whether there are more |
| Accounts.AccountsFor | src/entity/accounts.ts:211-220 | following `next` terminates and yields the whole list once, in (at, id) order |
| Accounts.ListedByTime | src/entity/accounts.ts:83-85 | the list is oldest first, by time and then by id |
| Ordering.LessMeans | src/entity/accounts.ts:82-83 | string order: a proper prefix comes first, else the lesser character where the two first differ |
| Accounts.TotalIsLength | src/entity/accounts.ts:206 | the first page's total is the length of the list exactly when no contribution has both time and id empty |
| Accounts.ListHasAll | src/entity/accounts.ts:88-146 | and then the list has every account of both sources, with multiplicity |
| Accounts.WalkInOrder | src/entity/accounts.ts:197-208 | whatever is inserted or deleted between pages, nothing is shown twice or out of order |
| Accounts.ShownOnce | src/entity/accounts.ts:195-208 | an account present from the first page to the last is shown exactly once |
| Accounts.CursorRoundTrips | src/entity/accounts.ts:222-229 | decoding an encoded cursor gives it back exactly when its time has no bar |
| Accounts.DecodedEncodes | src/entity/accounts.ts:225-229 | text is the encoding of what it decodes to, and decodes exactly when it has a bar |
| ComponentTool.GetComponent | src/archivist/tools.ts:278-321 | at most the cap of distinct, reachable nodes with the start; truncated exactly when the component is larger than the cap; otherwise the whole component; and none kept is farther than a reachable one left out |
| ComponentTool.Adjacency | src/archivist/tools.ts:290-296 | the adjacency lists join two nodes exactly when some live edge does, either way round |
| ComponentTool.MaxNodes | src/archivist/tools.ts:41-45 | 80 when no number is asked for, else what is asked, not below 5 and not above 200 |
| Graph.ClosedIsComponent | src/archivist/tools.ts:298-309 | a closed set of reachable nodes with the start in it is the component |
| SnapshotWalk.LoadGraph | pipeline/snapshot.py:165-179 | each adjacency list has one entry per end of each walkable row |
| SnapshotWalk.PickNext | pipeline/snapshot.py:187-236 | picks an eligible step none scores above, or none exactly when nothing is eligible, whatever the shuffle |
| SnapshotWalk.NewLensesPay | pipeline/snapshot.py:210-212 | 3 more for a candidate with lenses of which none was shown |
| SnapshotWalk.NoveltyPays | pipeline/snapshot.py:213-235 | 2 more for a new era, 2 for a new type, 1 for a new edge type |
| SnapshotWalk.DerivedEdgePays | pipeline/snapshot.py:222-224 | 1 more for an edge derived from embeddings |
| SnapshotWalk.RecentPicksCount | pipeline/snapshot.py:219-231 | 1 more for sharing no lens with the last pick, 2 less for sharing one with each of the last three that have any |
| SnapshotWalk.StepsAreJoins | pipeline/snapshot.py:165-179 | the steps from a node are the rows that join it to a node, either way round, but classifications |
| SnapshotWalk.NewLensOutweighs | pipeline/snapshot.py:208-232 | a candidate with only new lenses beats any that brings no new lens, era or type, whatever the edges |
| SnapshotWalk.WalkFromSeed | pipeline/snapshot.py:239-284 | the visited set holds the seed, is connected by its own links, has exactly min(60, component) nodes, and the collected edges are the induced rows as a multiset; each node was, by the edge type it was reached with, an open step than which no open step scored higher against what exactly the nodes before it had shown; the walk ends early only when no step is open |
| SnapshotWalk.InducedCounts | pipeline/snapshot.py:278-282 | each walkable row between two distinct visited nodes is collected exactly once, the lesser end first |
| Agent.RunTurn | src/archivist/agent.ts:121-329 | the nested loops compute the trace, the conversation and the call count of the specification, for every reply sequence and every moment the visitor may leave |
| Agent.Relay | src/archivist/agent.ts:177-217 | streamed events are passed on up to the moment the visitor is found gone |
| Agent.Execute | src/archivist/agent.ts:252-283 | each tool call is run once, in order, and answered: an error exactly when there is no such tool or running it threw |
| AgentTrace.EndsOnce | src/archivist/agent.ts:223-247 | a run that does not throw has exactly one stop or error, as its last event |
| AgentTrace.CallsBounded | src/archivist/agent.ts:152-223 | at most nine model calls; the run throws exactly when its last call, one of the first eight, streamed to its end without a final message |
| AgentTrace.UsageIsSum | src/archivist/agent.ts:140-146 | a run that stops reports usage once, just before, as the sum over the calls it made; one that fails reports none |
| AgentTrace.NeverEndsInSilence | src/archivist/agent.ts:148-150 | a run that stops for any reason but the visitor leaving says exactly what the model streamed, or the fallback when no delta came; so it says something exactly when some streamed text is not empty or no delta came |
| AgentTrace.AnEmptyDeltaIsSilence | src/archivist/agent.ts:213-216 | one empty delta and a plain end: no fallback and not a word |
| AgentTrace.AnswersAreTold | src/archivist/agent.ts:249-285 | each round asks for tools and answers them in the next message, in order and by id, and the visitor is told what the model is |
| AgentTools.EveryToolUseIsAnswered | src/archivist/agent.ts:249-285 | every tool use of every round is answered once, by its id and in its place in the next user message, an error exactly when there is no handler of that name or running it threw; the visitor is told so, and gets what the browser has to do |
| AgentTools.RunInRounds | src/archivist/agent.ts:152-329 | every run in closed form: as many tool rounds as the first replies ask for, eight at most, each its stream and its tools with two messages added; then one more stream and the ending that reply has, with its reason |
| AgentTools.RoundExactly | src/archivist/agent.ts:249-285 | running the tools of a message tells and answers each of its uses, and nothing else |
| AgentTools.TotalIsSum | src/archivist/agent.ts:224-231 | each of the four usage figures is summed for itself over the calls made |
| AgentTools.OfflineIsOneError | src/archivist/agent.ts:121-126 | without a key nothing is asked: one error |
| AgentTrace.RunArchivist | src/archivist/agent.ts:102-119 | the events are passed on unchanged, with links of the text before the stop |
| AgentTrace.LinksBeforeStop | src/archivist/agent.ts:109-116 | links are added at most once, right before the stop, and only for text that has some |
| OpenItems.LeftOpenCards | src/intake/open-items.ts:46-63 | the two loops compute the one-pass open map |
| OpenItems.PassIsLeast | src/intake/open-items.ts:46-63 | when cards need only node cards, the one pass is the least fixpoint of the openness rules, with each reason |
| OpenItems.PassIsSound | src/intake/open-items.ts:55-61 | without any assumption: nothing opens that the rules do not force |
| OpenItems.OrderDoesNotMatter | src/intake/open-items.ts:46-63 | the same cards in another order give the same result |
| OpenItems.OpenCardsStand | src/intake/open-items.ts:56-58 | each card an open one needs is there, and is not turned down unless open itself |
| OpenItems.OpenExactly | src/intake/open-items.ts:46-63 | card by card: left open exactly when not left out, no known card, all it needs is there and not turned down unless open, and nobody decided it, its failed link rejected it, or it is accepted and needs an open card; with its reason |
| OpenItems.AcceptedNeedsNothingOpen | src/intake/open-items.ts:59 | an accepted card that stands and is left out needs no open card |
| OpenItems.OrderMattersExactly | src/intake/open-items.ts:46-63 | for any cards: their order does not matter exactly when the cards opened by the node cards alone open no further card |
| OpenItems.OrderMattersOtherwise | src/intake/open-items.ts:50-61 | two orders with different results, on a card that needs one that is not a node card |
| OpenItems.FirstDecisionWins | src/intake/open-items.ts:89-95 | over any run the first decision on an item stands, and it is the only one reported as made |
| OpenItems.FirstDecisionIsKept | src/intake/open-items.ts:89-95 | the decision that stands is the first one made on the item once it was there |
| OpenItems.OpenItemTable.DecideOpenItem | src/intake/open-items.ts:90-95 | an undecided item takes the decision; otherwise nothing changes and false is returned |
| SessionLimit.WindowHoldsQuota | src/archivist/ratelimit.ts:106-125 | along any run of check-then-bump steps, every half-open window of the policy's length holds at most the quota (at least one) of accepted messages |
| SessionLimit.RefusedExactly | src/archivist/ratelimit.ts:106-125 | a message is refused exactly when the last accepted one is less than a window ago and the quota was accepted in a row, each within a window of the one before |
| SessionLimit.RetryAfterIsExact | src/archivist/ratelimit.ts:120-124 | after a refusal waiting `retry_after_s` is enough, and one second less is not |
| SessionLimit.CountPassesQuota | src/archivist/session.ts:159-171 | the stored count passes the quota exactly when a full window is answered on its very edge |
| SessionLimit.SessionTable.BumpSession | src/archivist/session.ts:159-171 | the row restarts at 1 after a gap longer than the window, else counts one more |
| LoginLimit.WindowHoldsLimit | src/intake/auth.ts:101-109 | pruning loses nothing: no window ever holds more accepted hits of a key than its limit |
| LoginLimit.PrunedDecidesAsWhole | src/intake/auth.ts:104-108 | the pruned list decides as the whole log of accepted hits would |
| LoginLimit.LoginChargesBoth | src/intake/auth.ts:111-116 | both keys are charged, even when the other refuses; the attempt passes exactly when neither does |
| LoginLimit.HourHoldsLimit | src/intake/auth.ts:111-116 | in no hour do more than 5 sign-ins pass for one mail address, or 30 for one network address |
| LoginLimit.SignInPassesExactly | src/intake/auth.ts:111-116 | over every run a sign-in passes exactly while, in the hour up to now, its mail address was charged less than 5 times and its network address, when known, less than 30 |
| LoginLimit.Limiter.LoginOk | src/intake/auth.ts:111-116 | result and hit lists are those of the two-key check |
| Islands.StablePermutation | src/embed/islands.ts:84-108 | the relabelling is always a bijection on 0..k-1, the identity without a previous run of the same size, and the greedy matching when every similarity is a number |
| Islands.Fill | src/embed/islands.ts:99-106 | new centroids nothing chose get the ids left over |
| Islands.ReorderingKeepsIds | src/embed/islands.ts:82-84 | when the new centroids are a reordering of the old, each strictly closest to itself, every island keeps its id |
| Islands.RerunKeepsIslands | src/embed/islands.ts:173-176 | a second run on unchanged vectors gives every node the island it had and stores the same centroids |
| Islands.Sizes | src/embed/islands.ts:236-237 | each size is the number of nodes of that island, and the sizes sum to the node count |
| Islands.IslandTable.ComputeIslands | src/embed/islands.ts:177-256 | every node gets exactly one island, the centroids are stored in id order, and a dry run writes nothing |

## Left out

- ClaimRuns.HandleChangesAreSpaced: the handle an approval carries may replace a page's handle without the wait, as in the source; the statement is about set-handle changes.
- Claims.HandleIsPlain: trimming and lower-casing are those of ASCII; Unicode white space and case folding are not modelled.
- NoteStore.Store.FileReading: the consent attribution it stores with the signal is not kept in the note tables; what it hides is said in the public view.
- NoteStore.Store.Review: whether the code behind a claim or a contribution carries a verdict out is a parameter.
- ClaimEdits.WriteExactly: what a patch leaves in `claimed` is a face with fields of the right types; other JSON there is not modelled.
- Rows that arrive from other replicas: each step here is a write of this database.
- SessionLimit.WindowHoldsQuota: one message of a session at a time; concurrent check and bump are not modelled, and the source does not promise it.
- Islands.IslandTable.ComputeIslands: k-means itself (seeding, assignment, inertia, restarts) is floating-point search; its best run is a parameter.
- `topKCentredArtworks` of src/embed/neighbours.ts: the same insertion loop as `topKByVector` over centred vectors.
- `suggestHandle`: slug clean-up by regular expressions and a search for a free variant.
- `backfillInviteClaims`, peer invites and their weekly limit: loops over `requestClaim` and counts.
- The reserved handles: a parameter of the store.
- Signal contents, titles and trace updates, and every before-image but those of contested keys: only status and withheld words are modelled.
- What else a verdict on a contribution does (publishing nodes and edges, counters): only its queue row and objections.
- The counters of the derive pass other than the edge counters, and the similarity shown with a suggestion (rounded to four digits).
- SQLite's LIKE folds ASCII case: id prefixes and the derived-id suffix are compared exactly here.
- String order is by character; for ids outside the basic multilingual plane SQLite's bytes and JavaScript's code units order differently.
- The columns shown with an account: they are functions of its id here.
- `get_component` drops nodes that have an edge but no row from the list it prints; the search itself is modelled.
- Year parsing, era buckets, seed choice and the diversity restarts of the snapshot: one branch at a time.
- Prompts, tool handlers and the fallback sentence of the archivist: a handler may succeed or throw, and the sentence is a constant.
- The listing of open reads (`listOpenReads`), token prices and the daily budget: plain aggregation.
- Contested flags, the curator's audit list and notes grouped by triple: unfiltered reads.
