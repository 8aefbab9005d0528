# A verified model of the Utreexo accumulator

Utreexo is a forest of Merkle trees. Leaves are appended as a binary counter counts; when a leaf is
deleted, what is left at its sibling moves up into the place of their parent. Several
representations of one forest have to agree after every block:

- the *stump* keeps only the hashes of the roots;
- the *full pollard* keeps all nodes, each with its hash and with the children of its sibling below it
  (its *nieces*), a root with its own children;
- a *cached proof* keeps, for some leaves, the hashes needed to hash up to the roots, and is moved
  along with every block;
- the *map pollard* keeps hashes by position, as many as are needed to prove the leaves it remembers,
  and forgets the others.

The project models the position arithmetic (`utils.go`), the hashing pass and the proof
maintenance (`prove.go`), the stump (`stump.go`), the full pollard and its nodes (`pollard.go`, `polnode.go`) and
the map pollard (`mappollard.go`), and proves that the representations agree over every run.

## How the model is built

*The state everything is measured against* is a list of slots, one for each leaf ever added, with
the empty hash where a leaf was deleted (`Slots`). Its forest is the list cut into blocks, each block
collapsed into a tree without empty places. Deleting is erasing hashes from the list
(`Slots.Erase`), adding is appending to it. Stump, pollards and cached proof are classes or values that
*represent* such a list.

*Positions* are natural numbers, numbered row by row (`Positions`, `Geometry`). The structural part of
the theory uses only a set of nodes closed under children (`Layouts.Layout`); a layout for `n` leaves in
`rows` rows is what `LayoutFor` says, and methods take it as a ghost argument. `BitLevel` proves that
the 64-bit expressions of the program compute these functions, with shifts that drop bits, for
forests of at most 62 rows.

*Hashes* are the empty hash or a digest. The compression function is a constant about which nothing
is assumed. Two hypotheses appear by name where a result needs them: `CollisionFree` (two pairs of
children with the same parent hash are equal) and `IsLeafHash` (a leaf hash is not empty and not the
hash of an inner node). `GoodSlots` says that the slots hold leaf hashes, each at most once.

*The full pollard* is a heap of cells with stored hashes and pointers to two nieces and an aunt
(`Cells.Heap`), which the program's methods change one cell at a time. It is read in three steps. A skeleton
(`Cells.Skel`) says which cells hang from a root: `Cells.Tied` that the pointers to nieces follow it and every
aunt pointer leads back, `Cells.Apart` that no cell is in it twice, `Links.Linked` that this holds of all roots
together. A tied root has a value (`Nieces.PolNode`), a node with its nieces below it. And `Nieces.Grove` says
which values stand for which trees: a root's nieces are its children, every other node's nieces are the
children of its sibling. What the pointer moves do to a value is an edit (`NieceEdits`, joined by
`CellValues`), and what an edit does to a tree is deleting or inserting (`OneDeletion`).

*A calculation with any proof*, honest or not, is a pass over items that combines siblings (`Passes.Pass`). The
same pass is run over hashes with the targets, over hashes without them, and over terms that say which hashes
were claimed (`Terms.Term`); passes over values that stand for others go the same way (`Passes.RunMap`). That a
term says the truth about every tree with its hash (`Terms.Bounded`) is kept by every step, for targets in any
order, repeated or one above another.

*Loops are methods.* The two-queue passes (`ProofPositions`, `CalculateHashes`) are proved against a
definition that visits every pair of siblings once and contains no algorithm (`Shape.PlanFor`), by an
invariant that says how many pairs the pass is past. Deletions are studied as simultaneous
(`Deletion.Rem`, `Deletion.NewPos`), and the program's one-at-a-time moves are proved to lead to the
same places. An addition over empty roots is a deletion of these roots from a forest with the new
leaves put beside the old trees (`Additions`), so one theory serves both.

*The map pollard* is judged by what it must keep (`MapTheory.Keeps`): every stored hash is that of the
forest, the roots are there, the siblings on the way up from every remembered leaf are there, and every
stored node has its aunt stored. The last is what makes pruning by looking at nieces right. Below the roots it
keeps nothing else (`MapLean.Lean`): a stored entry or its sibling is remembered, or the sibling has a child stored. The
marks for what is to be remembered are those of the cached leaves (`MapMoves.Flags`). The forest
is given by the trees at its tops, so that the states in the middle of an addition are covered too: roots
not yet used, and the top of the carry. Moving a subtree up (`MapLift`) then serves deletions as well as
additions over empty roots.

## Main results

- `Runs.Run`: for every sequence of honest blocks, stump, full pollard and map pollard have the roots of what
  is left; the cached proof is an honest proof, which the stump accepts, for exactly the leaves that
  were remembered and not deleted since; exactly these leaves are cached by the map pollard; and the map pollard has
  an entry for a position if and only if that is a root, a cached leaf, or beside the way up from one.
- `Runs.TwoRuns`: two runs that add the same leaves, delete the same slots and have the same leaves cached end the
  same, in the roots, the nodes of the full pollard, the entries of the map pollard and the cached proof.
  `Runs.RunThenSubset`: from the cached proof that a run ends with, an honest proof can be taken for any of its targets.
- `Runs.HistoryIndependent`: how leaves and deletions were distributed over blocks does not matter.
- `StumpState.Stump.Update`: for every proof that can be calculated with, honest or not, with targets repeated
  or one above another, the stump refuses it and is unchanged, or every hash it names is that of a subtree of
  the forest and all that is below these subtrees is deleted. Leaf hashes are those of leaves.
  `Soundness.ErasesExactly`: exactly the hashes named are deleted if and only if each is in the slots;
  `Counterexamples.InnerHashDeletes` is a proof with the hash of an inner node, which deletes two leaves.
  `Soundness.AnyOrder`: none of this depends on how a sort orders equal targets.
  `Soundness.ExactlyHonest` says of every proof when it is honest, and `Soundness.BindingRuns` what the hashes of
  the roots pin down; `Counterexamples.AcceptedElsewhere` is an accepted proof that names a position the leaf is
  not at, and `Counterexamples.AcceptedWithEmpty` one that leads to the right roots through an empty proof hash.
  `StumpState.Stump.Add` reports exactly the new nodes and the roots used, each with its hash and final position.
- `ProofUpdate.CachedProof.Update`: a cached proof follows a block, with its targets in ascending order.
- `PollardState.Pollard.Modify`, `PollardState.Pollard.Undo`, `PollardState.ModifyThenUndo`: the full pollard by its
  pointers. Through every deletion, addition and undo the pointers to nieces and aunts fit together and no cell
  is shared, the stored hashes are those of the trees, and the node map leads from each leaf to the cell that
  has it. Undoing a block restores all nodes with their hashes and nieces, the map and the counts, including the
  empty roots that its additions wrote over. `Cells.UpdateAunt` stops at the first niece that points back, so it
  makes all aunts right only where those it skips are (`Counterexamples.AuntNotSet`); wherever the program calls it
  they are.
- `LinkedSearch.PositionOfFound` and `LinkedSearch.FoundAtPosition`: finding a node by its position and finding
  the position of a node by walking up from aunt to aunt are inverse, for every position present and every
  node, if and only if the tree is not empty or no smaller tree is: the program finds the root by its hash, from the
  lowest row up. `Counterexamples.EmptyRootElsewhere` is the root that is given the position of another.
- `LinkedSearch.GetHash`: for any position whatever, where the search ends. For a position that is not in the
  forest the program may give the hash of another node, `Counterexamples.HashElsewhere`, although its comment
  (polnode.go:170-171) says it gives the empty hash.
- `LinkedSerialize.WriteThenRestore`: a full pollard that was written is restored, pointers and node map
  included, with the number of bytes that was announced, and its check on the number of leaves passes.
  `LinkedSerialize.WriteTo` says what each byte is.
- `PollardState.Pollard.Prove`, `Runs.PollardToStump`: the full pollard proves what it has, and stump and pollard
  accept the proof. With a single leaf it answers any request with position 0; the proof is honest if and only
  if every hash is that of a leaf and none is asked for twice (`Counterexamples.AskedTwice`, `Proving.NoneTwice`).
- `MapPollards.MapPollard.Modify`: deleting and adding keep all that the map pollard must keep, through
  moves, pruning and renumbering, and forget everything else: `MapLean.StoresExactly` says what is left,
  `MapPollards.OneCache` that it depends on the slots, the cached leaves and the number of rows alone.
  `MapPollards.MapPollard.Prove`, `Runs.ProveToStump`: whatever is cached can be proved: the lookup of a missing hash
  never happens, and the proof is honest if and only if no hash is asked for twice. `Runs.ProveThenVerify`: it verifies what it proves.
- `OneDeletion.LargestInTurn` and `Relocation.Relocated`: one deletion after another is the same as
  all at once, for trees and for positions.
- `ProofAlgebra.AddProof`, `ProofAlgebra.GetMissingPositions`, `ProofAlgebra.GetProofSubset`: union,
  missing positions and subsets of proofs are exact. The last pairs the hashes with the targets in
  ascending order, so its leaf hashes are right if and only if the wanted targets are where they
  would be in that order (`ProofAlgebra.SubsetHonest`); `ProofAlgebra.SubsetOutOfOrder` is an input for
  which they are not.

## Model

| member | source | states |
|---|---|---|
| Runs.Run | prove.go:955-968 | any honest run from nothing: stump, full pollard and map pollard represent the same slots, the hashes stored at the roots of the pollard are the roots of the stump, the cached proof is honest, in ascending order and accepted, and it and the map pollard have exactly the remembered leaves not deleted since; the map pollard has an entry for a position if and only if that is a root, a cached leaf, or beside the way up from one |
| Runs.Apply | prove.go:955-968 | one honest block keeps stump, pollard, map pollard and cached proof in agreement, the targets of the cached proof in order, and the map pollard without entries it does not need |
| Runs.TwoRuns | prove.go:955-968 | two honest runs that add the same leaves, delete the same slots and have the same leaves cached end with the same roots, the same nodes of the full pollard but for the flags, the same entries of the map pollard and the same cached proof |
| Runs.OneProof | prove.go:955-968 | there is one honest proof with ascending targets for a set of leaves |
| Runs.SubsetOfCached | prove.go:1254-1306 | a proof for some targets of a cached proof exists exactly when they are among its targets and none is wanted twice, and is honest |
| Runs.RunThenSubset | prove.go:1254-1306 | after any honest run the same holds of the cached proof it ends with |
| Runs.ApplyToMaps | mappollard.go:46-58 | a block whose proof was put in first is never refused by the map pollard, which is then without entries it does not need, in the rows the leaves need or those it had |
| Runs.ProveToStump | mappollard.go:747-793 | the map pollard proves exactly the leaves it has cached, and a stump for the same slots accepts the proof unless a hash was asked for twice |
| Runs.PollardToStump | prove.go:50-96 | what the full pollard proves is honest, it verifies it itself, and a stump for the same slots accepts it |
| Runs.ProveThenVerify | mappollard.go:797-815 | what the map pollard proves for cached hashes, none asked for twice, it verifies, and nothing changes |
| Runs.CachedNext | prove.go:955-968 | what a block does to the set of cached hashes adds up, over blocks, to "remembered once and not deleted since" |
| Runs.SlotsOfHistory | stump.go:59-69 | after any blocks that never add a hash again once it is deleted, the slots are all leaves added with all deleted hashes erased |
| Runs.SlotsByIndex | stump.go:59-69 | after any blocks, each slot is empty if it was among those deleted, and else holds the leaf added there |
| Runs.HistoryIndependent | stump.go:59-69 | two runs with the same added leaves and the same deleted slots end with the same slots and equal roots, even when hashes are added again |
| Runs.ProvesAccepted | stump.go:74-99 | an honest proof is well formed and is matched with roots |
| Runs.HonestLeafHashes | stump.go:74-99 | the hashes of an honest proof are leaf hashes |
| StumpState.Stump.Update | stump.go:59-69 | refused, and unchanged, exactly when the calculated hashes are not those of roots in order; otherwise every hash is that of a subtree, and all leaves below these subtrees are deleted before the new leaves are added; leaf hashes were present and exactly they are deleted; an honest proof is never refused and its report is true; the additions reported are, for any accepted proof, the new nodes and the roots used and nothing else; targets may repeat or be above one another |
| StumpState.Stump.Del | stump.go:104-124 | refused exactly when there is no match; otherwise the roots matched are overwritten by the hashes calculated without the targets; for targets that differ and are not above one another, the nodes returned are all nodes above the targets |
| StumpState.Stump.Add | stump.go:129-215 | the roots become those of the slots with the leaves appended; the nodes reported are exactly the new nodes and the roots used, with their hashes, in final positions; the roots to destroy are exactly the empty ones written over |
| StumpState.Stump.constructor | stump.go:11-16 | a new stump represents no leaves |
| StumpState.ReplaceRoots | stump.go:118-121 | exactly the roots at the given indexes are replaced |
| StumpState.UpdateTruth | stump.go:59-69 | for an honest proof, the nodes reported by the deletion are those above the targets with the hash of what is left of them |
| Stumps.Verify | stump.go:74-99 | an index list is found exactly when there is one that matches candidates and roots in order |
| Stumps.MatchRoots | stump.go:81-96 | the scan from the lowest root finds a match whenever there is one |
| Stumps.HonestAccepted | stump.go:74-99 | an honest proof is accepted |
| Stumps.HonestCandidates | prove.go:535-613 | an honest proof leads to the hashes of the roots above its leaves, and without the leaf hashes to those of what is left of these roots |
| Stumps.RootHashAt | utils.go:110-123 | the roots are listed from the highest row down, each with the hash of its collapsed block of leaves |
| StumpAdd.AddOne | stump.go:159-198 | one leaf carried through the roots gives the roots of the slots with it, and reports the nodes of the carry at their final positions |
| UpdateData.MergeSubTrees | stump.go:201-212 | leaving out a list that the next list repeats loses nothing, and all merged entries are true |
| UpdateData.AllReported | stump.go:129-215 | every node that is new after the additions and every root they used is reported |
| UpdateData.NothingElse | stump.go:129-215 | every entry reported is a new node, or a root of before that the carry joined with a new one |
| UpdateData.GetHashSubset | prove.go:347-362 | exactly the entries with one of the hashes, in order |
| Destroyed.RootsToDestroy | stump.go:219-239 | exactly the empty roots that the additions write over, in ascending order and final positions |
| Carry.AddPosition | stump.go:138-147 | the position of a leaf after all additions, found by moving it past the empty roots in its way |
| Carry.WrittenOverLargest | stump.go:219-239 | the empty roots written over are never siblings or above one another, and never roots afterwards |
| Additions.AddedForest | stump.go:129-199 | deleting the empty roots from the old trees and the new leaves gives the forest after the addition |
| Growth.CarryRoots | stump.go:161-197 | the carry of one leaf stops at the lowest row without a root, and makes one root there |
| Soundness.BothRuns | prove.go:535-613 | with the target hashes and without, for any targets, the calculation goes the same way, and what it finds are two readings of the same terms |
| Passes.RunMap | prove.go:535-613 | the pass commutes with any map of values that commutes with combining two siblings, and runs out of proof hashes in the same cases |
| Terms.NextBounded | prove.go:459-478 | combining two terms that say the truth about every tree with their hash, claims and what is left included, gives such a term |
| Terms.RootTerms | prove.go:535-613 | the pass ends with such terms at roots, and every target hash is claimed by some of them and nothing else is |
| Soundness.Sound | stump.go:74-99 | any hash but the empty one of any accepted proof is that of a subtree of the forest, and a leaf hash that of a leaf |
| Soundness.AnyOrder | prove.go:110-124 | what holds of an accepted proof holds whichever way equal targets are ordered before the calculation |
| Soundness.DeletedRoots | stump.go:104-124 | the roots any accepted proof leaves are those of the slots without everything that is below a subtree with one of its hashes |
| Soundness.ErasesExactly | stump.go:104-124 | the roots left are those of the slots with exactly the hashes named erased if and only if each of these, but for empty ones, is in the slots |
| Soundness.DeletesMore | stump.go:104-124 | a hash that is not that of a leaf deletes a leaf that is not named |
| Counterexamples.InnerHashDeletes | stump.go:104-124 | for any four leaves, the proof for the hash of the inner node over the first two is accepted, and the roots left are not those without that hash |
| Counterexamples.AcceptedElsewhere | stump.go:81-96 | with leaves a, deleted, c, the proof that a is at position 2, where c is, is accepted although a is at position 4 |
| Counterexamples.AcceptedWithEmpty | prove.go:459-478 | with leaves a, deleted, the proof that a is at position 0, with an empty hash beside it, leads to the root and is accepted, but is not honest |
| Soundness.Bound | prove.go:535-613 | a calculation from leaf hashes that arrives at the hash of a tree used leaves of that tree, and without them arrives at the hash of the tree without them |
| Soundness.ExactlyHonest | prove.go:535-613 | any proof is honest if and only if it is well formed, has exactly the proof hashes planned and none of them empty, its hashes are those of leaves, and it leads to the hashes of the roots above its targets |
| Soundness.Binding | prove.go:535-613 | two calculations for the same targets, without empty hashes, that give the same roots used the same target hashes and the same proof hashes |
| Soundness.BindingRuns | prove.go:535-613 | two runs of the calculation for the same targets, without empty hashes, that find the same list of roots used the same target hashes and the same proof hashes |
| ProofUpdate.CachedProof.Update | prove.go:955-968 | an honest proof in ascending order before a block is honest and in ascending order after it, for the cached leaves not deleted and the new leaves remembered, and no others |
| ProofUpdate.CachedProof.UpdateRemove | prove.go:882-952 | after the deletion the proof is honest, for the leaves that stay, at the positions they move to, in ascending order |
| ProofUpdate.CachedProof.UpdateAdd | prove.go:1333-1400 | after the addition the proof is honest, for the old leaves and those remembered, at their final positions, in ascending order |
| ProofUpdate.HashesKept | prove.go:882-952 | the hashes cached after a deletion are those cached before and not deleted |
| ProofUpdate.HashesCarried | prove.go:1333-1400 | the hashes cached after an addition are those cached before and those remembered |
| RemoveStep.UpdateProofRemove | prove.go:882-952 | the proof returned is honest in the forest after the deletion, its targets are where the leaves that stay move to |
| RemoveStep.RemainingHashes | prove.go:899-943 | for every position still needed at which something is left, the hash of what is left, from the old proof or the block's report |
| ProofRemove.KeepNeeded | prove.go:904-924 | each old proof hash is dropped, replaced or kept as its position says |
| ProofRemove.AddMissing | prove.go:933-943 | the hashes reported for the positions asked for |
| ProofRemove.NewProofHashes | prove.go:896-943 | the new list has exactly the needed positions at which something is left |
| NewPositions.GetNewPositions | prove.go:830-878 | every entry with a hash, moved by all deletions, in ascending order |
| NewPositions.MovePosition | prove.go:847-866 | a position moved by one deletion after another; stopping at a root and skipping other trees changes nothing |
| AddStep.UpdateProofAdd | prove.go:1333-1400 | the proof returned is honest in the forest after the addition, for the renumbered and moved old leaves and the new leaves remembered |
| AddStep.AttachPositions | prove.go:1336-1345 | the leaves and hashes of an honest proof, at their positions in the new number of rows |
| AddStep.MoveOneByOne | prove.go:1349-1352 | moving a list past one empty root after another moves it past all |
| AddStep.PickRemembered | prove.go:1358-1374 | exactly the added leaves whose index is larger than all before it in the list of indexes to remember |
| AddStep.RememberedAscending | prove.go:1358-1374 | in an ascending list that is every index |
| AddStep.AllFound | prove.go:1380-1396 | every hash needed after the addition is found among the reported nodes and the moved old hashes |
| ProofCarried.NeededFound | prove.go:1354-1393 | a position needed after the addition was needed before, or belongs to a new node or a used root |
| ProofFollows.ProofAfter | prove.go:945-950 | moving the leaves and the remaining hashes to their new positions gives an honest proof |
| ProofMoves.ProofPosMoved | prove.go:882-952 | a needed position at which something is left moves to a needed position |
| ProofMoves.ProofPosOrigin | prove.go:882-952 | every position needed after a deletion comes from one needed before |
| ProofMoves.TouchedMoved | prove.go:882-952 | a node has remembered leaves below it exactly when its new position has |
| ProofMoves.CalcDeleted | prove.go:535-613 | the calculation without leaf hashes finds, at every node, the hash of what is left there |
| OneToOne.LeavesInjective | prove.go:830-878 | leaves that stay move to different places |
| OneToOne.HighestInjective | prove.go:830-878 | nodes that keep their sibling move to different places |
| Translation.MaybeRemap | prove.go:1310-1328 | every position is renumbered when the forest gets more rows |
| Translation.TranslateBack | utils.go:459-466 | renumbering to other rows and back is the identity on nodes of the forest |
| Translation.TranslateOrder | utils.go:459-466 | renumbering keeps the order |
| Translation.SameForestFor | utils.go:459-466 | renumbering takes nodes to nodes, leaves to themselves, roots to roots and children to children, and reaches every node |
| Translation.AtSame | utils.go:459-466 | a renumbered node has the tree it had |
| Translation.ProofPosSame | utils.go:459-466 | the positions a proof needs are renumbered with its targets |
| ProofAlgebra.AddProof | prove.go:774-827 | an honest proof for exactly the targets of two honest proofs |
| ProofAlgebra.GetMissingPositions | prove.go:735-770 | exactly the positions needed to prove both sets of targets that the proof for the first does not have |
| ProofAlgebra.GetProofSubset | prove.go:1254-1306 | fails exactly when a wanted target is missing or repeated; otherwise the proof hashes are right and in order, and each leaf hash is the one at the target's rank |
| ProofAlgebra.SubsetHonest | prove.go:1266-1303 | the result is honest if and only if every wanted target is at its rank in the list of targets |
| ProofAlgebra.RankInOrder | prove.go:1266-1303 | in an ascending list of targets every target is at its rank |
| ProofAlgebra.SubsetOutOfOrder | prove.go:1266-1303 | in a well-formed forest of two leaves, with targets 1, 0, the hash given for target 1 is that of leaf 0 |
| ProofAlgebra.UnionIff | prove.go:774-827 | a position is needed for two sets of targets when it is needed for one and computable from neither |
| Calculation.CalculateHashes | prove.go:535-613 | for any targets in the forest, repeated or one above another, the roots found are those of the pass; for targets that differ and are not above one another, they are the hashes of the roots above the targets, lowest first, and the nodes are those on the way, as the recursion from the roots down defines them |
| Calculation.PlannedCalculable | prove.go:597-602 | as many proof hashes as there are proof positions suffice |
| Calculation.HashStep | prove.go:555-607 | each step fetches the hash of the position it takes and of its sibling, and the next proof hash is the one planned for that sibling |
| Calculation.NextProofHash | prove.go:597-602 | the k-th proof hash consumed belongs to the k-th proof position |
| Calculation.CalcUp | prove.go:459-478 | the hash of a parent from a child and its sibling, whichever is on the left and whichever is empty |
| Honest.Complete | prove.go:535-613 | from the leaves and the hashes of the forest the calculation finds the hash of every node on the way |
| ProofPositions.ProofPositions | utils.go:559-604 | the proof positions and the computable positions, in ascending order, exactly as the definition by pairs lists them; for any targets in the forest, every proof position is beside a node on the way up from a target |
| SingleTarget.ProofPosition | utils.go:542-556 | for one target the siblings on the way up, the same list |
| Shape.PlanMeaning | utils.go:559-604 | what the three lists contain: untouched siblings of touched nodes, touched inner nodes, touched roots |
| Shape.PlanAscending | utils.go:559-604 | the lists are in ascending order |
| Streaming.PassStep | prove.go:501-529 | taking the least pending position visits the next pair with a touched node, and adds what the plan has for it |
| Streaming.SeekRow | prove.go:570-583 | the row reached is the row of the position, and the test for roots is right on it |
| Streaming.SeekPossibleRow | utils.go:570-585 | the same with the ends of the rows of a full forest |
| Entries.MergeSorted | prove.go:202-268 | the sorted union, with the first list's entry where both have a position |
| Entries.SubtractSorted | prove.go:271-295 | the entries whose position is not in the other list |
| Entries.SubsetSorted | prove.go:323-343 | the entries whose position is in the other list |
| Entries.MergeAscending | prove.go:615-665 | the ascending union |
| Entries.SubtractAscending | prove.go:702-725 | the positions not in the other list |
| Entries.SortFacts | prove.go:110-124 | sorting entries with different positions gives an ascending list of the same entries |
| Entries.SortPositionsFacts | utils.go:949-956 | sorting keeps the positions, and the result is strictly ascending exactly when none is repeated |
| DeTwin.DeTwin | utils.go:489-511 | the largest positions at which everything is deleted: ascending, no two of them siblings, none above another |
| DeTwin.InsertInOrder | utils.go:514-521 | the position is inserted before the first greater one |
| DeTwin.Canonical | utils.go:489-511 | any list without siblings that covers exactly the deletions is that list |
| Relocation.Relocated | prove.go:830-878 | one move after another takes every position that stays to where the simultaneous deletion takes it |
| Sequential.OneAtATime | prove.go:847-866 | moving by the deletions in ascending order is moving up once for each ancestor whose sibling is deleted |
| Deletion.MovedTo | prove.go:830-878 | what is left at a position is found at its new position |
| Deletion.GoneIff | utils.go:489-511 | nothing is left at a position exactly when everything at it is deleted |
| Slots.DeletedSlots | stump.go:104-124 | deleting leaves from the forest of the slots is erasing their hashes from the slots |
| Inverse.PrevOfNext | utils.go:252-304 | the previous position of the next position is the position, and the row goes up by one |
| Inverse.NextOfPrev | utils.go:252-304 | every position above the leaves and at or below the parent of the deleted one has a previous position at or below the sibling, children from children, whose next position it is |
| Navigation.NextIsShift | utils.go:252-270 | removing the bit of the deleted row is moving up from the sibling to the parent |
| Navigation.AncestorAbove | utils.go:179-200 | the test for ancestors finds what is above |
| TreeIndex.DetectOffset | utils.go:337-390 | for any position: the number of bigger trees, the distance to the root in a byte that may wrap around, and bits that say on which side of each node on the way down the next one is, with all but the last complemented; for a position of the forest, its own tree |
| TreeIndex.Lands | utils.go:337-390 | where the search for any position stops is a node of the forest, which for a position of the forest is the position |
| TreeIndex.SameIndex | utils.go:337-390 | two nodes get the same tree exactly when they have the same root |
| TreeIndex.OneRoot | utils.go:337-390 | there is exactly one root at or above a node |
| Geometry.RootTest | utils.go:145-161 | the arithmetic test for roots finds exactly the nodes without a parent, in any number of rows |
| Geometry.RootIff | utils.go:102-107 | a node is a root exactly when its row has an odd number of nodes and it is the last |
| Geometry.RowEnds | utils.go:438-456 | either end of a row tells whether a node of the forest is on it or above |
| Geometry.TreeRows | utils.go:401-407 | the least number of rows with room for the leaves |
| Positions.RowStep | utils.go:76-78 | the parent is one row up at half the offset, and the sibling on the same row beside |
| Positions.RowChildren | utils.go:24-34 | the children are one row down at twice the offset |
| BitLevel.ParentBits | utils.go:76-78 | the word expression is the parent |
| BitLevel.ChildBits | utils.go:24-34 | the word expressions are the children |
| BitLevel.ParentManyBits | utils.go:82-92 | the word expression is the parent taken as often as asked |
| BitLevel.RootPositionBits | utils.go:102-107 | the word expression is the position of the root of a row |
| BitLevel.RemoveBitBits | utils.go:204-215 | the word expression is the number with the bit removed |
| BitLevel.AddBitBits | utils.go:219-232 | the word expression is the number with the bit inserted |
| BitLevel.DetectRow | utils.go:308-316 | counting ones from the top gives the row |
| BitLevel.InForestTest | utils.go:524-537 | going down to the last leaf tells whether a position is in the forest |
| BitLevel.MaxPositionBits | utils.go:445-456 | the end of a row from the ancestor of the number of leaves |
| PollardState.Pollard.Modify | pollard.go:71-90 | the cells fit together and are those for the slots with the hashes erased and the leaves appended; the map has the leaves and leads to their cells; the counts are right |
| PollardState.Pollard.Undo | pollard.go:327-342 | with a hash for each target the cells, the map and the counts are those for the slots from before the block; otherwise the additions are undone and nothing else |
| PollardState.Pollard.GetRoots | pollard.go:523-531 | the hashes stored at the roots are those of a stump for the same slots |
| PollardState.Pollard.constructor | pollard.go:49-55 | a new pollard represents no leaves |
| PollardState.ModifyThenUndo | pollard.go:327-342 | undoing a block restores all nodes with their hashes and nieces, the keys of the map, the number of leaves and the number of deletions; pointers and map fit |
| PollardState.Pollard.Prove | prove.go:50-96 | fails exactly when there are two leaves or more and some hash is not that of a leaf; otherwise the proof is honest if and only if each hash is that of a leaf and none is asked for twice; with two leaves or more each target is where the leaf asked for is, also for hashes asked for twice |
| PollardState.Pollard.Verify | prove.go:398-437 | accepts exactly what a stump with the same roots accepts, and anything when there is nothing to verify |
| PollardState.OneNode | pollard.go:21-33 | there is one node for a tree, but for the flags |
| Nieces.Found | polnode.go:141-165 | following the nieces along the bits from the root finds the node with the hash of the tree at the position, and beside it the node that has its children; or nothing exactly when the position is not present |
| Cells.UpdateAunt | polnode.go:404-427 | wherever the nieces hang as they should: afterwards all aunts below the node are right if and only if those it does not look at, because it stops at the first that is right, were right before; nothing but aunts changes |
| Counterexamples.AuntNotSet | polnode.go:404-427 | a left niece with the right aunt keeps a right niece with a wrong one from being corrected |
| Cells.SwapNieces | polnode.go:351-357 | two nodes apart from each other exchange all that hangs from them, with the aunts right |
| Cells.TransferNiece | polnode.go:359-363 | all that hangs from a node hangs from another, with the aunts right |
| CellEdits.TransferAunt | polnode.go:366-400 | a node takes the place of another below its aunt, and leaves its own |
| CellEdits.DelNode | polnode.go:310-344 | only the cells around the node change: the aunt loses its pointer to the node, both nieces lose their pointer to it, and the node loses its own |
| CellPaths.GetSibling | polnode.go:50-71 | the other niece of the aunt; nothing for a root |
| CellPaths.GetParent | polnode.go:74-99 | the node whose children hang where this one hangs |
| CellPaths.GetChildren | polnode.go:102-122 | what hangs from the sibling, or from a root |
| CellHashes.HashToRoot | polnode.go:430-447 | the hashes of a node and of all nodes above it are made new from their children, lowest first, and nothing else changes |
| CellEdits.MoveUp | pollard.go:247-255 | below two nieces and their nieces, the pointer moves of a deletion: the sibling is where the parent was, with its children, and everything is tied |
| CellEdits.TakeRoot | pollard.go:256-278 | the sibling of a deleted child of a root is moved into the cell of the root |
| CellValues.DeletedByMoves | pollard.go:247-310 | the moves and the new hashes up to the root are the edit that takes a node out |
| CellInserts.MoveDown | pollard.go:468-489 | the node that moved up is beside the node put back, a new cell is where it was, and everything is tied |
| CellInserts.PutBesideRoot | pollard.go:489-504 | the root moves into a new cell, beside the node put back, below the old cell |
| CellValues.InsertedByMoves | pollard.go:468-517 | the moves and the new hashes up to the root are the edit that puts a node back |
| CellInserts.JoinRoots | pollard.go:157-169 | two roots are below a new cell, with their nieces swapped |
| CellInserts.SplitRoot | pollard.go:393-407 | a root comes apart into two, with their nieces swapped back, and is cut off |
| CellInserts.DropRoot | pollard.go:219-227 | a root loses all that hangs from it |
| Links.WalkDown | polnode.go:143-165 | the cells at the ends of the ways down along the bits, beside it and before it |
| LinkedSearch.GetNode | polnode.go:125-168 | for any position, the node, sibling and parent where the search ends, which is the position itself if it is in the forest; and no node if it ends nowhere |
| LinkedSearch.CalculatePosition | polnode.go:187-256 | from any cell, by walking up the aunts: the place reached by going down the turns that led up, from the lowest root with the hash of the one arrived at |
| LinkedSearch.PositionOfFound | polnode.go:125-256 | for every position present, the node found there has the hash of the tree there, and its position is the one given if and only if the tree is not empty or no smaller tree is; otherwise it is that of a smaller empty tree |
| LinkedSearch.FoundAtPosition | polnode.go:125-256 | for every cell of the pollard, the cell found at its position is the same cell if and only if its tree is not empty or no smaller tree is |
| LinkedSearch.GetHash | polnode.go:172-185 | for any position, the hash of the tree where the search ends, which for a position of the forest is the one there; the empty hash if it ends nowhere |
| LinkedSearch.LeafPosition | prove.go:64-72 | the position calculated from the cell the map leads to is where the leaf is |
| LinkedSearch.LeafOnce | polnode.go:187-256 | a leaf hash is in one cell of the pollard |
| Counterexamples.EmptyRootElsewhere | polnode.go:216-238 | with three leaves deleted, the empty root at position 4 is given position 2 |
| Counterexamples.HashElsewhere | polnode.go:170-185 | with five leaves, position 6 is not in the forest, but its hash is that of the leaf at position 4 |
| NieceNavigation.LowestIff | polnode.go:216-238 | the first root from the lowest row up with the hash of a root is that root if and only if its tree is not empty or no smaller tree is empty |
| LinkedDelete.RemoveLeaves | pollard.go:178-201 | sorting, merging twins and deleting one position after another gives the cells for the slots with the hashes erased; the map keeps its keys and leads to the right cells |
| LinkedDelete.DeleteSingle | pollard.go:233-312 | one deletion below a root, by pointers: the sibling takes the place of the parent, all hashes above are those of what is left, everything is tied, and the map leads to the sibling if it is a leaf that became a root |
| LinkedDelete.DeleteRoot | pollard.go:205-230 | deleting a root gives the cells for the forest with that tree empty |
| LinkedAdd.AddLeaf | pollard.go:93-113 | a new cell, which the map leads to, is joined with the roots in its way; the cells are those for the slots with the leaf |
| LinkedAdd.CalculateNewRoot | pollard.go:116-175 | the carry over cells, which swaps nieces and hashes parents, gives the root of the block with the leaf; empty roots give way, nothing is pruned, and leaf hashes stay in their cells |
| NiecePollard.SwappedRoots | polnode.go:351-357 | two roots with their nieces swapped are below a new root as its children |
| NiecePollard.SwappedBack | polnode.go:351-357 | and come apart again into the two roots |
| NieceEdits.DeleteBelowTo | pollard.go:247-310 | going down along the bits to the sibling of a deleted position, giving its aunts and nieces over and hashing back up is deleting at that position of the tree |
| NieceEdits.InsertBelowTo | pollard.go:454-520 | going down along the bits, putting the node beside what moved up and hashing back up is inserting it into the tree |
| LinkedUndo.UndoSingleAdd | pollard.go:390-410 | the tree of the last leaf comes apart into the roots it was made of, but for empty ones; its hash is no key any more; pointers and map fit |
| LinkedUndo.UndoEmptyRoots | pollard.go:345-387 | the empty roots are put back where they were, those from before the block and those it deleted |
| LinkedUndo.PutBackEmpty | pollard.go:371-385 | a list of roots with some empty ones left out is completed |
| LinkedUndoDels.UndoDels | pollard.go:412-452 | putting the deleted leaves back, highest position first, restores the cells from before the deletion, and the map leads to all leaves |
| LinkedUndoDels.DeTwinNodes | polnode.go:470-505 | the nodes of the largest deleted positions, put together from the leaves, by pointers |
| LinkedUndoDels.PutBack | pollard.go:430-446 | one deletion undone, of a root or below one, with the map leading to the right cells |
| LinkedPutBack.UndoSingleDel | pollard.go:454-520 | one deletion below a root undone, by pointers: the nodes are those of the forest before it, and a root that moved into a new cell is found there by the map |
| PollardUndo.RootCount | utils.go:410-412 | there are as many roots as binary ones in the number of leaves |
| LeafCounts.DeletedCount | pollard.go:73-85 | deleting leaves empties as many slots as there are positions |
| LeafCounts.LeavesAndVacant | pollard.go:694-699 | leaves and empty slots together are all slots |
| LinkedSerialize.WriteTo | pollard.go:564-595 | byte by byte: the number of leaves and of deletions, each with its least significant byte first, then for every node, in preorder from the largest root on, its hash, a byte that says if it is a leaf and one that says if it has nieces; as many bytes as SerializeSize says |
| LinkedSerialize.WriteNode | pollard.go:597-657 | a node written by following its pointers, marked as a leaf when its sibling has no nieces, is the format of its value |
| LinkedSerialize.SerializeSize | pollard.go:556-561 | 34 bytes for each node and 16 more |
| Serialize.ByteAt | pollard.go:564-585 | the i-th byte written for a number is its i-th digit to the base 256 |
| Serialize.NumberIsSum | pollard.go:661-682 | the number read from bytes is the sum of the bytes times the powers of 256 |
| Serialize.RootRecords | pollard.go:597-657 | the k-th record of the stream is that of the k-th node in preorder over all roots |
| Serialize.OneReadsBack | pollard.go:597-758 | reading a node that was written gives the node with its hashes and nieces and without flags, the leaves marked below it, and the rest of the stream |
| LinkedSerialize.ReadNode | pollard.go:705-758 | a node read into new cells is tied, has the value the stream describes, and the leaves marked are in the map, which leads to their cells |
| LinkedSerialize.RestorePollardFrom | pollard.go:661-702 | for any stream: the counters are the sums of their bytes times the powers of 256, the pollard read is the one the stream describes, its pointers fit, the map leads to cells with the hash, nieces come in pairs, and keys and deletions add up to the leaves; it is refused exactly when the stream ends in a counter or in a node, or the number of leaves is not right |
| Serialize.RoundTrip | pollard.go:556-758 | what was written for any slots is read back: nodes, keys of the map, counters, nothing left over, and the check on the number of leaves passes |
| LinkedSerialize.WriteThenRestore | pollard.go:556-758 | a pollard written and restored represents the same slots, with the same nodes but for the flags, and pointers and map fit |
| OneDeletion.DeleteAtRem | pollard.go:233-312 | for the trees that the nodes stand for: replacing the parent by the sibling is deleting the position, and leaves no empty place |
| OneDeletion.InsertDeleted | pollard.go:454-520 | for the trees that the nodes stand for: inserting what was deleted at its position undoes the deletion |
| OneDeletion.InTurnIsAtOnce | pollard.go:178-201 | deleting in ascending order, with no siblings and nothing above another, is deleting all at once |
| OneDeletion.LargestInTurn | pollard.go:178-201 | deleting the merged positions one after another is deleting all the leaves at once |
| MapPollards.MapPollard.constructor | mappollard.go:37-43 | a new map pollard, with any number of rows, represents no leaves and has no entries |
| MapPollards.MapPollard.Modify | mappollard.go:46-58 | refused, and unchanged, exactly when a hash to be deleted is not cached; otherwise the hashes are erased and the leaves appended, exactly the leaves remembered and not deleted are cached, and the rows grow to what the leaves need; if below the roots there was nothing but what is needed and the proof put in for the deletion, there is nothing but what is needed |
| MapPollards.MapPollard.Remove | mappollard.go:454-474 | refused, and unchanged, exactly when a hash is not cached; otherwise what is left is represented, nothing else is uncached, and all entries that only the deleted leaves needed are forgotten |
| MapPollards.MapPollard.RemoveSingle | mappollard.go:406-448 | the cache keeps what it must for the forest without one position; leaves remembered elsewhere stay, and only marked entries are marked afterwards; what is not needed any more on the way up and beside it is forgotten, except at positions given that are not above the deletion |
| MapPollards.MapPollard.UpdateHashes | mappollard.go:376-402 | every stored node above the deletion gets the hash of what is left there, and nothing else changes |
| MapPollards.MapPollard.ForgetUnneededDel | mappollard.go:132-162 | pruning on the way up forgets nothing that is needed, and everything on the way or beside it that is not |
| MapPollards.MapPollard.ForgetBelow | mappollard.go:359-373 | exactly what is below the position is forgotten |
| MapPollards.MapPollard.MoveUpDescendants | mappollard.go:220-245 | everything below the two siblings moves to its next position, row by row, without one entry overwriting another |
| MapPollards.MapPollard.MoveUpNieces | mappollard.go:248-265 | the two children of a position are moved, if they are stored |
| MapPollards.MapPollard.Remap | mappollard.go:296-336 | with more rows all entries and cached leaves are at their renumbered positions, and there is room for one more leaf; the number of rows is that needed, or stays; no entry becomes one that is not needed |
| MapPollards.MapPollard.AddSingle | mappollard.go:166-215 | the carry never misses a root, and ends with a cache that keeps what it must for one more leaf, and below the roots nothing but what is needed if there was nothing else before |
| MapPollards.MapPollard.Add | mappollard.go:72-84 | the leaves are appended, those to be remembered are cached, the rows grow to what the leaves need, and below the roots there is nothing but what is needed if there was nothing else before |
| MapPollards.MapPollard.Ingest | mappollard.go:836-876 | after an honest proof is put in, its leaves are cached besides the others; the entries are those of before, the leaves, the nodes on their ways up and the proof positions beside these, each with the hash of the forest, and nothing else; only what is on these ways or beside them may not be needed afterwards if all was needed before |
| MapPollards.MapPollard.Prove | mappollard.go:747-793 | succeeds exactly when all hashes are cached; then each target is where the leaf is, in the rows the leaves need, and the proof is honest if and only if no hash is asked for twice |
| MapPollards.MapPollard.Verify | mappollard.go:797-815 | accepts exactly what a stump with the same roots accepts; renumbering the targets changes none that is in the forest; with remember the leaves are cached besides the others, with the entries that Ingest adds and no others |
| MapPollards.HasWhatItNeeds | mappollard.go:103-162 | a map pollard without entries it does not need has an entry for a position if and only if that is a root, a cached leaf, or beside the way up from one |
| MapPollards.OneCache | mappollard.go:12-35 | two such map pollards for the same slots, with the same leaves cached and as many rows, have the same entries |
| Proving.NoneTwice | prove.go:64-72 | no proof is honest for a hash that is asked for twice |
| Counterexamples.AskedTwice | prove.go:64-72 | asked for a leaf twice, the full pollard and the map pollard answer with a proof, and neither is honest |
| Proving.LeafTargets | utils.go:559-604 | positions of leaves are nodes, none above another, and repeat exactly as the hashes do |
| MapPollards.MapPollard.GetRoots | mappollard.go:879-897 | the stored hashes at the roots are those a stump has |
| MapPollards.MapPollard.AreCached | mappollard.go:347-356 | whether all the hashes are cached |
| MapPollards.MapPollard.UncacheLeaves | mappollard.go:340-344 | exactly these hashes are uncached |
| MapTheory.PruneKeeps | mappollard.go:103-119 | pruning a position and its sibling keeps everything needed, and every remembered leaf; that it forgets what is not needed is MapLean.PruneLean |
| MapTheory.PrunedNot | mappollard.go:87-99 | the sibling of a node on the way up from a remembered leaf is remembered beside it or has a niece |
| MapLean.StoresExactly | mappollard.go:103-119 | if all entries below the tops are needed by the ones next to them, then each is a remembered leaf or beside the way up from one, and all of these are there |
| MapLean.PruneLean | mappollard.go:103-119 | pruning a position and its sibling leaves both needed or gone, and nothing else becomes one that is not needed but the pair above |
| MapLean.LiftLean | mappollard.go:418-443 | when a subtree moves up, its entries need each other as before, and only those on the way up from the place, or beside it, may not be needed |
| MapLeanSteps.RemovalLean | mappollard.go:406-448 | after the moves and the new hashes of a deletion, only what is on the way up, or beside it, may not be needed |
| MapLeanSteps.RootStepLean | mappollard.go:411-414 | marking a root as empty leaves below the roots nothing but what is needed |
| MapLeanSteps.LeanAround | mappollard.go:455-474 | what only the leaves to be deleted need is below one of the largest positions to be deleted, on the way up from it, or beside that |
| MapLeanSteps.JoinStepLean | mappollard.go:205-211 | a root joined with the carry and pruned with it leaves nothing that is not needed |
| MapLeanSteps.EmptyStepLean | mappollard.go:188-211 | an empty root that gives way leaves nothing that is not needed |
| MapLeanSteps.RemapLean | mappollard.go:296-336 | an entry is needed in more rows exactly as before |
| MapLeanSteps.IngestLean | mappollard.go:848-875 | a proof put in adds nothing that is not needed but for nodes on the ways up from its leaves and beside them |
| MapFlags.FlagsNext | mappollard.go:469-472 | after each deletion, every entry marked to be remembered is a cached leaf or is below a deletion yet to come |
| MapFlags.IngestFlags | mappollard.go:863-875 | with a proof put in, the entries marked to be remembered are the cached leaves |
| MapContents.StoredIffWanted | mappollard.go:103-162 | an entry is there if and only if its position is a root, a cached leaf, or beside the way up from one |
| MapContents.OneContent | mappollard.go:12-35 | slots, cached leaves and number of rows determine all entries, their hashes and marks, and where the leaves are |
| MapLift.LiftKeeps | mappollard.go:418-443 | a subtree that moves up into the place of its parent leaves a cache that keeps what it must |
| MapLift.LiftProvable | mappollard.go:418-443 | the siblings on the way up from the moved leaves are stored |
| MapLift.LiftAunts | mappollard.go:418-443 | the moved nodes have their aunts |
| MapForest.DeletionLifts | mappollard.go:406-448 | deleting a position below the roots is such a move, with the trees above it changed and no others |
| MapForest.RootDeleted | mappollard.go:411-414 | marking a root as empty and forgetting what was below it keeps what is needed |
| MapMoves.StepUp | mappollard.go:269-292 | moving one entry after those of the rows above it overwrites nothing but a stale entry of an empty root |
| MapSteps.MovesLift | mappollard.go:220-245 | moving the entries one by one is moving the subtree |
| MapDeletions.AreasApart | mappollard.go:469-472 | where a deletion changes the cache no later deletion of the block is |
| MapDeletions.FirstFacts | mappollard.go:455-461 | below every position to be deleted there is a remembered leaf and no leaf that stays cached |
| MapAdd.EmptyKeeps | mappollard.go:188-211 | an empty root in the way of the carry gives way |
| MapAdd.StalePruned | mappollard.go:209-211 | an entry of an empty root that nothing moved over is pruned |
| MapAdd.JoinKeeps | mappollard.go:205-211 | a root joined with the carry keeps what is needed |
| MapGrow.CarryFuses | mappollard.go:180-212 | on each row of the carry the root and the carry become one top, with the tree of their slots |
| MapGrow.CarryEnds | mappollard.go:180-212 | when the carry stops, the tops are the roots of the forest with the new leaf |
| MapRemap.RemapKeeps | mappollard.go:296-336 | what the cache must keep does not depend on the number of rows |
| MapRemap.FullForest | mappollard.go:296-300 | one more leaf needs another row only in a full forest, and then exactly one |
| MapRemap.MoreRowsTwice | mappollard.go:296-300 | growing to what some leaves need and then to what more leaves need is growing to the latter |
| MapProofs.NeededThere | mappollard.go:764-784 | every position a proof of remembered leaves needs is stored with its hash |
| MapProofs.IngestKeeps | mappollard.go:848-875 | a cache with a proof put into it keeps what it must |
| MapProofs.IngestLinked | mappollard.go:863-875 | each cached leaf is the only stored entry with its hash |
| MapProofs.HonestSame | mappollard.go:786-792 | an honest proof is honest in any number of rows, with its targets renumbered |
| Uniqueness.DistinctRoots | stump.go:82-96 | different roots that are not empty have different hashes |
| Uniqueness.OnePlace | stump.go:201-212 | a tree of the forest is at one position |
| Uniqueness.MerkleInjective | utils.go:15-20 | without collisions a hash determines the tree over leaf hashes |

## Left out

- `MapPollard.Undo` (mappollard.go:478-741): undoing is modelled for the full pollard, where it restores everything.
- MapPollards.MapPollard.Verify: requires targets in the forest, as CalculateHashes does, and with remember an honest proof, as Ingest does.
- MapPollards.MapPollard.Ingest: requires an honest proof, as the source leaves its verification to the caller.
- MapPollards.MapPollard.Remove: requires the targets of the proof to be the positions of the hashes, because the program does not compare them; MapPollards.MapPollard.Modify likewise.
- CellPaths.GetSibling: requires pointers that fit together, as every operation of the pollard keeps them, so the error for an aunt that does not point back never arises; CellPaths.GetParent, CellPaths.GetChildren and CellEdits.TransferAunt likewise.
- Garbage: cells that nothing points to stay in the heap, and a cell is never used again.
- Pollards that are not full: the code that prunes nodes nobody remembers (polnode.go:259-283) runs in a full pollard too, where it removes nothing, and is modelled there only.
- PollardState.ModifyThenUndo: does not state that the flags of nodes put back are those they had, because the parent of two leaves put back together gets none.
- LinkedSearch.GetNode: that there is no node where the search ends nowhere is stated for fewer than 64 rows, and the errors it returns are told from a missing node only by there being none; LinkedSearch.GetHash likewise.
- LinkedSearch.PositionOfFound: requires leaf hashes without collisions, because the program looks for the root by its hash; LinkedSearch.FoundAtPosition and LinkedSearch.LeafPosition likewise.
- Serialize.RoundTrip: requires that 32 bytes read back as the hash they were written for, and counters of at most 64 bits; errors of the stream other than its end are not modelled.
- Reading and writing a map pollard (mappollard.go:926-1103): the order of maps, and no more structure.
- `Proof.Undo` (prove.go:974-1247): pruning that deliberately does not restore everything.
- Printing and debugging code.
- Calculation.CalculateHashes: requires targets in the forest and as many proof hashes as it fetches, because the program indexes the proof without a length check and its search for the row relies on targets that are in the forest; more proof hashes than needed are allowed and ignored.
- BitLevel.RemoveBitBits: stated for words below 2^64 and bits up to 62, where no shift exceeds the word; the other lemmas of that module likewise assume at most 62 rows.
- Hashes are abstract: SHA-512/256 and the 12-byte keys of the node map are not modelled.
