# A model of the deterministic sync engine in csp-core, in Dafny

Nodes edit files, sign their edits as commits, exchange them, and each computes one `main` out of
the edits it knows. Nothing elects a winner: convergence rests on every node computing the same
`main` from the same edits, although three-way merge is not associative. This project models that
engine and proves what it promises.

    dafny verify dfyconfig.toml

## How the model is built

**Ids are facts.** The hash is an arbitrary but fixed function `Sha` that is injective and admits a
ranking in which every object outranks what it refers to. An id therefore determines the object it
addresses, and ancestry, tree contents, ghost-add verdicts, frontiers, merge bases, fold results and
`main` are functions of ids alone (`Ancestors`, `Contents`, `GhostAdd`, `FrontierOf`, `MergeBase`,
`MainOf`). No store occurs in them. The methods, which do read and grow a store, are proved to
compute these functions on every store without dangling references, in whatever order commits are
known, and whatever the caches hold: the caches of a thread are shared by all its stores, and no
contract asks that their entries came from the store at hand. On a store from which something is
missing, the contracts say what can be told there.

**State is state.** The object store, the caches, the engine's bookkeeping, the engine and the
session are classes whose methods update fields, with loops where the source has loops. Each
operation's contract ties the whole new state to the old one (`CommitResult`, `IntegrateResult`,
`PlanResult`, `Handles`). The laws are then proved about those relations, and carried over runs of
any number of nodes (`Runs`) and over every interleaving of a session (`Convergence`).

| module | what it holds |
|---|---|
| `Objects`, `Store`, `Trees`, `TreeCodec` | objects and ids, the insert-only store, nested trees and flat file maps |
| `Order`, `Dag`, `Touch`, `GhostAdds`, `CacheLaws` | the strict total order, ancestry and merge bases, the ghost-add filter and its caches |
| `Merge`, `MergeLaws`, `Utf8` | line-level and file-level three-way merge, what it preserves and who wins; what a text is |
| `Fold`, `FoldLaws`, `Concurrent` | frontier, fold, recompute-verification, and their laws; edits made at the same time |
| `Signing`, `Trailers`, `TrailerLaws` | signatures as any correct scheme; the text of an edit's message |
| `State`, `Scope`, `ScopeLaws`, `Materialize`, `Reach`, `Engine` | the in-memory engine and its parts; what patterns match |
| `CommitLaws`, `Publishing`, `Orphans`, `Admission` | after a commit; what becomes of each path, and of the files set aside; what a node lets in |
| `Runs`, `Delivery`, `Sent`, `Partial` | every reachable state; what is sent and what it achieves; what is missing |
| `Chunks`, `Session`, `SessionLaws` | frames, the session, and what any message at all can do to it |
| `Convergence`, `Conversation` | two nodes running a session, and two engines driven through it |
| `Scenarios`, `Lost` | concrete histories made by the engine and the session |
| `Text`, `Config`, `ConfigLaws`, `ConfigText`, `Dates`, `AuthKeys`, `KeyLaws` | the configuration file, dates, and key lines; what their texts mean |

Six unknowns are constants constrained only by what is assumed of them: the hash, the signature
scheme (its own signatures verify), the aligner behind `diff3` (any strictly increasing, line-equal
alignment), the base64 codec of signatures (it reads back, without white space), the decoder of key
blobs (longer than 40 characters, padded at the end only), and the size of an object on the wire
(any at all). Each store has in addition an arbitrary but fixed order in which its tree objects list
their entries: sorted when they were decoded, files first when the node built them. The commit
time, the name of the orphans directory, nonces, observed certificates and admission decisions are
inputs.

## Main results

* `main` is a function of the set of known primitives: `Fold.ComputeMain`, `FoldLaws.TwoNodesAgree`.
* Verification accepts exactly the commits that reproduce, and accepts every fold and every
  accumulator: `Fold.VerifyFoldCommit`, `FoldLaws.AccumulatorsVerify`.
* An authored primitive is never dropped by anyone's filter, becomes the whole frontier, and `main`
  reads back as what was published: `CommitLaws.CommitIsNoGhostAdd`, `CommitLaws.AfterCommit`.
* In every reachable state of every run, the total order extends ancestry, known sets are closed
  under primitive ancestors, and snapshots restore exactly: `Runs.OrderExtendsAncestry`,
  `Runs.ReachableNodes`, `Runs.RestoreIsExact`.
* On every store, complete or not, and with entries from whatever stores, the memoised ghost-add
  check tells only what is true (`GhostAdds.Caches.IsGhostAdd`, `GhostAdds.RecalledIsTrue`); as long
  as one cache serves one growing store it answers what the uncached check would on the store as it
  is now: `CacheLaws.LikeUncached`, `CacheLaws.DrawnFromStays`.
* Edits made at the same time on one `main`, however many, are merged over that `main`, and where
  they made at most one kind of change to a path it comes out: `Concurrent.SiblingsMerge`,
  `Concurrent.ConcurrentCommits`.
* One session between two honest nodes raises no error under any interleaving, ends, and leaves
  both with the same `main`: `Convergence.ExchangeGoesWell`, `Convergence.ExchangeEnds`,
  `Convergence.ExchangeConverges`; the engine and session objects themselves, driven to the end:
  `Conversation.Converse`.
* Disjoint edits all survive a merge, a pair of edits exactly when a kept line stands between them,
  and no two lines are ever glued together; where both sides rewrote a stretch, the later one wins,
  and which is later is settled byte by byte: `MergeLaws.DisjointEditsSurvive`,
  `MergeLaws.PairOfEdits`, `MergeLaws.MergeKeepsLines`, `MergeLaws.TouchingEditsConflict`,
  `Concurrent.LaterWins`, `Concurrent.GreaterNodeWins`, `Order.KeysCompare`.
* A session is established only with a peer that signed, with the key it is then known by, a text
  that holds this side's own nonce, whatever messages came before, and nothing else stops an honest
  one: `SessionLaws.PeerIsProven`, `SessionLaws.GreetingIff`, `SessionLaws.ProofIff`.
* Nothing becomes known without its author's signature over every field of it, a tampered fold
  spoils its batch, and a fold leaves its maker no choice: `Admission.AdmissibleIff`,
  `Admission.TamperedIsNotAdmitted`, `Admission.UnsignedStaysOut`, `Admission.TamperedFoldSpoils`.
* What a commit does with each path, told from history and disk record alone, when there is nothing
  to commit, and that no file set aside is overwritten or lost: `Publishing.CommitMeans`,
  `Publishing.NothingToCommitIff`, `Orphans.CommitLosesNothing`.
* After a plan `main`'s bytes are on disk except where the user wrote, and over any two plans the
  user's bytes stay: `Materialize.PlanAt`, `Materialize.FollowsMain`.
* Printed configurations read back for all string contents, and a file of entries in any order means
  what its last entry for each key says, with the defaults spelled out; dates, day numbers and key
  lines round trip: `ConfigLaws.RoundTrip`, `ConfigText.Defaults`, `Dates.DateRoundTrip`,
  `AuthKeys.EnrolmentSurvives`.

## Where the code does something else than one might expect

* `tree_paths_added` is not always the difference of the two path sets. It is if and only if the
  walk comes to no directory that a file hides in the parent and that has a path in common with the
  child's (`Trees.AddedIsDifference`, on maps `TreeCodec.WrittenDifference` with
  `TreeCodec.HidesInMaps`). Merges can produce such trees (`MergeLaws.MergeHidesDirectory`), and then it
  can fail (`TreeCodec.HiddenDiffers`). A commit is safe all the same (`CommitLaws.CommitIsNoGhostAdd` holds for all path sets).
* Writing and reading a tree is exact if and only if no path is empty or ends in a separator; other
  paths vanish silently (`TreeCodec.ReadBackExactly`).
* Two edits of opposite sides without an unchanged line between them are one stretch, of which only
  theirs comes out, as long as no line inside is matched on both sides. So a pair of
  real edits survives if and only if a kept line stands between them (`MergeLaws.PairOfEdits`,
  `MergeLaws.TouchingEditsConflict`).
* A queued quarantine is carried out before the plan is, but the plan was made for the disk as it
  was. If the host restaged, at a queued path, the very bytes `main` wants there, the file is moved
  away and not written back, and the record still says it is on disk
  (`Materialize.QuarantinesAndPlan` gives the exact condition for both, `Lost.RestagedFileIsLost` a
  history of two engines that ends there).
* A directory's sentinel is documented to be kept when no in-scope file lies below the directory.
  The code also drops it for another sentinel below it that sorts first
  (`Scope.CanonicalHolds` gives the exact condition, `Scope.NestedSentinelDropsOuter` a case).
* Two stars and a separator before a name take the separator along, so they match where the name is
  only the end of a segment: the pattern of two stars, a separator and `x` matches `ax`
  (`ScopeLaws.DoubleStars`, `ScopeLaws.DoubleStarIsLoose`).
* A comment after a string that ends in a backslash is not recognised, and the line is refused,
  although the string itself is fine (`ConfigText.CommentAfterString`).
* A session clears the bootstrap mark only when a catch-up batch arrives, and asks for one only if
  it lacks a tip: a marked node that lacks nothing stays marked, and commits nothing
  (`Convergence.AtTheEnd`, `Scenarios.MarkStays`, `Scenarios.FreshNodeStaysMarked`).
* The date parser calls itself strict but checks days against 31 only, so 30 February is accepted
  and read as 1 or 2 March: a text in range reads as the date it spells if and only if its month has
  that day (`Dates.ParsesAsWritten`), and of the accepted texts the writer gives back exactly the
  strict ones (`Dates.AcceptedAndStrict`).
* An expiry past the year 9999 is written, but not read back: the line then has none, and the key
  never expires. The time an expiry reads back as is given for all expiries
  (`AuthKeys.BuiltLineReads`, `AuthKeys.EnrolmentSurvives`, `AuthKeys.FarExpiryIsLost`).
* A live push is admitted without its history, to be backfilled by a catch-up
  (crates/csp-core/src/fold.rs:330-340), and the ghost-add check keeps such a primitive. But the
  frontier cannot be told then, and a handshake advertises the frontier. So after a push to a node
  that lacks the fold commit the primitive was made on (`Partial.PushCutsOff`), `main` stays as it
  was (`Partial.StaysCutOff`), no new handshake succeeds (`Partial.NoHandshake`), the pushed tip is
  never asked for (`Partial.NeverWanted`), and even if its history comes in over a session already
  open, `main` is not folded anew unless a new primitive comes with it
  (`Partial.BackfillIsNotEnough`).
  `Partial.DanglingPush` is a case.
* `most_recent_touch` counts the commit it starts from, although its comment speaks of proper
  ancestors (crates/csp-core/src/fold.rs:198-223); the model does as the code does.
* A commit is a primitive when both its counter and its node trailer parse, although the comment
  names the node trailer only (crates/csp-core/src/fold.rs:24-43); the model does as the code does.
* The caches are shared by all stores of a thread (crates/csp-core/src/fold.rs:165-177 and 303-318).
  For a store that alone has filled them they answer like the uncached computation, however it
  grows. For another store on the same thread a remembered touch is the uncached one if and only if
  the store holds what the lookup needs, and the check answers alike if and only if the store holds
  what the uncached check needs or the cache does not help either (`CacheLaws.CachedIsUncached`, with
  `Touch.VerdictIfTold` saying what is needed); otherwise the answer, though true, differs
  (`CacheLaws.SecondStoreDiffers`, `CacheLaws.SomeGhostAdd`). Of commits that a
  store without dangling references holds it never does.

## Model

All paths are below `crates/csp-core/src/` of the repository.

| member | source | states |
|---|---|---|
| `Objects.ShaInjective` | crates/csp-core/src/object.rs:106-112 | equal ids mean equal objects: the one thing assumed of the hash, beside the ranking that rules out cycles |
| `Store.MemStore.Get` | crates/csp-core/src/store.rs:48-53 | an object is returned exactly when it is held; otherwise the error names the id asked for |
| `Store.MemStore.Put` | crates/csp-core/src/store.rs:57-63 | inserts under the object's own hash, and never replaces or loses anything |
| `Store.MemStore.LoadCommit` | crates/csp-core/src/fold.rs:62-70 | succeeds exactly on held commits, tells a missing object from one of the wrong kind, and agrees with what the id alone says |
| `Store.StoresAgree` | crates/csp-core/src/store.rs:11-27 | two stores hold the same object under every id they share |
| `Store.InsertKeepsClosed` | crates/csp-core/src/store.rs:57-63 | adding an object whose references are held leaves no dangling reference |
| `Trees.PathsAreFound` | crates/csp-core/src/object.rs:337-376 | the set of paths of a nested tree is what looking them up segment by segment finds |
| `Trees.PathPresentInTree` | crates/csp-core/src/fold.rs:137-161 | answers whether a path is visible, where a file hides a directory of the same name, and fails exactly when a tree on the way is missing |
| `Trees.TreePathsAdded` | crates/csp-core/src/fold.rs:260-301 | lists exactly the added paths, in the order the child's tree objects list their entries, skipping subtrees with equal ids, and fails exactly when a tree it has to open is missing |
| `Trees.AddedListHas` | crates/csp-core/src/fold.rs:260-301 | in whatever order entries are listed, the same paths are added |
| `Trees.AddedCases` | crates/csp-core/src/fold.rs:260-301 | a path is added exactly when the child has it and, level by level, the parent does not have it as a file there |
| `Trees.AddedAreInvisible` | crates/csp-core/src/fold.rs:137-161 | every added path is in the child and is not present in the parent in the sense of `path_present_in_tree` |
| `Trees.AddedIsDifference` | crates/csp-core/src/fold.rs:260-301 | the added paths are the difference of the two path sets if and only if the walk, which skips equal trees, comes to no directory that a file hides in the parent and that has a path in common with the child's |
| `TreeCodec.BuildTree` | crates/csp-core/src/object.rs:283-335 | writes the nested tree of a prefix; the root id is a function of the files below it |
| `TreeCodec.WriteTreeFromFiles` | crates/csp-core/src/object.rs:273-281 | the id of a file map, with every tree and blob of it stored |
| `TreeCodec.WalkTree` | crates/csp-core/src/object.rs:349-376 | adds exactly the tree's files under the prefix, and fails exactly when something of it is missing or of the wrong kind |
| `TreeCodec.ReadTreeToFiles` | crates/csp-core/src/object.rs:337-347 | the flat contents of a nested tree |
| `TreeCodec.ReadBack` | crates/csp-core/src/object.rs:273-376 | reading a written tree gives back the written files whose path is neither empty nor ends in a separator |
| `TreeCodec.ReadBackExactly` | crates/csp-core/src/object.rs:273-376 | the round trip is exact if and only if every path is of that kind |
| `TreeCodec.SameIdSameFiles` | crates/csp-core/src/object.rs:60-112 | equal root ids mean equal readable files |
| `TreeCodec.WrittenIsVisible` | crates/csp-core/src/fold.rs:137-161 | for path sets in which no path is a directory of another, presence in the written tree is membership |
| `TreeCodec.VisibleWasWritten` | crates/csp-core/src/fold.rs:137-161 | for all path sets, what is present in the written tree was written |
| `TreeCodec.WrittenDifference` | crates/csp-core/src/fold.rs:260-301 | the same condition, exactly, for the key sets of two written maps; it holds for every child when no path of the parent is a directory of another |
| `TreeCodec.HidesInMaps` | crates/csp-core/src/fold.rs:260-301 | the condition can be told from the two maps |
| `TreeCodec.ShadowedDifferenceDiffers` | crates/csp-core/src/fold.rs:260-301 | the smallest failing case: `a` and `a/b` in the parent, `a/b` and `c` in the child |
| `TreeCodec.HiddenDiffers` | crates/csp-core/src/fold.rs:260-301 | the failing family: with a path below a file's name in both maps and any other difference between them, the equality fails, and that path counts as added |
| `Merge.SplitLinesLoop` | crates/csp-core/src/merge.rs:20-35 | the loop computes the split into lines that keep their newlines |
| `Merge.SplitThenConcat` | crates/csp-core/src/merge.rs:20-35 | joining the lines of a text gives the text, and only the last line can lack a newline |
| `Merge.ConcatThenSplit` | crates/csp-core/src/merge.rs:20-35 | splitting joined lines gives the lines back, when only the last of them lacks a newline |
| `Merge.Diff3` | crates/csp-core/src/merge.rs:56-110 | computes the merge of the two alignments' common anchors; every slice it takes is in range |
| `Merge.MergeBlob` | crates/csp-core/src/merge.rs:114-125 | binary content is replaced by the later side, text is merged line by line |
| `Merge.MergeTrees` | crates/csp-core/src/merge.rs:129-166 | path by path: an agreed or one-sided change wins, two-sided edits merge, everything else goes to the later side |
| `MergeLaws.MergeKeepsLines` | crates/csp-core/src/merge.rs:56-110 | for all texts and alignments, splitting the merged text gives exactly the picked lines, each one of ours or theirs; no two lines are glued together |
| `MergeLaws.DisjointEditsSurvive` | crates/csp-core/src/merge.rs:56-110 | stretches of the base with a kept line between any two, however they are aligned as long as what a side left alone is matched: every kept line comes out, every edit of one side, and of a stretch both rewrote differently theirs alone |
| `MergeLaws.TouchingEditsConflict` | crates/csp-core/src/merge.rs:56-110 | two edits of opposite sides with nothing between them, among any other stretches set apart, with no line inside matched on both sides: both come out if and only if one of them changed nothing; otherwise theirs comes out there, with what ours had before |
| `MergeLaws.PairOfEdits` | crates/csp-core/src/merge.rs:56-110 | so a pair of real edits survives if and only if a kept line stands between them |
| `MergeLaws.AdjacentLinesConflict` | crates/csp-core/src/merge.rs:56-110 | the smallest such conflict: of two adjacent lines ours rewrites the first and theirs the second; the result is the first as it was and the second as theirs has it |
| `MergeLaws.ContestedGoesToTheirs` | crates/csp-core/src/merge.rs:76-92 | a stretch that both sides rewrote differently comes out as theirs, whatever stands around it |
| `MergeLaws.NothingShared` | crates/csp-core/src/merge.rs:56-125 | three texts without a line that all three share: the merge is theirs, or ours if theirs is the base, however they are aligned |
| `Utf8.TextIff` | crates/csp-core/src/merge.rs:16-18 | a file is taken for text exactly if it is the UTF-8 encoding of some characters other than the zero character |
| `Utf8.BinaryGoesToTheirs` | crates/csp-core/src/merge.rs:114-117 | if one of the three is not text, theirs is taken whole |
| `MergeLaws.MergeWithUnchanged` | crates/csp-core/src/merge.rs:129-166 | merging with a side that changed nothing gives the other side |
| `MergeLaws.MergedTreesMeaning` | crates/csp-core/src/merge.rs:129-166 | path by path: a change only one side made, or both made alike, survives in either order of the sides; a deletion against a change, or two additions, give the later side; two changed texts are merged |
| `MergeLaws.MergeHidesDirectory` | crates/csp-core/src/merge.rs:129-166 | one side adds a file and the other a directory of that name: the merge has both |
| `MergeLaws.MergeDependsOnOrder` | crates/csp-core/src/merge.rs:129-166 | two-sided edits do depend on the order of the operands: a concrete case |
| `Order.KeyTotal` | crates/csp-core/src/order.rs:49-56 | distinct keys never tie, and no key precedes itself |
| `Order.KeyTransitive` | crates/csp-core/src/order.rs:49-56 | the order is transitive |
| `Order.KeysCompare` | crates/csp-core/src/order.rs:49-56 | the comparison byte by byte, in both directions: the smaller counter first; of equal counters the node id with the smaller byte where the two first differ; of one node the same for the commit id |
| `Order.SortedUnique` | crates/csp-core/src/fold.rs:440-453 | a set of commits has exactly one ascending listing |
| `Dag.AncestorsOf` | crates/csp-core/src/fold.rs:72-91 | the set of proper ancestors, or an error exactly when a commit of the history is missing or is none |
| `Dag.MergeBaseOf` | crates/csp-core/src/fold.rs:464-496 | the merge base of two commits, or an error exactly when they have no common ancestor or history is missing |
| `Dag.MergeBaseIsLeastMaximal` | crates/csp-core/src/fold.rs:464-496 | the merge base is a common ancestor, no common ancestor comes after it, any other such candidate has a greater id, and the operands can be swapped |
| `Dag.MaximalOf` | crates/csp-core/src/fold.rs:480-495 | drops exactly the common ancestors that come before another one |
| `Touch.MostRecentTouchUncached` | crates/csp-core/src/fold.rs:198-253 | the toggling primitive of the closure, `start` included, with the greatest key, whatever order the closure is walked in; an error exactly when something needed is missing |
| `Touch.TouchHeldGrows` | crates/csp-core/src/fold.rs:182-196 | what a store suffices to decide, every larger store suffices to decide |
| `Touch.ClosedHoldsGhost` | crates/csp-core/src/fold.rs:362-397 | a store without dangling references always suffices for the ghost-add verdict |
| `GhostAdds.Caches.MostRecentTouch` | crates/csp-core/src/fold.rs:182-196 | on any store, with entries from any stores: an entry is answered as it is, and otherwise the answer, errors included, is what the uncached lookup gives; what was found is remembered, and nothing else |
| `GhostAdds.Caches.IsGhostAdd` | crates/csp-core/src/fold.rs:341-360 | on any store, complete or not, with entries from any stores: an entry is answered as it is, and otherwise what can be told with the touches remembered and those the store shows; where that is no verdict, the commit is kept and nothing is cached |
| `Touch.VerdictIsTrue` | crates/csp-core/src/fold.rs:362-397 | a verdict is never wrong, whatever touches are remembered, and there is one whenever the whole history is held |
| `Touch.GhostAddIff` | crates/csp-core/src/fold.rs:362-397 | a commit is a ghost-add exactly if it is a primitive with one parent and adds a path that one commit of that parent's history deleted and nothing with a greater key touched since, and does not name that delete, whatever others it names |
| `Touch.DeletedLastIff` | crates/csp-core/src/fold.rs:198-258 | the latest touch of a path is a given delete exactly if that commit's parent shows the path, the commit does not, and everything else in the history that changed this has a smaller key |
| `Touch.VerdictIfTold` | crates/csp-core/src/fold.rs:362-397 | there is a verdict if and only if the store holds the commit and, for a primitive with one parent, the parent, every tree the comparison opens, and (or the cache remembers) the touches of the added paths up to the first resurrected one |
| `Touch.VerdictGrows` | crates/csp-core/src/fold.rs:341-397 | a verdict told once is the verdict on every larger store |
| `CacheLaws.DrawnFromStays` | crates/csp-core/src/fold.rs:182-196 | as long as a cache serves one store, growth of that store and use of the cache keep every entry one that the uncached computation would give now |
| `CacheLaws.LikeUncached` | crates/csp-core/src/fold.rs:341-360 | with such entries the cache changes no answer at all |
| `GhostAdds.RecalledIsTrue` | crates/csp-core/src/fold.rs:341-360 | whatever stores the entries came from, what the memoised check tells is true, and a store that holds the whole history suffices |
| `GhostAdds.RecalledStays` | crates/csp-core/src/fold.rs:341-360 | what is learned from a store while filtering changes no later answer on that store |
| `CacheLaws.CachedIsUncached` | crates/csp-core/src/fold.rs:182-397 | on any store and with entries from any stores: a remembered touch is the uncached one if and only if the store holds what the lookup needs; the check answers as without the cache if and only if the store holds what the uncached check needs or the cache does not help either; the commit is dropped or kept alike unless it is a ghost-add that only the cache gives away |
| `CacheLaws.SecondStoreDiffers` | crates/csp-core/src/fold.rs:165-196 | one thread, two stores: a remembered answer for the second where the uncached lookup misses the commit itself |
| `CacheLaws.SomeGhostAdd` | crates/csp-core/src/fold.rs:341-397 | for any list of undone deletes: a commit that brings a deleted path back is a ghost-add if and only if that very delete is not listed, and a store that holds only the commit cannot tell |
| `GhostAdds.Caches.GhostAddUncached` | crates/csp-core/src/fold.rs:362-397 | goes through the added paths, in the order the store's tree objects list them, until one cannot be told or is brought back against a delete the primitive does not name; an error other than a missing object means that the commit's history is cut off |
| `GhostAdds.Caches.EffectiveKnown` | crates/csp-core/src/fold.rs:403-416 | keeps, in order, exactly what the memoised check, on the store and cache as they are, does not tell to be a ghost-add |
| `Fold.MakeFoldCommit` | crates/csp-core/src/fold.rs:509-534 | the fold commit over a tree and parents is the same for every maker; it fails exactly when a parent is missing |
| `Fold.MakeGenesis` | crates/csp-core/src/fold.rs:536-556 | the common root, always the same id |
| `Fold.ThinWrapper` | crates/csp-core/src/fold.rs:558-566 | a single tip is wrapped, keeping its tree |
| `Fold.FoldStep` | crates/csp-core/src/fold.rs:585-600 | one merge of the accumulator with the next tip over their merge base; on any store it fails exactly when they have no common ancestor or a history or tree it takes is not held |
| `Fold.Undominated` | crates/csp-core/src/fold.rs:427-439 | exactly the primitives no other one descends from |
| `Fold.SortByKey` | crates/csp-core/src/fold.rs:440-453 | the same commits, each as often as before, ascending |
| `Fold.Frontier` | crates/csp-core/src/fold.rs:418-454 | on any store, any list and any cache: the maximal ones of the held primitives not told to be ghost-adds, ascending, if and only if every one of those has its whole history in the store; without dangling references and repeats it is there, and is the frontier of the set |
| `Fold.ComputeMain` | crates/csp-core/src/fold.rs:568-601 | on any store and with any cache a result is the fold of the frontier the two show, and there is none if a history is cut off; for every list without repeats, every store without dangling references and every cache, `main` is a function of the set alone, and is missing exactly when a fold step has no merge base |
| `Fold.VerifyFoldCommit` | crates/csp-core/src/fold.rs:612-676 | terminates; on any store whatever it accepts is valid, every synthetic commit reached without crossing a primitive being the root or the fold of its own parents; where the store holds what re-running those folds takes, as a store without dangling references does for every held commit, it accepts exactly the valid ones; the error tells a missing commit from a fold that does not reproduce |
| `Fold.VerifyInner` | crates/csp-core/src/fold.rs:616-676 | one call visits only what is reachable that way, and on success everything newly visited reproduces |
| `FoldLaws.FrontierIsMaximalAntichain` | crates/csp-core/src/fold.rs:418-454 | the frontier lists exactly the maximal effective primitives in strict key order; none descends from another, and every effective one is at or below some tip |
| `FoldLaws.FrontierStandsForAll` | crates/csp-core/src/fold.rs:403-454 | folding the frontier alone gives the same frontier and the same `main` as folding everything known |
| `FoldLaws.TwoNodesAgree` | crates/csp-core/src/fold.rs:568-601 | the same known set in any two orders, with a store and a cache each or shared, and the caches filled by any stores: both give the same id, or both fail |
| `FoldLaws.EffectiveBelowMain` | crates/csp-core/src/fold.rs:568-601 | every effective known primitive is a proper ancestor of `main` |
| `FoldLaws.MainPrimitives` | crates/csp-core/src/fold.rs:568-601 | the primitives in `main`'s history are exactly those at or below a frontier tip |
| `FoldLaws.AccumulatorsVerify` | crates/csp-core/src/fold.rs:585-676 | verification accepts every accumulator the fold passes through, and its result |
| `FoldLaws.SoundHaveBase` | crates/csp-core/src/fold.rs:464-496 | any two honest histories share the root, so their merge base exists |
| `FoldLaws.MainIsSound` | crates/csp-core/src/fold.rs:568-601 | over honest primitives the fold never fails, and its result is honest and verifies |
| `FoldLaws.SoundVerifies` | crates/csp-core/src/fold.rs:612-676 | verification accepts every honest commit |
| `Admission.FoldFields` | crates/csp-core/src/fold.rs:509-556 | every field of a fold commit and of the root: author, both times, message; the time is that of the latest parent |
| `Admission.MaxTimeIsLatest` | crates/csp-core/src/fold.rs:515-523 | that time is a bound on the parents' times, and one of them attains it |
| `Admission.ValidFoldIs` | crates/csp-core/src/fold.rs:616-676 | a valid fold has at most two parents, all valid: without any it is the root, over one it has that one's tree, over two the files of their merge over their merge base |
| `Admission.ValidFoldsAreOne` | crates/csp-core/src/fold.rs:612-676 | its parents determine a valid fold |
| `Concurrent.SiblingsAreTheFrontier` | crates/csp-core/src/fold.rs:418-454 | any number of primitives authored on one and the same `main` replace the whole frontier together |
| `Concurrent.SiblingsMeetInMain` | crates/csp-core/src/fold.rs:464-496 | any two of them have that `main` as their merge base |
| `Concurrent.SiblingsMerge` | crates/csp-core/src/fold.rs:568-601 | the new `main` is their files merged in key order, every step over the files of the `main` they were authored on |
| `Concurrent.SoleChangeSurvives` | crates/csp-core/src/fold.rs:568-601 | where they made at most one kind of change to a path, by one of them or the same by several, deletions included, the new `main` has it |
| `Concurrent.DisjointPathsSurvive` | crates/csp-core/src/fold.rs:568-601 | two edits that changed no path in common both come out whole |
| `Concurrent.ConcurrentCommits` | crates/csp-core/src/engine.rs:383-523 | the same for the files published by any number of nodes that knew the same commits when they committed |
| `Concurrent.LaterWins` | crates/csp-core/src/fold.rs:568-601 | where two edits made different things of a path, the later one has it whole, its deletion included; two changed texts are merged with the later one as theirs |
| `Concurrent.GreaterNodeWins` | crates/csp-core/src/order.rs:49-56 | two edits add one path differently: `main` has the file of the greater counter, and of equal counters that of the node id with the greater byte where the two first differ |
| `Signing.BuildPrimitive` | crates/csp-core/src/identity.rs:128-160 | what a node builds verifies under its own key |
| `Signing.BuiltFields` | crates/csp-core/src/identity.rs:128-160 | every field of what a node builds, and what its signature is over |
| `Trailers.ParsePrimitiveMeta` | crates/csp-core/src/fold.rs:28-39 | reads counter and author: the last trailer of a kind counts, even when it is malformed |
| `Trailers.ParsePrimitiveReadds` | crates/csp-core/src/fold.rs:50-60 | reads the well-formed undone deletes, in order |
| `Trailers.BuildBody` | crates/csp-core/src/identity.rs:138-145 | writes subject and trailers |
| `Trailers.MetaReads` | crates/csp-core/src/identity.rs:128-160 | whatever the subject holds, a signed edit reads back with its counter and author |
| `Trailers.ReaddsReadBack` | crates/csp-core/src/identity.rs:128-160 | the undone deletes read back exactly if and only if the subject spells out none of its own |
| `Trailers.SignatureReads` | crates/csp-core/src/identity.rs:165-194 | reading the signature gives it and the exact text it was made over, whatever the subject holds |
| `Trailers.FieldsReadBack` | crates/csp-core/src/identity.rs:128-194 | the text of an edit a node writes carries exactly its fields: counter, author, undone deletes, signature, and the signed text |
| `Trailers.TextDeterminesFields` | crates/csp-core/src/identity.rs:128-160 | equal texts mean equal fields |
| `Trailers.FoldsAreNotEdits` | crates/csp-core/src/fold.rs:22-43 | fold commits and the root are never taken for edits |
| `TrailerLaws.SignedCoversAll` | crates/csp-core/src/identity.rs:165-194 | whatever the text, its signature is over everything before the line of the signature, and that line is its last |
| `TrailerLaws.EditHasBoth` | crates/csp-core/src/fold.rs:28-39 | counter and author of an edit each stand on a line of their own, the one below 2^64, the other 32 bytes |
| `TrailerLaws.WrittenText` | crates/csp-core/src/identity.rs:128-160 | a message as it is written, character by character |
| `TrailerLaws.HexText` | crates/csp-core/src/order.rs:15-29 | bytes are written as two lower-case digits each |
| `State.EngineState.AddKnown` | crates/csp-core/src/state.rs:59-64 | the known list stays free of repeats and only grows at its end |
| `State.EngineState.NextCounter` | crates/csp-core/src/state.rs:68-73 | the next counter is one above everything observed |
| `State.EngineState.Observe` | crates/csp-core/src/state.rs:75-79 | the clock never falls below a counter it was shown |
| `Scope.CompilePattern` | crates/csp-core/src/scope.rs:86-127 | blank and comment lines compile to nothing; negation, anchoring and tokens otherwise |
| `Scope.BodyMatch` | crates/csp-core/src/scope.rs:131-169 | the backtracking matcher finds a match from a position exactly when one ends there at the end of the text or before a separator |
| `Scope.IsMatch` | crates/csp-core/src/scope.rs:171-190 | accepts exactly the paths with an optional directory prefix, a text of the body, and then the end or a separator |
| `Scope.MatchesBelow` | crates/csp-core/src/scope.rs:171-190 | a pattern that matches a path matches everything below it |
| `Scope.MatchesAny` | crates/csp-core/src/scope.rs:192-204 | the last pattern that matches decides |
| `Scope.IsPathInScope` | crates/csp-core/src/scope.rs:208-222 | never the engine's own directory; otherwise included and not ignored |
| `Scope.CanonicalizeKeeps` | crates/csp-core/src/scope.rs:264-296 | the loops compute the canonical set: real files first, then sentinels in path order, each unless something kept so far lies below its directory |
| `Scope.CanonicalHolds` | crates/csp-core/src/scope.rs:264-296 | what that leaves, in whatever order: the in-scope real files, and a supplied in-scope sentinel exactly when no in-scope real file lies below its directory and no supplied in-scope sentinel below its directory precedes it in path order |
| `Scope.NestedSentinelDropsOuter` | crates/csp-core/src/scope.rs:264-296 | an outer sentinel is dropped for a nested one that sorts first, with no real file anywhere |
| `Scope.CanonicalIsStable` | crates/csp-core/src/scope.rs:264-296 | canonicalising twice changes nothing more |
| `ScopeLaws.CompileReads` | crates/csp-core/src/scope.rs:86-127 | a bang negates, a separator in front or inside ties the pattern to the root, one at the end says nothing |
| `ScopeLaws.NoPattern` | crates/csp-core/src/scope.rs:86-93 | nothing, white space and comments are no patterns |
| `ScopeLaws.ReturnIsDropped` | crates/csp-core/src/scope.rs:87 | a return at the end of a pattern says nothing |
| `ScopeLaws.NameMatches` | crates/csp-core/src/scope.rs:86-190 | a plain name matches exactly the paths that have it as a segment |
| `ScopeLaws.PathMatches` | crates/csp-core/src/scope.rs:86-190 | a plain path, or a name with a separator in front, matches exactly that path and what is below it |
| `ScopeLaws.EndingMatches` | crates/csp-core/src/scope.rs:86-190 | a star and an ending match exactly the paths with a segment that ends so |
| `ScopeLaws.DoubleStars` | crates/csp-core/src/scope.rs:86-190 | two stars match everything, after a path all below it, and before one every path that ends in it up to a separator |
| `ScopeLaws.DoubleStarIsLoose` | crates/csp-core/src/scope.rs:108-118 | so two stars before a name also match where the name is only the end of a segment |
| `ScopeLaws.BodyAppend` | crates/csp-core/src/scope.rs:131-169 | a pattern in two parts matches a text of the first followed by one of the second |
| `ScopeLaws.TokenTexts` | crates/csp-core/src/scope.rs:131-169 | what each wildcard stands for: any character but a separator, a run without separators, any run |
| `ScopeLaws.IgnoredIff` | crates/csp-core/src/scope.rs:192-204 | ignored is what some pattern matches that is no exception while no later exception matches |
| `ScopeLaws.EngineDirIs` | crates/csp-core/src/scope.rs:208-213 | the directory never in scope, and what is below it, but nothing that only starts with its name |
| `ScopeLaws.RestIsInScope` | crates/csp-core/src/scope.rs:208-222 | with everything included, in scope is exactly what is neither that nor ignored |
| `ScopeLaws.FilesInScope` | crates/csp-core/src/scope.rs:225-296 | a file is committed exactly if its path is in scope and it is text, or binaries are allowed, and then as it is |
| `ScopeLaws.SentinelIs` | crates/csp-core/src/scope.rs:239-262 | which paths are sentinels, and of which directory |
| `Engine.MemEngine.constructor` | crates/csp-core/src/engine.rs:169-206 | a fresh node, on a thread whose caches may hold anything learned before, knows nothing and its `main` is the root |
| `Engine.MemEngine.StageWrite` | crates/csp-core/src/engine.rs:337-340 | one path staged, nothing else changed |
| `Engine.MemEngine.StageRemove` | crates/csp-core/src/engine.rs:342-346 | one path unstaged, nothing else changed |
| `Engine.MemEngine.MarkBootstrapComplete` | crates/csp-core/src/engine.rs:291-296 | only the mark changes |
| `Engine.MemEngine.Recompute` | crates/csp-core/src/engine.rs:525-531 | `main` becomes the fold of the known set as store and cache show it, or stays on failure, as it does when a known history is cut off; with nothing missing it is the fold of the set, and fails exactly when a step has no merge base |
| `Engine.MemEngine.Classify` | crates/csp-core/src/engine.rs:383-450 | sorts the working set into what is published, the deletes that undoes, and stale files to set aside |
| `Engine.MemEngine.CommitScoped` | crates/csp-core/src/engine.rs:383-523 | the whole new state: nothing during bootstrap or when nothing changed; otherwise stale files are set aside and one signed primitive on `main`, with the next counter, is stored, known and folded |
| `Engine.MemEngine.CommitStaged` | crates/csp-core/src/engine.rs:356-372 | the same over the canonical working set |
| `Engine.MemEngine.Integrate` | crates/csp-core/src/engine.rs:537-582 | for any batch on any store: objects stored up to the first that does not decode; nothing admitted if a received fold commit does not reproduce or cannot be re-run; otherwise exactly the primitives whose signature holds are known, the clock covers them, and `main` is refolded if anything was new; the outcome is exact when nothing is missing afterwards |
| `Engine.MemEngine.FrontierTips` | crates/csp-core/src/engine.rs:678-680 | the frontier as store and cache show it, or an error, which there is if and only if the history of one of its candidates is cut off |
| `Engine.AdmitOnlyAdds` | crates/csp-core/src/engine.rs:561-577 | admission keeps what was known in order, adds no repeat, and adds exactly the admissible primitives |
| `Engine.ObservedBounds` | crates/csp-core/src/engine.rs:561-577 | the clock covers every admitted counter |
| `Admission.ObservedIsAttained` | crates/csp-core/src/engine.rs:537-582 | and stands at one of them, or where it was |
| `Admission.AdmissibleIff` | crates/csp-core/src/identity.rs:165-194 | what a batch brings counts exactly if it is a commit with its author's signature over a payload from which every other field is read back |
| `Admission.PayloadDetermines` | crates/csp-core/src/identity.rs:165-194 | equal signed payloads and equal signatures mean equal commits |
| `Admission.AdmittedIsSigned` | crates/csp-core/src/engine.rs:559-575 | a commit becomes known only with that signature |
| `Admission.TamperedIsNotAdmitted` | crates/csp-core/src/engine.rs:559-575 | with signatures that are good for one signer and text only, no field of a signed commit can be changed: it is not admitted |
| `Admission.UnsignedStaysOut` | crates/csp-core/src/engine.rs:537-582 | whatever a batch holds and whatever is missing, a commit without a good signature does not become known |
| `Admission.TamperedFoldSpoils` | crates/csp-core/src/engine.rs:537-557 | a fold that differs from the right one in any field but its parents is not valid, and a batch with it changes nothing but the store |
| `Admission.CommitIsNoProof` | crates/csp-core/src/session.rs:288-291 | a commit's signature is no proof in a handshake |
| `Admission.ProofIsForThisText` | crates/csp-core/src/session.rs:288-291 | a proof made for one text and key is refused for any other |
| `Admission.SomeSchemeIsUnforgeable` | crates/csp-core/src/identity.rs:82-92 | there are schemes whose own signatures verify and that are good for one signer and text only |
| `Engine.MemEngine.MaterializePlan` | crates/csp-core/src/engine.rs:590-643 | queued quarantines first, then exactly one operation for every path that needs one, and the new record |
| `Engine.MemEngine.MaterializeStaged` | crates/csp-core/src/engine.rs:652-676 | the staged files end up as the host's disk will |
| `Engine.MemEngine.Snapshot` | crates/csp-core/src/engine.rs:842-853 | saves the frontier under the name |
| `Engine.MemEngine.RestoreSnapshot` | crates/csp-core/src/engine.rs:868-881 | returns the files of the fold of the saved frontier; an unknown name is an error |
| `Engine.MemEngine.ExportClosure` | crates/csp-core/src/engine.rs:684-687 | everything reachable from the tips in id order, or an error exactly when any of it is missing |
| `Engine.MemEngine.ExportPrimitive` | crates/csp-core/src/engine.rs:702-732 | the commit and what its tree adds over its first parent's tree, in id order |
| `Reach.ReachableFromAll` | crates/csp-core/src/fold.rs:680-703 | all objects reachable from the roots, or an error exactly when any is missing |
| `Reach.TreeObjects` | crates/csp-core/src/engine.rs:908-933 | all trees and blobs of a tree, commits among its entries passed over, or an error exactly when an entry is missing |
| `Reach.CommitsReachedAreHistory` | crates/csp-core/src/fold.rs:680-703 | the commits reached from a commit are exactly its history |
| `CommitLaws.CommitIsNoGhostAdd` | crates/csp-core/src/engine.rs:383-523 | no node's filter ever drops a primitive authored by a commit, whatever was published |
| `CommitLaws.CommitIsTheFrontier` | crates/csp-core/src/fold.rs:418-454 | a primitive authored on `main` replaces the whole frontier |
| `CommitLaws.AfterCommit` | crates/csp-core/src/engine.rs:383-523 | a commit on an up-to-date node succeeds; the frontier is then that primitive alone, and `main` reads back as exactly the published files |
| `CommitLaws.SecondCommitIsNone` | crates/csp-core/src/engine.rs:383-523 | committing again what was just published returns nothing |
| `CommitLaws.StagedTwice` | crates/csp-core/src/engine.rs:356-372 | two commits of the staged files in a row: when the first set nothing aside, the second returns nothing |
| `CommitLaws.SecondCommitSetsNothingAside` | crates/csp-core/src/engine.rs:383-450 | and sets nothing aside either, when no published path hides another and none is malformed |
| `CommitLaws.NothingToDoAfterCommit` | crates/csp-core/src/engine.rs:590-643 | right after a commit the plan for the committed disk is empty |
| `Publishing.PathsSplit` | crates/csp-core/src/engine.rs:418-461 | a path is set aside exactly if it was deleted and the record has it on this disk from before; all others are published as they are |
| `Publishing.UndoneIff` | crates/csp-core/src/engine.rs:446-461 | undone are exactly the last deletes of the paths that are back on a disk they had gone from |
| `Publishing.CommitMeans` | crates/csp-core/src/engine.rs:383-523 | a commit that goes through: what `main` shows at every path, what the record says, and exactly which deletes the new primitive undoes |
| `Publishing.NothingToCommitIff` | crates/csp-core/src/engine.rs:476-496 | nothing is committed exactly if every path not set aside is as it was on the disk the record describes |
| `Orphans.DestinationsDiffer` | crates/csp-core/src/engine.rs:445 | no two paths are moved to one place, not even in different buckets |
| `Orphans.DestinationIsOutOfScope` | crates/csp-core/src/engine.rs:44-60 | every destination is in the engine's directory and never in scope |
| `Orphans.NothingIsLost` | crates/csp-core/src/engine.rs:443-446 | with a quarantine carried out as a move, every file set aside is found afterwards at its destination with its bytes, and the other files are untouched |
| `Orphans.CommitLosesNothing` | crates/csp-core/src/engine.rs:383-523 | so no commit of in-scope files loses one |
| `Orphans.StagedIsOutside` | crates/csp-core/src/engine.rs:356-370 | what a host stages is committed only from outside that directory |
| `Materialize.PlanFor` | crates/csp-core/src/engine.rs:600-643 | one operation per path that needs one, and the record of what is on disk |
| `Materialize.NeverClobbers` | crates/csp-core/src/engine.rs:590-643 | a write or removal only hits an absent path, or bytes whose hash is the one last put there |
| `Materialize.PlanAt` | crates/csp-core/src/engine.rs:590-643 | after the plan every wanted path that was not deferred has `main`'s bytes, deferred paths keep theirs, and unwanted files the engine had put there are gone |
| `Materialize.RecordMatchesDisk` | crates/csp-core/src/engine.rs:590-643 | the record then lies within `main`'s tree and is the hash of what is on disk at every path not deferred |
| `Materialize.FollowsMain` | crates/csp-core/src/engine.rs:590-643 | over two plans, whatever the user does in between: a path not touched since follows `main`, one that was keeps the user's bytes |
| `Materialize.QuarantinesAndPlan` | crates/csp-core/src/engine.rs:590-676 | with queued quarantines carried out first, every wanted path not deferred has `main`'s bytes, and the record says so, both if and only if no queued path holds, right then, the very bytes `main` wants there; at such a path nothing is on disk and the record says the bytes are |
| `Materialize.RestagedIsLost` | crates/csp-core/src/engine.rs:590-676 | the smallest case: one file |
| `CommitLaws.RequarantinedFileIsLost` | crates/csp-core/src/engine.rs:383-676 | the step that loses it: a path set aside by a commit, wanted by `main` again while the queue still waits, and staged with the same bytes |
| `Lost.RestagedFileIsLost` | crates/csp-core/src/engine.rs:383-676 | the whole history, made by two engines: a peer publishes a file and the host puts it on disk, the peer deletes it, the host's commit sets it aside, the peer brings it back, the host stages it again, and materialising takes it away, though `main` has it and the record says it is there |
| `Lost.OwnToggleIsLatest` | crates/csp-core/src/fold.rs:198-253 | in an honest history, what a primitive itself did to a path is the latest touch as seen from its fold |
| `Materialize.ApplyAll` | crates/csp-core/src/engine.rs:652-676 | the loop carries out the operations in order |
| `Runs.RunKeepsInvariant` | crates/csp-core/src/engine.rs:383-582 | in every state of every run of commits, closed deliveries in any order, snapshots and local steps, every node is honest and up to date |
| `Runs.OrderExtendsAncestry` | crates/csp-core/src/order.rs:49-56 | if one authored primitive is an ancestor of another, its key is smaller |
| `Runs.ReachableNodes` | crates/csp-core/src/engine.rs:494-582 | every node's known set is closed under primitive ancestors, its clock bounds every known counter, `main` is the fold of the known set, every fold step has a merge base, and every effective primitive is below `main` |
| `Runs.ReachableNodesAgree` | crates/csp-core/src/fold.rs:568-601 | two nodes with the same effective primitives have the same `main` |
| `Runs.RestoreIsExact` | crates/csp-core/src/engine.rs:842-881 | restoring a snapshot, however much later, succeeds with the files `main` had when that name was last saved |
| `Scenarios.CommitAndDeliver` | crates/csp-core/src/engine.rs:383-582 | a run made by two engines: one commits, the other integrates the closure; both then know the same primitive and have the same `main` |
| `Scenarios.CommitApart` | crates/csp-core/src/engine.rs:383-582 | two engines publish different files without hearing of each other; once one hears of the other its `main` has the files of both and nothing else |
| `Scenarios.CommitClash` | crates/csp-core/src/order.rs:49-56 | two engines add one path differently: whichever hears of the other, `main` has the file of the greater node id |
| `Runs.CommitKeepsHonest` | crates/csp-core/src/engine.rs:383-523 | a commit extends the honest history, with a counter above all its ancestors' |
| `Runs.DeliveryKeepsHonest` | crates/csp-core/src/engine.rs:537-582 | an honest closed batch is never refused, and makes known exactly its primitives |
| `Delivery.ClosureIsClosed` | crates/csp-core/src/engine.rs:684-687 | the closure of held tips decodes and leaves nothing dangling in any closed store |
| `Delivery.ClosureCommits` | crates/csp-core/src/engine.rs:684-687 | the commits of a closure are exactly the history of its tips |
| `Delivery.CatchUp` | crates/csp-core/src/engine.rs:537-582 | after integrating the closure of a peer's tips, a node knows exactly what it knew and the primitives at or below those tips |
| `Delivery.CaughtUpAgree` | crates/csp-core/src/fold.rs:403-454 | two nodes that caught up with each other's frontier have the same `main`, even if their known sets still differ in what the filter drops |
| `Delivery.PushIsClosed` | crates/csp-core/src/engine.rs:689-732 | a live push leaves nothing dangling if and only if the receiver holds the pushed commit's parent, or the commit already |
| `Sent.ClosureHolds` | crates/csp-core/src/engine.rs:684-700 | a closure holds exactly the objects some tip reaches |
| `Sent.PushHolds` | crates/csp-core/src/engine.rs:702-732 | a push starts with the commit, and otherwise holds exactly what its tree reaches and its parent's does not |
| `Sent.ExportedInOrder` | crates/csp-core/src/engine.rs:684-732 | exported objects are listed once each, in ascending order of their ids |
| `Partial.PushCutsOff` | crates/csp-core/src/engine.rs:689-732 | a live push to a complete node cuts the pushed primitive's history off if and only if the node lacks the fold commit it was authored on; the push then fails with the primitive known and `main` as before |
| `Partial.StaysCutOff` | crates/csp-core/src/engine.rs:537-582 | it stays so, and `main` stays as it was, through every batch that does not bring what is missing |
| `Partial.AuthSucceedsIff` | crates/csp-core/src/session.rs:279-313 | on any node a proof is accepted if and only if it would be on a complete one and the frontier can be told |
| `Partial.NoHandshake` | crates/csp-core/src/session.rs:279-313 | so a node with a history cut off completes no handshake, whatever the peer sends |
| `Partial.NeverWanted` | crates/csp-core/src/session.rs:318-330 | and never asks for the tip it holds and knows, whose history is missing |
| `Partial.BackfillIsNotEnough` | crates/csp-core/src/engine.rs:578-581 | a batch that brings what was missing but no new primitive computes no `main`, so the one there still leaves the primitive out |
| `Partial.DanglingPush` | crates/csp-core/src/engine.rs:537-732 | it happens: a node hears only the second of two commits as a live push, which fails, and afterwards refuses a proof any complete node accepts |
| `Session.Session.constructor` | crates/csp-core/src/session.rs:140-150 | a new session waits for the peer's greeting with an empty buffer |
| `Session.Session.OnMsg` | crates/csp-core/src/session.rs:192-200 | the whole new session, node and output, by phase and message, on any node and for any message; exact when nothing is missing from the node afterwards |
| `Session.Session.HandleHello` | crates/csp-core/src/session.rs:206-277 | version and vault must agree, the connector checks the advertised binding, and a refused greeting changes nothing |
| `Session.Session.HandleAuth` | crates/csp-core/src/session.rs:279-313 | the peer's signature over the transcript must hold and a listener must admit the peer; then the frontier is advertised, or the handshake fails because it cannot be told |
| `Session.Session.HandleEstablished` | crates/csp-core/src/session.rs:315-427 | asks for exactly the tips it lacks, answers with the closure in frames, buffers frames and integrates them at the last one |
| `Session.FindWanted` | crates/csp-core/src/session.rs:318-330 | exactly the advertised tips that parse and are not both held and known, in order |
| `Session.MakeFrames` | crates/csp-core/src/session.rs:345-366 | one frame per chunk with the last one marked, or a single empty last frame |
| `SessionLaws.TranscriptReads` | crates/csp-core/src/session.rs:22-38 | what is signed starts with the protocol's own words, and both nonces and the binding can be read back from it |
| `SessionLaws.OwnNonceIsSigned` | crates/csp-core/src/session.rs:206-277 | sessions of one side that differ in their own nonce sign and check different texts, whatever the peers say |
| `SessionLaws.GreetingIff` | crates/csp-core/src/session.rs:206-277 | for every message: a session gets past the greeting exactly by one of this protocol and vault and, for a connector, a binding that is off, not to be compared, or as observed; what it then holds and sends; anything else changes nothing |
| `SessionLaws.ProofIff` | crates/csp-core/src/session.rs:279-313 | for every message on every node: a session becomes established exactly by a signature over the text it holds that verifies for the key it was given, from a peer a listener lets in, where the frontier can be told; the errors otherwise |
| `SessionLaws.StaysEstablished` | crates/csp-core/src/session.rs:315-427 | an established session stays so with the same peer, and refuses greetings and proofs |
| `SessionLaws.BatchHeard` | crates/csp-core/src/session.rs:367-425 | a batch is passed on whole if something in it was new and not at all otherwise; the end of a catch-up, but no live push, clears the bootstrap mark |
| `SessionLaws.RelayedOnce` | crates/csp-core/src/session.rs:367-425 | what a node has heard before it does not pass on again |
| `SessionLaws.WantedIff` | crates/csp-core/src/session.rs:318-330 | asked for are exactly the advertised tips that parse and are not both held and known |
| `SessionLaws.FramesAreSmall` | crates/csp-core/src/session.rs:345-366 | no frame is over 256 KiB unless a single object is |
| `Sent.FramesAreFew` | crates/csp-core/src/session.rs:345-366 | no way of cutting a payload into pieces of at most 256 KiB, or of one object, in order, has fewer pieces than it has frames |
| `SessionLaws.PeerIsProven` | crates/csp-core/src/session.rs:192-313 | over whole sessions, whatever was sent: an established one was greeted acceptably and then given a signature, by the very key it names as its peer, over a text with its own nonce, and a listener had let that key in |
| `Convergence.HandshakeSucceedsIff` | crates/csp-core/src/session.rs:206-313 | a listener and a connector authenticate each other if and only if they serve the same vault, the connector accepts the advertised binding and the listener admits the connector |
| `Convergence.SignedAlike` | crates/csp-core/src/session.rs:24-38 | under any interleaving both sides sign one transcript: every proof ever on its way is its sender's signature over it, and it is what a side that waits for a proof will check |
| `Convergence.FramesReassemble` | crates/csp-core/src/session.rs:390-417 | an established session with an empty buffer that handles the frames of a payload integrates nothing before the last, then exactly that payload in one call, and has an empty buffer again |
| `Convergence.NextMayBeHeard` | crates/csp-core/src/session.rs:315-417 | whatever message comes next in such a session may be handled: what it makes the node integrate decodes and leaves nothing dangling |
| `Convergence.ExchangeGoesWell` | crates/csp-core/src/session.rs:206-427 | two honest nodes under any interleaving of two FIFO channels never see an error, and their state is determined by how much each has heard |
| `Convergence.ExchangeEnds` | crates/csp-core/src/session.rs:206-427 | no session is longer than what the two sides have to say |
| `Convergence.ExchangeConverges` | crates/csp-core/src/session.rs:206-427 | when both channels are empty, both sides are established with each other and have the same `main` |
| `Convergence.AtTheEnd` | crates/csp-core/src/session.rs:390-417 | each node then knows what it knew and everything at or below the peer's frontier; a bootstrap mark is cleared if and only if something was asked for |
| `Conversation.HearNext` | crates/csp-core/src/session.rs:192-200 | the session object handles the next message of such an exchange without error |
| `Conversation.Converse` | crates/csp-core/src/session.rs:192-427 | two engines and two session objects, driven under any schedule until both channels are empty: the drive ends, both sides are established, and both engines have the same `main` |
| `Scenarios.CommitAndMeet` | crates/csp-core/src/session.rs:192-427 | a node that has committed and a fresh one meet: at least six messages are heard, and both end with the committed files as `main` |
| `Scenarios.MarkStays` | crates/csp-core/src/session.rs:315-330 | a marked node that lacks nothing of its peer's frontier keeps its mark, and commits nothing afterwards |
| `Scenarios.FreshNodeStaysMarked` | crates/csp-core/src/session.rs:315-330 | the smallest case: a marked fresh node meets a fresh one, and then cannot commit |
| `Chunks.ChunkObjects` | crates/csp-core/src/session.rs:445-462 | the greedy loop computes the chunks |
| `Chunks.ChunksAreExact` | crates/csp-core/src/session.rs:445-462 | joined, the chunks are the input in order; each is nonempty, and within the limit or a single object |
| `Chunks.FewestChunks` | crates/csp-core/src/session.rs:445-462 | no way of cutting the same objects in order under that rule uses fewer chunks |
| `Config.Esc` | crates/csp-core/src/config.rs:81-95 | the loop computes the escaped text |
| `Config.Unesc` | crates/csp-core/src/config.rs:98-129 | the loop computes the text the escapes stand for, or fails on a bad escape |
| `Config.FmtStr` | crates/csp-core/src/config.rs:131-133 | one string entry |
| `Config.FmtArr` | crates/csp-core/src/config.rs:138-151 | an array entry: empty, on one line, or one element a line |
| `Config.ToTomlString` | crates/csp-core/src/config.rs:160-185 | the entries in order, with absent options and an empty key list left out |
| `Config.StripComment` | crates/csp-core/src/config.rs:270-283 | cuts at the first hash sign outside strings, where a quote after a backslash does not count |
| `Config.ArrComplete` | crates/csp-core/src/config.rs:299-333 | whether every bracket opened outside strings is closed |
| `Config.ParseStr` | crates/csp-core/src/config.rs:287-294 | a quoted string's text, or an error |
| `Config.ParseArr` | crates/csp-core/src/config.rs:335-371 | the strings of an array, or an error |
| `Config.FromTomlStr` | crates/csp-core/src/config.rs:192-266 | reads lines into fields, gathering unfinished arrays, with defaults and one required field |
| `ConfigLaws.RoundTrip` | crates/csp-core/src/config.rs:160-266 | what is printed reads back as the same configuration, for all contents of all strings |
| `ConfigLaws.SaveAndLoad` | crates/csp-core/src/config.rs:160-266 | the two operations one after the other give the configuration back |
| `ConfigLaws.ReadsEntries` | crates/csp-core/src/config.rs:192-266 | the text of any entries, in any order and repeated or not, is read entry by entry |
| `ConfigText.LastStringCounts` | crates/csp-core/src/config.rs:228-250 | of the lines for a string key the last counts, wherever it stands |
| `ConfigText.LastArrayCounts` | crates/csp-core/src/config.rs:228-250 | the same for arrays |
| `ConfigText.LastFlagCounts` | crates/csp-core/src/config.rs:228-250 | the same for flags |
| `ConfigText.LastNumberCounts` | crates/csp-core/src/config.rs:228-250 | the same for numbers |
| `ConfigText.Defaults` | crates/csp-core/src/config.rs:194-266 | a file of entries is accepted exactly if it has the vault id; each field that was not given has its default, each spelled out |
| `ConfigText.LinesSkipped` | crates/csp-core/src/config.rs:209-213 | blank lines, comments and table headers are skipped |
| `ConfigText.LinesRefused` | crates/csp-core/src/config.rs:214-248 | a line without an equals sign that is none of these is refused, and so is a value of the wrong form |
| `ConfigText.UnknownKeys` | crates/csp-core/src/config.rs:249 | keys that are not known say nothing |
| `ConfigText.NumbersRead` | crates/csp-core/src/config.rs:236-248 | numbers are read in decimal, with or without a plus sign, exactly as long as they fit 64 bits |
| `ConfigText.CommentAfterString` | crates/csp-core/src/config.rs:269-294 | a comment after a string is dropped if and only if the string does not end in a backslash; otherwise the line is refused |
| `ConfigText.EscapesRead` | crates/csp-core/src/config.rs:98-129 | what each two-character escape stands for |
| `ConfigText.EscapesWritten` | crates/csp-core/src/config.rs:81-95 | how each character is written that is not written as it is |
| `ConfigText.HexEscapesRead` | crates/csp-core/src/config.rs:98-129 | four or eight digits stand for the character with that number, or are refused if there is none |
| `ConfigText.SampleText` | crates/csp-core/src/config.rs:131-185 | a configuration as it is written, character by character |
| `ConfigLaws.UnescapesAll` | crates/csp-core/src/config.rs:81-129 | unescaping undoes escaping |
| `ConfigLaws.ClosesAtEnd` | crates/csp-core/src/config.rs:335-371 | the first unescaped quote after an escaped string is the one that closes it |
| `ConfigLaws.KeepsQuoted` | crates/csp-core/src/config.rs:270-283 | no part of a printed line is taken for a comment, whether or not the closing quote is recognised as one |
| `ConfigLaws.OpenUntilClosed` | crates/csp-core/src/config.rs:299-333 | a multi-line array stays open until its closing line, whatever brackets its strings hold |
| `Dates.DateRoundTrip` | crates/csp-core/src/authkeys.rs:229-253 | every Gregorian date comes back from its day number |
| `Dates.DayRoundTrip` | crates/csp-core/src/authkeys.rs:229-253 | every day number from 1970 on is that of the valid date it is converted to |
| `Dates.CountsDays` | crates/csp-core/src/authkeys.rs:229-238 | 1 January 1970 is day 0, and the calendar's next day has the next number |
| `Dates.DateTextRoundTrip` | crates/csp-core/src/authkeys.rs:206-226 | the date written for any instant reads back as the midnight it begins with if and only if its year is at most 9999, and as nothing otherwise |
| `Dates.ParsesAsWritten` | crates/csp-core/src/authkeys.rs:206-219 | every date text with year, month and day in range is accepted; it reads as the date it spells if and only if its month has that day, and otherwise as the day that many days into the next month |
| `Dates.AcceptedAndStrict` | crates/csp-core/src/authkeys.rs:206-226 | of all accepted texts, the writer gives back exactly those that spell a calendar date in its own form |
| `Dates.ExpiryIsJustAfter` | crates/csp-core/src/authkeys.rs:179-183 | the expiry is a midnight after the time to live ends, by one day at most |
| `Dates.SampleDates` | crates/csp-core/src/authkeys.rs:222-227 | the first second of all, and the first and last of a leap day, as they are written |
| `AuthKeys.ParseExpiryTokens` | crates/csp-core/src/authkeys.rs:112-147 | of what follows algorithm and key, the last well-formed token of each kind counts, and an absolute expiry comes first |
| `AuthKeys.ParseLine` | crates/csp-core/src/authkeys.rs:78-87 | the key and expiry of a line; other lines are kept as they are |
| `AuthKeys.BuiltLineReads` | crates/csp-core/src/authkeys.rs:78-175 | what was written for a key and any expiry reads back as that key and the midnight of the expiry, never or none; a time past the year 9999 reads back as none |
| `AuthKeys.RebuildReplaces` | crates/csp-core/src/authkeys.rs:151-175 | writing a line again replaces its expiry and changes nothing else |
| `AuthKeys.EnrolmentSurvives` | crates/csp-core/src/authkeys.rs:78-183 | an enrolled key's expiry survives the file, is valid to the end of its time to live and not for more than a day longer, if and only if it lies in a year up to 9999; a later one comes back as none, and the key is valid forever |
| `AuthKeys.FarExpiryIsLost` | crates/csp-core/src/authkeys.rs:78-183 | a time to live for which that happens |
| `KeyLaws.DurationsRead` | crates/csp-core/src/authkeys.rs:187-204 | days, weeks of seven and years of 365 of them, in either case |
| `KeyLaws.BareNumbersRead` | crates/csp-core/src/authkeys.rs:187-204 | a bare number is one of days; zero, like the word, is no duration |
| `KeyLaws.AbsoluteCounts` | crates/csp-core/src/authkeys.rs:112-147 | the last absolute expiry counts, whatever else is said |
| `KeyLaws.TtlCounts` | crates/csp-core/src/authkeys.rs:112-147 | without one, a time to live counts from the midnight the key was added, and says nothing without it |
| `KeyLaws.TtlLineReads` | crates/csp-core/src/authkeys.rs:78-147 | a key line with both reads as that key until then |
| `KeyLaws.OtherLines` | crates/csp-core/src/authkeys.rs:78-87 | blank lines, comments and lines for other kinds of keys name no key and are kept as they are |

## Left out

- Engine.MemEngine.Integrate: when something is missing afterwards, the exact cases in which received folds can be re-run and `main` can be computed are left open in part: it is refused only if a fold does not reproduce or takes something missing, and there is no `main` if a history is cut off, but a fold step that finds a tree missing is not told apart.
- Session.Session.OnMsg: the same, for what a message makes the node integrate.
- Session.Session.HandleEstablished: the same.
- Engine.MemEngine.CommitScoped: commits, plans, snapshots and pushes by a node from which something is missing; integrating, folding, telling the frontier, serving a closure and whole sessions are modelled there too.
- Fold.ComputeMain: of a list with repeats, which the engine never keeps, only that the tips are ascending and the right ones is stated (`Fold.Frontier`), not what a tip folded with itself gives.
- SHA-1, ed25519, base64, zlib, MessagePack, JSON and the Myers diff: unknowns with the assumptions named above.
- Byte layout of objects (headers, tree sort keys, author lines): objects are their fields; the trailers of an edit are the part of the layout that is modelled as text.
- File modes: executable and symbolic-link entries of a tree.
- 64-bit counters and clocks are natural numbers, so wrap-around at 2^64 is not modelled; the numbers of the configuration and trailers are bounded as in the source.
- Saving and loading the engine's own state (`to_bytes`, `from_bytes`), and the disk store, vault and repository layers with their locks and garbage collection.
- Sockets, TLS, timeouts and relaying to third peers; a session's `relay` output is modelled, its delivery elsewhere is an arbitrary delivery in `Runs`.
- The decision table of `admit_peer` and the editing of the authorized-keys file as a whole: admission is an input of the session; single lines are modelled.
- `restore_time`: the fold of the known commits up to an author time; it is `FoldSubset` on another subset.
- Hand-edited configuration files: the parser is modelled on all texts; beyond what the printer writes, in any order and with comments, blank lines and unknown keys, only the refused forms above are characterised.
- The command line, the WebAssembly bindings, the SDKs and the plugins: glue over the same engine.
