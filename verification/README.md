# fabric8-wit: a verified model of its stateful core

fabric8-wit is the work item tracker behind a planning tool. Most of it moves rows between a JSON:API and
PostgreSQL. This project models the eight places where more than that is going on, and proves what they keep:

| Component | Files |
|---|---|
| the tree of iterations, stored as materialised paths, changed by create, re-parent and delete | `Path.dfy`, `Iteration.dfy`, `Hierarchy.dfy`, `RequestEffects.dfy`, `IterationStore.dfy` |
| the transaction runner with its worker and its timer, and the comment count that runs inside it | `Transaction.dfy`, `CommentCount.dfy` |
| optimistic versioning of labels, alone and with any number of interleaved clients | `Label.dfy`, `LabelConcurrency.dfy` |
| search expressions with parent pointers, their traversals up and down | `Criteria.dfy` |
| paging links in 64-bit arithmetic | `Strconv.dfy`, `Paging.dfy` |
| the CSV export and the merge of an update payload into a work item | `CsvLayout.dfy`, `CsvOrder.dfy`, `CsvExport.dfy`, `CsvCells.dfy`, `Attributes.dfy` |
| comments and their revision log | `CommentLog.dfy`, `CommentRepository.dfy` |
| the index of access rules and its cache | `AccessRules.dfy`, `AccessChecks.dfy` |

`dafny verify dfyconfig.toml` checks everything.

## How to read it

Where the program updates something in place, the model is a class whose methods change its fields, and each method
is tied to a function of the old state (`Exec`, `Moved`, `Merged`, `Found` and so on); the lemmas about runs are then
about that function. Goroutines and interleaved database statements are transition systems: `Enabled` says what can
happen next, `Next` what it does, and a run is any list of enabled steps. An order that Go or SQL leaves open (a map,
a query without ORDER BY) is a list that a method picks arbitrarily, so what is proved holds for every order.

A UUID is a natural number, 0 being the nil UUID. A row is a value in a map from primary key to row; soft-deleted
rows are no longer in the map, but their keys stay taken. Statements of one request run together, except in
`LabelConcurrency`, where those of different requests interleave at READ COMMITTED.

The main results, hardest first:

* After any run of space creation, child creation, re-parenting and deletion every iteration's path is exactly the
  chain of its parents up to the one root of its space; no path repeats an ID; deleted iterations never come back; at
  most one iteration of a space is running and the root never is (`Hierarchy.RunsAreTrees`,
  `Hierarchy.RunsHaveOneRootAndOneRunning`, `Hierarchy.DeletedStaysDeleted`). When each request is accepted, and every
  field it changes or keeps, is told in `RequestEffects`.
* The guards of a re-parent are not only enough but exactly what is needed (`Iterations.MoveKeepsTreeIffGuarded`). A
  re-parent keeps the set of descendants but flattens it, so the shape survives only in a subtree of one level
  (`Iterations.ShapeSurvivesIffOneLevel`). Flattening can bring two equal names under one parent; the unique index then
  rejects the whole request, and `Iterations.MoveAcceptedIffNamesFit` says exactly when.
* Saving a moved subtree row by row against the unique index is accepted whenever the end result is: no order of the
  rows meets a collision that is only passing (`IterationStore.Store.SaveSubtree`).
* A transaction that is handed out is finished exactly once in every interleaving of caller, worker and timer, the
  worker never blocks, and the caller returns even if the worker never does (`Transactions.EveryRunFinishesOnce`). It is
  committed exactly when the function is heard to have returned nil (`Transactions.ReportDecides`). One
  that fails to get its isolation level never is (`Transactions.FinishedUnlessIsolationFails`). The count
  channel built on top is closed once, a send on it after that is always caught, and all three goroutines end, even
  when nobody receives (`CommentCount.EveryRunIsSafe`, `CommentCount.EveryMaximalRunEnds`); what is handed over is the
  true count (`CommentCount.ReceivesTheCount`).
* The new version of a label comes from a second read while the guard of the update uses the first; still no update is
  lost (`LabelConcurrency.NoUpdateIsLost`, `LabelConcurrency.OneWinnerPerVersion`).
* Composing two expressions mutates both; `Criteria.Compose` says exactly which trees on the heap survive that, and
  `Criteria.IterateParents` that the way up ends on every heap.
* Following next or previous links yields every row once and in order, although the arithmetic may overflow on the
  way (`Paging.FollowNextYieldsTheRest`, `Paging.FollowPrevYieldsTheStart`).
* An export is one header and one line for each result, whatever the windows, the cache and the order of maps
  (`CsvExport.WholeExport`, `CsvExport.ExportIsDetermined`), and each cell is what the work item calls for
  (`CsvCells.WholeExportCells`). When the order of a map does show in the columns is settled
  by `CsvOrder.OrderShowsIff`.
* Replaying the revisions of a comment gives what is stored, for every run, and for every earlier moment of it
  (`CommentLog.RunsAgree`, `CommentLog.EveryVersionIsKept`).
* The access index never grants more than the rules do, and grants all of it exactly when no rule loses a verb to a
  later one (`AccessRules.IndexAgreesIff`).

## Where the code departs from its documentation or its purpose

* `iteration/iteration.go:245-246` announces a version conflict for Save; the code has no version check, and the model
  has none.
* `kubernetes/deployments_access.go:327-333` quotes that a rule without groups stands for two groups; the code files it
  under the empty group only, and so does the model.
* A first link carries limit 0 when the offset is a positive multiple of the limit, and a last link does when there are
  no rows and the offset is a multiple of the limit. Such a link reads back as a request with the default limit. The
  exact conditions are `Paging.FirstReadsBackIff` and `Paging.LastReadsBackIff`.
* A next link whose start does not fit into 64 bits is offered although there are no rows left, and leads back to the
  first page (`Paging.NextOfferedIff`). `controller/planner_backlog.go:72` passes the total as page length, so it offers
  no next page at all, except in that case (`Paging.TotalAsCurrentHidesNextIff`).
* Types whose fields share a label lead to repeated keys in the export (`controller/workitem.go:627-633`);
  `CsvLayout.LayoutFits` says that this happens exactly when two labels are equal. If one type has a label under two
  keys, the order of a map decides which of them is exported (`CsvOrder.TwoLayouts`).
* `gormapplication/application.go:194-198` returns an error without rolling back when it cannot set the isolation level
  of a transaction it has begun (`Transactions.IsolationFailureAbandons`).

## Model

| member | source | states |
|---|---|---|
| Paths.PathParts | path/path.go:33-57 | A path is its parent's path and its own ID, and the parent's path ends in the parent's ID. |
| Iterations.OccursIffPrefix | iteration/iteration.go:320-333 | An iteration's ID occurs in a path exactly when its own path is a prefix of that path, so selecting by prefix selects the descendants. |
| Iterations.PathsHaveNoRepeats | iteration/iteration.go:50-55 | No stored path repeats an ID, and no iteration is among its own ancestors. |
| Iterations.PathIsParentChain | iteration/iteration.go:87-91 | The materialised path equals the chain found by asking each iteration for its parent. |
| Iterations.RootIsFirst | iteration/iteration.go:199-215 | The first ID of every path is a live root of the same space. |
| Iterations.AddedKeepsTree | controller/iteration.go:114-131 | A child stored under its parent's path extends the tree and exactly the parent's subtree by itself. |
| Iterations.RootKeepsTree | iteration/iteration.go:139-153 | A new root beside the existing rows leaves a tree. |
| Iterations.InPlaceKeepsTree | iteration/iteration.go:247-272 | Saving an iteration with its path and space unchanged leaves a tree. |
| Iterations.MovedKeepsTree | controller/iteration.go:291-331 | A re-parent that passes the guards leaves a tree. |
| Iterations.MoveKeepsTreeIffGuarded | controller/iteration.go:291-318 | A re-parent leaves a tree if and only if the new parent is in the same space, is not the iteration itself and is not below it. |
| Iterations.MoveEffect | controller/iteration.go:291-331 | Rows outside the moved subtree are unchanged, the moved iteration keeps its set of descendants, each of them is now a direct child, and its ancestors are the new parent's path. |
| Iterations.ShapeSurvivesIffOneLevel | controller/iteration.go:318-331 | Every descendant keeps its parent exactly when all of them were direct children. |
| Iterations.CollisionIsLasting | controller/iteration.go:315-331 | A name collision with a row of the subtree is one with a row that is in its final place already, so it does not go away when the other rows have been saved. |
| Iterations.MoveAcceptedIffNamesFit | migration/sql-files/105-update-root-area-and-iteration-path-field.sql:27-31 | The unique index accepts a permitted re-parent if and only if all names in the subtree differ and no child of the new parent has the moved iteration's name. |
| Iterations.RemovedKeepsTree | controller/iteration.go:386-433 | Removing an iteration with its subtree leaves a tree in which no path mentions a removed iteration. |
| Iterations.RemovalMustBeClosed | controller/iteration.go:403-433 | Removing a set of iterations leaves a tree exactly when the set contains the whole subtree of each of its members. |
| Hierarchy.ExecKeepsInv | controller/iteration.go:198-444 | Every request, accepted or rejected, keeps the invariant of paths, roots, states, names and work items. |
| Hierarchy.Run | controller/iteration.go:198-444 | Every state that any list of requests reaches satisfies the invariant. |
| Hierarchy.RunsAreTrees | controller/iteration.go:276-331 | After every run each path ends in its own ID, repeats none, is the chain of parents, and each prefix of it is the stored path of a live iteration of the same space. |
| Hierarchy.RunsHaveOneRootAndOneRunning | iteration/iteration.go:281-299 | After every run a space has exactly one path of length 1, at most one running iteration, its root does not run, and all its paths start at the same root. |
| Hierarchy.StartAllowed | controller/iteration.go:263-271 | An accepted change to the running state concerns no root, and no iteration of the space was running. |
| Hierarchy.ExecNeverRevives | iteration/iteration.go:139-181 | No request stores an iteration under the key of a deleted one. |
| Hierarchy.DeletedStaysDeleted | iteration/iteration.go:337-361 | An iteration deleted at any point of a run is absent from every later state. |
| Hierarchy.DeleteMovesItems | controller/iteration.go:390-434 | No work item is lost by a delete: those in the removed subtree are in the deleted iteration's parent, all others stay, and none is in a removed iteration. |
| Hierarchy.MoveTwiceStaysFlat | controller/iteration.go:318-331 | Two re-parents of the same iteration in a row leave what the second alone would have left. |
| RequestEffects.SubtreeIffOnPath | iteration/iteration.go:320-333 | The rows below an iteration are those with its ID further up on their path. |
| RequestEffects.SiblingsDiffer | migration/sql-files/105-update-root-area-and-iteration-path-field.sql:27-31 | After every run two iterations of a space under the same parent have different names. |
| RequestEffects.RejectedChangesNothing | application/transaction.go:47-53 | A rejected request leaves the database as it was. |
| RequestEffects.UpdateAcceptedIff | controller/iteration.go:242-331 | An update is accepted exactly when the iteration exists, starting is allowed and nothing of the space runs, the new parent is in the same space and has not the iteration on its path, and no name is taken where it is to stand. |
| RequestEffects.UpdateErrors | controller/iteration.go:263-331 | Each error of an update has the condition that the guards give it, in their order. |
| RequestEffects.UpdateEffect | controller/iteration.go:242-331 | An accepted update stores the given name and state and keeps those not given, puts the iteration under the new parent's path and its descendants directly under it, and leaves names, states and spaces of all others and every path outside the subtree alone. |
| RequestEffects.CreateMeans | iteration/iteration.go:139-181 | A missing ID is generated, a missing path is the ID alone, given ones are kept; only a path that does not end in the ID is a mismatch; an accepted row has an unused ID and a free name. |
| RequestEffects.CreateChildEffect | controller/iteration.go:114-134 | A child is stored under the client's ID, or a generated one, with the given name, below the parent's path, as new; nothing else changes; each failure has its condition. |
| RequestEffects.CreateSpaceEffect | controller/space.go:134-141 | A new space gets a root with the space's name whose path is its own ID; it fails exactly for a taken space or ID. |
| RequestEffects.CreateUnderRootEffect | controller/space_iterations.go:64-86 | The iteration is stored with a path of the root and itself; each failure has its condition. |
| RequestEffects.DeleteEffect | controller/iteration.go:386-434 | A delete is refused exactly for missing iterations and roots, and removes exactly the rows with the iteration on their path. |
| RequestEffects.DeleteItems | controller/iteration.go:390-424 | Exactly the work items of those rows are put into the ID before the deleted one on its path. |
| RequestEffects.PutItemEffect | controller/workitem.go:424-433 | The work item is in the given iteration afterwards and nothing else changes. |
| IterationStore.Store.constructor | iteration/iteration.go:112-114 | An empty store satisfies the invariant. |
| IterationStore.Store.Root | iteration/iteration.go:199-215 | The root of a space is found exactly for existing spaces, and is a root. |
| IterationStore.Store.CanStart | iteration/iteration.go:281-299 | Starting is refused exactly for the root and while any iteration of the space runs. |
| IterationStore.Store.Create | iteration/iteration.go:139-181 | A missing ID or path is completed, a path that does not end in the ID is refused; the row is stored under a key never used before if its name is free under its parent; otherwise nothing changes and the failure says why. |
| IterationStore.Store.Save | iteration/iteration.go:247-272 | A live row is overwritten unless the unique index is violated; otherwise nothing changes. |
| IterationStore.Store.LoadChildren | iteration/iteration.go:320-333 | Yields each row with a strictly longer path that extends the given one, once. |
| IterationStore.Store.DeleteRow | iteration/iteration.go:337-361 | Removes one live row, fails for the nil ID and for missing rows. |
| IterationStore.Store.LoadByIteration | workitem/workitem_repository.go:1145-1157 | Yields each work item of one iteration, once. |
| IterationStore.Store.PutItem | controller/workitem.go:424-433 | A work item is put into a live iteration; for a missing one nothing changes. |
| IterationStore.Store.CreateSpace | controller/space.go:134-141 | Creating a space creates its root iteration, as the request function says. |
| IterationStore.Store.CreateChild | controller/iteration.go:114-144 | The request changes the tables as the request function says, with the client's ID if it gave one. |
| IterationStore.Store.CreateUnderRoot | controller/space_iterations.go:64-86 | The new iteration is stored directly under the root of the space. |
| IterationStore.SaveStep | controller/iteration.go:315-331 | Saving one more row of a moved subtree fails exactly when the finished move violates the unique index, or else leaves a partial move that satisfies it. |
| IterationStore.Store.SaveSubtree | controller/iteration.go:319-331 | Saving the former descendants one by one, in any order, ends in the whole move if that satisfies the unique index, and fails otherwise. |
| IterationStore.Store.SaveMoved | controller/iteration.go:315-331 | Saving the moved iteration and then its descendants ends in the whole move if that satisfies the unique index, and otherwise in the rows there were before. |
| IterationStore.Store.Reparent | controller/iteration.go:276-331 | The first guard that fails decides the error and nothing changes; otherwise the rows are those of the whole move. |
| IterationStore.Store.Assign | controller/iteration.go:243-275 | Given attributes replace those of the iteration; starting is refused for the root and while any iteration of the space runs. |
| IterationStore.Store.Update | controller/iteration.go:242-331 | An update yields exactly the failure and the tables of the request function and keeps the invariant. |
| IterationStore.Store.MoveItems | controller/iteration.go:406-424 | Exactly the work items of one iteration are put into the other. |
| IterationStore.Store.Doomed | controller/iteration.go:386-404 | The iterations to remove are the whole subtree and the iteration, each once, and the live parent is none of them. |
| IterationStore.Store.RemoveAll | controller/iteration.go:403-434 | After the loop the given rows are gone and exactly their work items are in the parent. |
| IterationStore.Store.Delete | controller/iteration.go:355-444 | A delete yields exactly the failure and the tables of the request function and keeps the invariant. |
| Transactions.NextKeepsInv | application/transaction.go:32-65 | Every step of caller, worker and timer keeps the invariant of handle, channel and goroutines. |
| Transactions.RunsKeepInvAndEnd | application/transaction.go:32-65 | Every run keeps the invariant, and each of its steps uses up rank. |
| Transactions.StuckMeansDone | application/transaction.go:36-65 | When nothing can move, the caller has returned and the worker has ended: nobody waits forever. |
| Transactions.CallerNeedsNoWorker | application/transaction.go:45-64 | Until it has returned the caller always gets on without a step of the worker, by the timer at the latest. |
| Transactions.EveryRunFinishesOnce | application/transaction.go:21-66 | In every run at most one of Commit and Rollback is called, exactly one once the caller of a transaction that was handed out has returned, Commit exactly when nil is returned, no cleared handle is used, and the worker sends at most once and never blocks. |
| Transactions.ReportDecides | application/transaction.go:36-64 | In every run the caller commits exactly when it has received the report of a function that returned nil; an error, a panic and a timeout all end in a rollback and an error. |
| Transactions.ReportArrives | application/transaction.go:42-58 | Whatever the function returns, there is a run in which the caller returns just that. |
| Transactions.FinishedUnlessIsolationFails | gormapplication/application.go:188-202 | When the caller has returned, everything begun in the database is finished if and only if setting the isolation level did not fail. |
| Transactions.IsolationFailureAbandons | gormapplication/application.go:194-198 | If it fails the call returns at once and the transaction stays open. |
| CommentCount.StepRefines | controller/work_item_comments.go:166-188 | Each step of the goroutine around Transactional is a step of Transactional or leaves it alone. |
| CommentCount.RunRefines | controller/work_item_comments.go:166-188 | Each run contains a run of Transactional that ends in the same state, so everything proved of that holds here. |
| CommentCount.NextKeepsInv | controller/work_item_comments.go:168-180 | Every step keeps the invariant of channel, closes, panics and received values. |
| CommentCount.EveryRunIsSafe | controller/work_item_comments.go:166-188 | In every interleaving the deferred close runs at most once and only after Transactional returned, a receive yields the true count or 0, a send on the closed channel is recovered, and the transaction is finished at most once. |
| CommentCount.ReceivesTheCount | controller/work_item_comments.go:171-187 | In every run the value handed over, received first, is the true count if the query succeeded and 0 if not; every other receive yields 0; the transaction commits only when the query succeeded and its value was taken. |
| CommentCount.NilIffTaken | controller/work_item_comments.go:171-179 | The function returns nil exactly when the query succeeded and its value was taken. |
| CommentCount.TheCountArrives | controller/work_item_comments.go:166-188 | There is a run in which the request receives the count and the transaction commits. |
| CommentCount.EveryMaximalRunEnds | controller/work_item_comments.go:166-188 | A run that cannot go on has ended all goroutines, closed the channel once and answered every receive, also when there is none. |
| CommentCount.NobodyReceives | controller/work_item_comments.go:171-179 | A request that never receives does lead to a send on the closed channel, after the rollback, and that is caught. |
| Labels.TrimSpaceStrips | controller/label.go:193-195 | A trimmed name has no white space at its ends, is empty exactly for blank names, and is not changed by trimming again. |
| Labels.TrimSpaceIsMiddle | controller/label.go:193-195 | Trimming takes away white space from both ends and nothing else. |
| Labels.UpdatedFollows | controller/label.go:193-205 | Given fields are stored, the name trimmed; absent ones, ID and space stay; the version goes up by one. |
| Labels.UpdateFailureIff | controller/label.go:181-208 | An update is accepted exactly when the version is given and stored, the name is not blank and no other label of the space has it; each error has its condition. |
| Labels.UpdateKeepsRowsOk | label/label.go:97-143 | An accepted update keeps names non-blank and unique within their space. |
| Labels.Repository.Create | label/label.go:73-94 | A label with a non-blank free name is stored under its new key; otherwise nothing changes and the error says why. |
| Labels.Repository.Save | label/label.go:97-143 | The row is overwritten with its version raised by one exactly when the given version is the stored one; otherwise nothing changes. |
| Labels.Assign | controller/label.go:193-204 | Given fields replace those of the label, the name trimmed; absent ones stay. |
| Labels.Repository.Update | controller/label.go:176-210 | An update alone stores the next version, in which given fields are stored and absent ones stay as they were, or fails with the first guard's error and changes nothing. |
| LabelConcurrency.GuardFitsReread | label/label.go:102-119 | Whenever the guard on the first version holds, the second read saw that version too, so the new version is one more and the row is the one the client was shown. |
| LabelConcurrency.NextKeepsInv | label/label.go:97-143 | Every statement of every client keeps the invariant of rows, history and clients. |
| LabelConcurrency.CommitReplacesWhatWasShown | controller/label.go:185-208 | In every interleaving a commit raises the version by exactly one over the version the client named; fields in the payload are stored, those absent from it equal the replaced version's. |
| LabelConcurrency.NoUpdateIsLost | label/label.go:97-143 | After every interleaving each label's versions form an unbroken chain in which each one differs from the one before only in the fields its writer's payload gives, and every client that was told it succeeded wrote one of them. |
| LabelConcurrency.OneWinnerPerVersion | label/label.go:119-138 | Of all clients that name the same version of a label at most one succeeds. |
| LabelConcurrency.AloneIsSequential | controller/label.go:185-208 | A client whose statements are not interleaved with others does what the sequential update does: it stores the same row, or fails with the same error and stores nothing. |
| Criteria.Reparent | criteria/binary_expression.go:31-35 | The new node becomes the parent of both operands, and no other expression changes. |
| Criteria.MakeLeaf | criteria/expression_field.go:19-21 | A new leaf is a tree of its own and younger than everything before it. |
| Criteria.Compose | criteria/binary_expression.go:31-35 | Both operands get the new node as parent; the new tree is in order exactly when neither operand lies inside the other's tree, and any other tree stays in order exactly when neither operand was taken from its inside; parents stay younger than their children in any case. |
| Criteria.Expression.Leaf | criteria/expression_field.go:19-21 | A new leaf has no operands and no parent. |
| Criteria.Expression.Binary | criteria/expression_and.go:18-20 | A new binary node holds its operands and has no parent. |
| Criteria.Expression.SetParent | criteria/expression.go:39-41 | The parent is replaced, and nothing else. |
| Criteria.LinkedIffUntouched | criteria/binary_expression.go:31-35 | Overwriting the parents of two nodes breaks a tree exactly when one of them lies below its root. |
| Criteria.ParentlessIsNotInner | criteria/expression.go:34-41 | An expression without a parent lies inside no tree. |
| Criteria.RootsShareNothing | criteria/expression.go:34-41 | Two trees with parentless roots that share a node are the same tree. |
| Criteria.RootIsNotInner | criteria/binary_expression.go:31-35 | No expression lies below itself. |
| Criteria.HeldByParent | criteria/expression.go:34-41 | The parent of each node below the root is the node of the tree that holds it. |
| Criteria.ParentsRunThroughAncestors | criteria/criteria.go:5-15 | Following parents from a node runs through its ancestors, nearest first, and ends in nil after the root. |
| Criteria.ChainIsAncestors | criteria/criteria.go:5-15 | In a tree with a parentless root the chain of parents is that of the ancestors, nearest first. |
| Criteria.TakenLeadsToHolder | criteria/binary_expression.go:31-35 | From an operand that was taken out of another tree the chain leads to its new holder. |
| Criteria.IterateParents | criteria/criteria.go:5-15 | On any heap the constructors can build, overwritten parents included, the walk ends and calls the visitor on exactly the shortest prefix of the chain of parents that ends in a rejection, or on all of it. |
| Criteria.AcceptIsWalk | criteria/iterator.go:57-65 | The recursion with early stop does what one walk along the post-order does. |
| Criteria.PostOrderStopsAtFirst | criteria/iterator.go:5-7 | The visitor is called on exactly the shortest prefix of the post-order that ends in a rejected node, or on the whole of it. |
| Criteria.PostOrderListsNodes | criteria/iterator.go:57-65 | The post-order lists exactly the nodes of the tree, as many as it has places, the root last. |
| Criteria.OperandsComeFirst | criteria/iterator.go:57-65 | Wherever an operation stands, its right operand is visited right before it and its left operand right before all of the right one. |
| Criteria.StopsAtOnePlace | criteria/iterator.go:57-65 | There is only one sequence of calls that stops at the first rejection. |
| Strconv.RoundTrip | controller/paging.go:21-29 | Every 64-bit offset printed into a link is read back unchanged. |
| Strconv.DecimalValue | controller/paging.go:25-30 | Digits are read as decimal: a further digit multiplies by ten and adds its value. |
| Strconv.DecimalExamples | controller/paging.go:25-30 | Signs, the empty text and letters are printed and read as strconv does. |
| Strconv.WrapBack | controller/paging.go:61-67 | Wrap-around of intermediate results does not show when the final one fits. |
| Paging.ComputePagingLimits | controller/paging.go:21-48 | An offset that is a number and not negative is kept, any other becomes 0; a positive limit is kept up to 500, any other becomes 20. |
| Paging.LimitsMean | controller/paging.go:37-47 | The limit is 20 unless a positive one is asked for, and never more than 500. |
| Paging.SetPagingLinks | controller/paging.go:50-113 | In 64-bit arithmetic the links are those of the mathematical definition, but for the start of the next page, which may wrap around; links that do not apply are left as they were. |
| Paging.PrevLink | controller/paging.go:60-75 | The previous link in 64-bit arithmetic is that of the mathematical definition. |
| Paging.LastLink | controller/paging.go:98-113 | The last link in 64-bit arithmetic is that of the mathematical definition. |
| Paging.Retreat | controller/paging.go:103-104 | From past the end, goes back the fewest pages that start before the total, in 64-bit arithmetic. |
| Paging.Advance | controller/paging.go:99-101 | From before the end, goes on to the last page that starts before the total, in 64-bit arithmetic. |
| Paging.PrevIsAdjacent | controller/paging.go:58-76 | The previous page ends where this one starts; from past the end it covers the end of the range; it is aligned with the offset unless cut at 0. |
| Paging.LastCoversTheEnd | controller/paging.go:97-113 | The last page starts before the total, reaches it, and is aligned with the offset unless cut at 0. |
| Paging.NextOfferedIff | controller/paging.go:78-84 | A next page, starting where this one ends, is offered when there are rows left, and otherwise only when that start does not fit into 64 bits. |
| Paging.PrevAndNextReadBack | controller/paging.go:58-84 | Previous links always read back unchanged, next links exactly when offset and page length together fit into 64 bits; otherwise they read back as the first page. |
| Paging.FirstEndsOnGrid | controller/paging.go:86-95 | The first page starts at 0 and ends at the first place from which whole pages lead to the offset. |
| Paging.LastOfNothing | controller/paging.go:97-113 | Without rows the last page ends where the first one does. |
| Paging.FirstReadsBackIff | controller/paging.go:86-95 | The first link reads back unchanged exactly when the offset is 0 or no multiple of the limit. |
| Paging.LastReadsBackIff | controller/paging.go:97-113 | The last link reads back unchanged exactly when there are rows or the offset is no multiple of the limit. |
| Paging.FollowNextYieldsTheRest | controller/paging.go:78-84 | Following next links from any page, each as it reads back, yields the rows from its offset to the end once, in order, and stops. |
| Paging.FollowPrevYieldsTheStart | controller/paging.go:58-76 | Following previous links from any page, also from past the end, yields the rows before its offset once, in order. |
| Paging.TotalAsCurrentHidesNextIff | controller/planner_backlog.go:72 | A caller that passes the total as page length offers no next page exactly when offset and total together fit into 64 bits. |
| Paging.NextFromLargestOffset | controller/planner_backlog.go:72 | From the largest offset on one row such a caller does offer a next page, which reads back as the first page. |
| Attributes.TurnExtends | controller/workitem.go:485-521 | One more turn of the loop does to the merge of a part of the payload what adding that entry to the part does. |
| Attributes.TurnsMerge | controller/workitem.go:485-521 | Any order of turns over the rest of the payload ends in the merge of the whole payload. |
| Attributes.OrderDoesNotMatter | controller/workitem.go:485-521 | Two orders of the payload map lead to the same fields, or both to a failure. |
| Attributes.MergeAttributes | controller/workitem.go:485-521 | The loop yields the order-free merge, or fails exactly when some entry cannot be stored. |
| Attributes.ConvertAttributes | controller/workitem.go:485-528 | The conversion succeeds exactly when every entry can be stored and the resulting markup is supported, with the merged fields. |
| Attributes.MergeEffect | controller/workitem.go:487-510 | Content and markup given in the payload are both stored, in whichever order they come; other fields are the payload's, or else unchanged. |
| Attributes.AllOkIff | controller/workitem.go:485-521 | The loop fails exactly for an object that is no description, a markup that is no text, a description on top of something else, and a codebase that cannot be made. |
| Attributes.DescriptionMeans | rendering/markup_content.go:30-72 | The stored content is the given one, else the old one; the stored markup is the given one, else the old one, else the one that came with the content. |
| CsvLayout.SortSorts | controller/workitem.go:626 | The labels are sorted and none is lost or made up. |
| CsvLayout.LexLeMeans | controller/workitem.go:626 | A label comes before another if it is the beginning of it or has the smaller character where they first differ. |
| CsvLayout.CollectColumns | controller/workitem.go:585-619 | Each field key of any type gets one column with the label of the first type that has it; columns of earlier types come first, and each type counts once. |
| CsvLayout.AddFields | controller/workitem.go:601-618 | The fields of one type are added in any order, each once, without touching the columns there are. |
| CsvLayout.PairKeys | controller/workitem.go:627-634 | Each sorted label gets the key of the first column with that label. |
| CsvLayout.Layout | controller/workitem.go:585-636 | The columns are those of some order of visiting the types' fields, sorted by label, each label with the first key collected with it. |
| CsvLayout.LayoutFits | controller/workitem.go:621-636 | In every layout labels are sorted, each stands beside a key it belongs to, none is missing, and keys repeat exactly when two labels are equal. |
| CsvOrder.OneLayout | controller/workitem.go:621-636 | When no type brings the same label with two keys, the columns do not depend on the order in which maps are visited. |
| CsvOrder.OrderShowsIff | controller/workitem.go:585-636 | The visiting order shows in the columns if and only if some type is the first with a label and has it under two keys. |
| CsvOrder.DistinctIsSettled | controller/workitem.go:613-617 | Distinct labels are enough for the order not to show. |
| CsvOrder.VisitWith | controller/workitem.go:787-797 | For each key with which a type brings a label there is a visiting order that gives the label that key. |
| CsvExport.NumberCache.Resolve | controller/workitem.go:683-693 | A number from the cache is the number the database has, misses are resolved and kept, and the cache stays valid. |
| CsvExport.WriteChildren | controller/workitem.go:701-725 | The cell lists the numbers of all children sorted, whatever was cached, or fails when one cannot be resolved. |
| CsvExport.WriteParent | controller/workitem.go:677-700 | The cell is the number of the first parent entry for the work item, whatever was cached, or empty without one. |
| CsvExport.WriteCell | controller/workitem.go:673-737 | Each column is filled by its own rule, and only an unknown parent or child makes it fail. |
| CsvExport.WriteRow | controller/workitem.go:655-739 | A row can be made exactly when number, type, parent and children can be resolved, and then holds for each column its own cell. |
| CsvExport.WriteRows | controller/workitem.go:655-740 | Either all rows can be made, and are, in order, or none is handed out. |
| CsvExport.ConvertWorkItemsToCSV | controller/workitem.go:572-749 | Either no rows for no work items, or an optional header and one row for each work item in order; the cache never shows. |
| CsvExport.WriteUnlimited | controller/search.go:223-253 | The window loop ends; it has written the rows of all windows up to the first short one, or, exactly when some window cannot be converted, those of all windows before the first such and then an error. |
| CsvExport.WriteLimited | controller/search.go:204-222 | With a limit the result is at most that many rows and a note exactly when there are more. |
| CsvExport.WorkitemsCSV | controller/search.go:143-254 | Limits above 1000 and negative offsets are refused; with a limit the extra result is dropped and noted; without one everything is exported. |
| CsvExport.ExportedLength | controller/search.go:222-249 | The windows together hold as many rows as there are results from the start on. |
| CsvExport.ExportedIsEachOnce | controller/search.go:222-249 | Row number i of the export is the row of result number start plus i, made in its own window. |
| CsvExport.WholeExport | controller/search.go:204-251 | With settled types, those of CsvOrder.OneLayout, an export that goes through is one table: a header, then one line for each result in order, all as wide as the header. |
| CsvExport.ExportIsDetermined | controller/workitem.go:585-739 | With settled types two exports of the same results are equal, also what a failing one has sent, whatever order maps were visited in. |
| CsvCells.TypeIsFirst | controller/workitem.go:589-595 | A work item is exported with the first type that has its type's ID. |
| CsvCells.ParentIsFirst | controller/workitem.go:677-700 | The parent's number is that of the first entry for the work item; without one the cell is empty. |
| CsvCells.ChildrenAreNumbered | controller/workitem.go:701-720 | The children's numbers are those of exactly the links that lead from the work item. |
| CsvCells.JoinIs | controller/workitem.go:722 | The numbers are joined one to a line. |
| CsvCells.RowOkIff | controller/workitem.go:655-739 | A row can be made exactly when its number and type are known and the first parent and all children have known numbers. |
| CsvCells.CellMeans | controller/workitem.go:673-737 | The first three columns hold the type's name, the parent's number and the sorted numbers of the children; any other holds the work item's value of the field if its type has the field, and is empty otherwise. |
| CsvCells.ColumnMeans | controller/workitem.go:589-619 | There is a column for each key of a type, and its label is the one the first type with the key has for it. |
| CsvCells.HeaderMeans | controller/workitem.go:637-653 | The header names the three fixed columns and gives each further key the label that belongs to it. |
| CsvCells.GoesThroughIff | controller/search.go:222-251 | An export without limit goes through exactly when each row can be made with the links and parents of its window. |
| CsvCells.WholeExportCells | controller/search.go:222-251 | Each cell of each line of an export without limit is the one the types, fields, parents and children of that result call for, under the label that belongs to its key. |
| CsvCells.LimitedExportCells | controller/search.go:204-221 | The same for an export with a limit, which has at most that many lines and a note exactly when there are more results. |
| CommentLog.ExecKeepsAgreement | comment/comment_repository.go:43-131 | Every request keeps table and log in agreement about every comment. |
| CommentLog.RunsAgree | comment/comment_repository.go:43-131 | After every run, replaying a comment's revisions gives exactly the stored parent, parent comment, body and markup, or its absence. |
| CommentLog.HistoriesAreWellFormed | comment/comment_revision_repository.go:37-69 | After every run a comment's revisions are one create, any number of updates and at most one delete, and the comment is stored exactly when the last of them is no delete. |
| CommentLog.UnbrokenIsWellFormed | comment/comment_revision.go:14-23 | A history that can be replayed has the form of a life, and its last revision tells whether the comment is alive. |
| CommentLog.LogOnlyGrows | comment/comment_revision_repository.go:63-65 | The log at any point of a run is a prefix of every later one. |
| CommentLog.EveryVersionIsKept | comment/comment_revision_repository.go:72-79 | From the final log one can read the content every comment had at any earlier point of the run. |
| CommentLog.OneRevisionPerSuccess | comment/comment_repository.go:57-130 | The log holds exactly one revision for each request that succeeded. |
| CommentLog.DeletedStaysDeleted | comment/comment_repository.go:112-131 | A deleted comment is absent from every later state. |
| CommentLog.CreateEffect | comment/comment_repository.go:43-66 | A created comment has the given parent, parent comment, creator, body and markup, plain text if no markup is given; the revision names its kind and author; nothing else changes. |
| CommentLog.SaveEffect | comment/comment_repository.go:69-109 | A saved comment has the given fields, plain text if no markup is given; the revision names its kind and author; nothing else changes. |
| CommentLog.DeleteEffect | comment/comment_repository.go:112-131 | A deleted comment is gone; the revision names its kind and author and has neither body nor markup; nothing else changes. |
| CommentRepository.Repository.Create | comment/comment_repository.go:43-66 | Stores the comment under its new key with the default markup if none is given, and appends a create revision. |
| CommentRepository.Repository.Save | comment/comment_repository.go:69-109 | Overwrites a live comment and appends an update revision; a missing one is not found and nothing changes. |
| CommentRepository.Repository.Delete | comment/comment_repository.go:112-131 | Removes a live comment and appends a delete revision without body and markup; a missing one is not found. |
| CommentRepository.Repository.CreateRevision | comment/comment_revision_repository.go:37-69 | Appends one revision, which copies the comment, except for body and markup of a deleted one. |
| CommentRepository.Repository.ListRevisions | comment/comment_revision_repository.go:72-79 | Yields all revisions of one comment, oldest first. |
| CommentRepository.Repository.List | comment/comment_repository.go:134-200 | Yields the window of the comments of one parent, newest first, and always the true total, also when the window is empty; bad windows are refused. |
| CommentRepository.InOrder | comment/comment_repository.go:151 | Lists the given comments once each, newest first. |
| CommentRepository.NewestComeFirst | comment/comment_repository.go:137-151 | A listing has only comments of its parent, none twice, and later entries are not newer. |
| CommentRepository.WindowMeans | comment/comment_repository.go:139-150 | A window has the rows from its start on, as many as there are up to its limit, and none if the start is past the end. |
| CommentRepository.OrderIsUnique | comment/comment_repository.go:151 | When all creation times differ the order of a listing is determined. |
| CommentRepository.PagesOfOneListing | comment/comment_repository.go:134-151 | When all creation times differ, two adjoining pages show together what one larger page shows. |
| CommentRepository.CountAfterCreate | comment/comment_repository.go:203-210 | Creating a comment raises the count of its own parent by one and no other. |
| CommentRepository.CountAfterDelete | comment/comment_repository.go:203-210 | Deleting a comment lowers the count of its own parent by one and no other. |
| AccessRules.GetStringSlice | kubernetes/deployments_access.go:346-363 | Yields the texts of a JSON array in order, the empty text for items that are none, nothing for a missing array. |
| AccessRules.GetStringSet | kubernetes/deployments_access.go:365-382 | Yields the set of those texts. |
| AccessRules.RuleIndex.ProcessRule | kubernetes/deployments_access.go:310-344 | Exactly the resources an unrestricted rule names get the rule's verbs; all other entries stay; a restricted rule changes nothing. |
| AccessRules.RuleIndex.AddResource | kubernetes/deployments_access.go:325-343 | Exactly the keys of one resource, under each of the groups or the empty one, get the verbs. |
| AccessRules.IndexAll | kubernetes/deployments_access.go:291-305 | The index of a list of rules holds for each resource the verbs of the last rule that names it, and there is one exactly when all items are objects. |
| AccessRules.LookupAllRules | kubernetes/deployments_access.go:266-308 | A review becomes the index of its rules, or the error for what is missing from it. |
| AccessRules.RulesOfIff | kubernetes/deployments_access.go:272-303 | There are rules exactly when the answer has a status with an array of objects; otherwise the first thing that is missing is the error. |
| AccessRules.NamesIff | kubernetes/deployments_access.go:310-344 | A rule counts if it has no resource names and no URLs; it names each of its resources in each of its groups, or in the empty group if it has none; items that are no text count as empty. |
| AccessRules.PatternsMatch | kubernetes/deployments_access.go:65-76 | A request is covered by entries whose group and resource are each the requested one or the wildcard. |
| AccessRules.LastNamingIsLast | kubernetes/deployments_access.go:336-340 | The entry of a resource comes from the last unrestricted rule that names it. |
| AccessRules.IsAuthorized | kubernetes/deployments_access.go:61-80 | Requests are authorised exactly when each verb is found under the resource or one of its three wildcards. |
| AccessRules.IndexIsSound | kubernetes/deployments_access.go:61-87 | What the index grants, some unrestricted rule grants on the resource or on a wildcard for it. |
| AccessRules.GrantedIsHeld | kubernetes/deployments_access.go:61-87 | The index grants exactly what the last rules for the resource and its wildcards grant. |
| AccessRules.IndexAgreesIff | kubernetes/deployments_access.go:310-344 | Index and rules give the same answer to every question if and only if, whenever a rule overwrites another, each verb of the overwritten one is in the last rule for that resource or for one of its wildcards. |
| AccessRules.NamedOnceAgrees | kubernetes/deployments_access.go:336-340 | Index and rules give the same answer to every question when no two unrestricted rules name the same resource. |
| AccessRules.LaterRuleHides | kubernetes/deployments_access.go:336-340 | Of two rules for one resource the later hides the grants of the earlier. |
| AccessRules.GetPodsIsHidden | kubernetes/deployments_access.go:336-340 | A concrete list of two rules that grants getting pods while the index refuses it. |
| AccessChecks.AuthorizedIsPermitted | kubernetes/deployments_access.go:61-80 | Authorisation by an index depends only on the rules it was made from. |
| AccessChecks.CacheHoldsFirstSuccess | kubernetes/deployments_access.go:243-264 | However the cluster's answers change, the cache holds for each environment its first successful answer, and no errors. |
| AccessChecks.SteadyMeansUncached | kubernetes/deployments_access.go:243-264 | While the cluster's answers do not change, after any lookups a cached answer equals a direct one. |
| AccessChecks.Client.GetRulesForEnvironment | kubernetes/deployments_access.go:243-264 | Yields the kept or looked-up rules of an environment, keeps them if there are any, and reports unknown environments. |
| AccessChecks.Client.CheckAuthorizedInEnv | kubernetes/deployments_access.go:209-216 | The answer is that of the environment's rules, and the check changes no later answer. |
| AccessChecks.Client.CheckAuthorizedWithBuilds | kubernetes/deployments_access.go:186-195 | Builds in the user environment are needed first, then the given access. |
| AccessChecks.Client.CheckDeployable | kubernetes/deployments_access.go:223-235 | All environments that can be deployed to are permitted, or one of them gave the negative answer. |
| AccessChecks.Client.CanGetSpace | kubernetes/deployments_access.go:90-110 | Needs builds and build configurations of the user environment, then every environment that can be deployed to. |
| AccessChecks.Client.CanGetApplication | kubernetes/deployments_access.go:113-133 | Needs builds of the user environment, then every environment that can be deployed to. |
| AccessChecks.Client.CanGetEnvironments | kubernetes/deployments_access.go:223-235 | Needs the quotas of every environment that can be deployed to. |
| AccessChecks.DecidedAlike | kubernetes/deployments_access.go:99-109 | Whether a check over all environments succeeds does not depend on the order of the map. |
| AccessChecks.OrderShowsIff | kubernetes/deployments_access.go:99-109 | Which negative answer is given depends on the order exactly when two environments answer negatively in different ways. |
| AccessChecks.SpaceCoversTheRest | kubernetes/deployments_access.go:90-180 | Who may get a space may get its applications and every deployment in it with its statistics. |
| AccessChecks.WithBuildsIff | kubernetes/deployments_access.go:186-207 | Passing a check behind the builds takes listing builds in the user environment and the check itself. |
| AccessChecks.StatsNeed | kubernetes/deployments_access.go:170-174 | What it takes, verb by verb, to see the statistics of a deployment. |
| AccessChecks.DeploymentNeeds | kubernetes/deployments_access.go:135-141 | What it takes, verb by verb, to see a deployment. |
| AccessChecks.SpaceNeeds | kubernetes/deployments_access.go:90-133 | What it takes, verb by verb and environment by environment, to get a space or its applications. |
| AccessChecks.EnvironmentsNeed | kubernetes/deployments_access.go:218-240 | Getting the environments takes listing quotas in each that can be deployed to. |

## Left out

- Authorisation of users, JWT handling and `auth`: security checks and foreign cryptography.
- HTTP, goa contexts, `design`, configuration and the controllers that only pass requests on.
- SQL text and gorm: statements are modelled by their effect on rows. A guarded Save that updates no row is the version
  conflict the code reports; gorm, and what its Save does of its own accord in that case, is not part of this model.
- Dates, description and user-active flag of iterations: an update copies them.
- `parentPathResolver` and the counts of work items in responses: they only format.
- The two transactions of an iteration update (`controller/iteration.go:210`, `controller/iteration.go:242`) and of the creation of a child (`controller/iteration.go:73`, `controller/iteration.go:130`): each request is one step.
- Deletion of spaces, and areas (`controller/area.go`): the same tree without re-parent or delete.
- Versions, revisions and validation of the work items a delete moves: the model records which iteration they are in.
- Commit's own error is discarded at `application/transaction.go:56`, so a nil report does not say that the commit took effect.
- Isolation levels other than READ COMMITTED; the lock a row write holds until commit is modelled, deadlocks between several rows do not arise.
- Annotations of expressions (`criteria/expression.go:23-32`): a map that nothing else here reads.
- Criteria.Compose: stands for the six binary constructors, which differ only in the kind of node they make.
- The text of a paging URL around its two numbers, additional query parameters, `parseInts` and `parseLimit`.
- Text encoding of CSV and the conversion of field values to text (`controller/workitem.go:800-925`): the value of each field is given as text, so errors and the ID cache of that conversion are not modelled.
- Stable results: the export theorems are about a query that keeps giving the same answers while the export runs.
- `enrichWorkItemList`, ancestor ordering and `WorkItemPtrSlice.Less`: the first two need a package that is not part of this model, and the order of the last is not transitive.
- Criteria building in `controller/workitems.go` and `controller/planner_backlog.go`.
- Attributes.ConvertAttributes: a failing type assertion and a returned error are both a failure without fields; creating the codebase row is not modelled.
- CommentRepository.Repository.Delete: an error of the delete statement itself is ignored by the code and does not occur in the model.
- CommentRepository.Repository.ListRevisions: revisions are listed as they were appended, which is the order by time while the clock does not run backwards.
- CanGetDeployment, CanScaleDeployment, CanDeleteDeployment and the two statistics checks: CheckAuthorizedWithBuilds with other lists of verbs.
- Che, Kubernetes, Hawkular and tenant clients, websockets, rendering, logging and metrics.
