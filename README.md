# Kanban server actions: ordered boards and tasks

This project models the server actions of a Trello-like Kanban application built with
Next.js and Prisma. A user owns **boards**. A board holds **tasks**. Boards and tasks both
carry an integer `order`, and the actions try to keep it numbered `1..n`:

- a board or task is created one past the largest order;
- a delete closes the gap by decrementing every order above the deleted one;
- a list is renumbered `1..n` by its position;
- a task is moved within its board by splicing its board's list;
- a task is moved to another board by deleting it, closing the gap, creating it again on
  the destination, splicing it into the destination's list and renumbering that list.

A third, separate piece is the sign-in upsert of users. It is keyed by the pair
(email, provider).

## Structure

- `types.dfy` (`Types`) holds the rows as datatypes: `Board`, `Task`, `User` and
  `CreateUserDto`. It also holds the abstract error tags and `ActionResult`.
- `js_array.dfy` (`JsArray`) holds `Array.prototype.findIndex` with its `-1` for "not
  found". It also holds the start-index normalisation of `Array.prototype.splice`, and the
  one-element remove, insert and move that the actions build from `splice`.
- `ordering.dfy` (`Ordering`) holds the order arithmetic on plain integer sequences:
  - `Dense`: the orders are exactly `1..n`;
  - `NextOrder`: max + 1, or 1 when there are none;
  - `CloseGap`: decrement every order above `p`;
  - the pigeonhole argument behind density.
- `board_table.dfy` (`BoardTable`) and `task_table.dfy` (`TaskTable`) hold the queries and
  the `update`/`updateMany` statements as functions on the tables.
- `database.dfy` (`Database.Store`) is the class holding both tables.
  - Each table is a sequence in storage order.
  - An updated row keeps its place and a created row is appended.
  - `findMany` without `orderBy` returns rows in this order, and the model takes it
    as it comes, with no assumption that rows are sorted by `order`.
- `board_actions.dfy` (`BoardActions`) holds `getAll`, `create`, `deleteById` and
  `update`. The writes are methods on the store.
- `task_moves.dfy` (`TaskMoves`) states what each task action does to the Task table as a
  function of the table before it, and proves the properties of it.
- `task_actions.dfy` (`TaskActions`) holds the task actions as methods on the store. Their
  loops are the `reorder` loop, the `updateMany` decrement and the `Promise.all` of
  `update`s. Each method is proved equal to a function of the state before it: the
  `TaskMoves` functions for `reorder`, `deleteById` and `updateOrder`, `UpdateRows` for the
  loops, and an explicit new table for `create` and `updateById`.
- `user_actions.dfy` (`UserActions`) holds `createOrUpdate`: the class `UserTable` and the
  function `Upsert` that specifies it.

### How the actions are modelled

- **Sessions and ids.** The session is an `Option<Id>`: the signed-in user's id, or none.
  The cuid check of the zod schemas is a parameter `isCuid`. The id the database generates
  for a created row is a parameter `newId`, and the caller guarantees it is fresh.
- **Order of checks.** Each action checks, in the code's order, for the session
  (`UserNotFound`), then the schema (`Invalid`), then the lookups (`BoardNotFound`,
  `TaskNotFound`). It writes only after all checks pass.
- **All or nothing.** Each action runs in one transaction, so every failure leaves both
  tables as they were. The contracts state this.

### Behaviours of the code that the model keeps

- **Board create.** The board `create` takes one past the largest order over the boards of
  *every* user, not only the caller's (`src/actions/board.action.ts:55-59`).
- **Board delete.** The board `deleteById` decrements the boards of every user above the
  deleted one. So board orders are dense over the whole table, and both actions keep them
  so (`BoardActions.CreateKeepsDense`, `BoardActions.DeleteKeepsDense`).
- **getAll without a session.** `getAll` filters on `userId: session?.user?.id`. Without a
  session that is `undefined`, which Prisma ignores, so every board is returned.
- **Task create.** The task `create` takes one past the largest order among the *caller's
  own* tasks on the board. When every task on the board is the caller's, this keeps the
  board dense (`TaskActions.CreateKeepsDense`). When another user's task holds the board's
  largest order, the new task can get an order that is already taken
  (`TaskActions.CreateCanCollide`).
- **Moving another user's task.** `updateOrder` looks up the board holding the task without
  filtering by user (`src/actions/task.action.ts:215-226`). A caller can therefore move
  *another user's* task onto their own board; the task keeps that other user's `userId`
  (`TaskMoves.CrossBoardMoved`). After such a move, the board holds a task the caller's
  `create` does not count, and the orders can collide.
- **The destination index.** In a same-board move, the destination index is that of the
  task whose order equals the requested one, or `-1` when there is none. `splice(-1, 0, x)`
  inserts before the last element (`JsArray.SpliceStart`). In a cross-board move, the
  splice index is `order - 1`, so `order = 0` also means "before the last", and a large
  order means "at the end".
- **Density of a moved board.** The board the task lands on is numbered `1..n` after any
  move, whatever its orders were before. The source board of a cross-board move is only
  decremented, not renumbered: when it was numbered `1..n`, it is numbered `1..n-1`
  afterwards (`TaskMoves.CrossBoardSource`).
- **Renumbering by storage order.** `reorder` and the same-board write-back number a
  board's tasks by their place in the fetched list, which is storage order, not by their
  old orders (`TaskMoves.RenumberSpec`, `TaskMoves.SameBoardDense`). So on a board whose
  storage order differs from its order column, a task delete or a move of a task onto its
  own order can swap the relative order of two other tasks. Tasks a (order 2), x (order 1)
  and c (order 3), stored in that order: deleting c gives a order 1 and x order 2. Unlike
  boards (`BoardActions.DeleteKeepsRelativeOrder`), tasks have no relative-order law.

## Model

| member | source | states |
|---|---|---|
| JsArray.FindIndex | src/actions/task.action.ts:238-244 | `findIndex`: the first index whose element satisfies the predicate; `-1` exactly when no element does |
| JsArray.SpliceStart | src/actions/task.action.ts:246-247 | the start index `splice` uses: a start in range is kept; a negative start counts from the end, and one below `-len` becomes 0; a start past the end becomes `len` |
| JsArray.RemoveAt | src/actions/task.action.ts:246 | `splice(k, 1)`: one element fewer, the elements after `k` shift down by one, and the removed element is the only one lost from the multiset |
| JsArray.InsertAt | src/actions/task.action.ts:293 | `splice(start, 0, x)`: `x` sits at the normalised start, removing it gives the array back, and the multiset gains exactly `x` |
| JsArray.Move | src/actions/task.action.ts:246-247 | remove then insert: a permutation with the moved element at the normalised destination of the shortened array, and the other elements in their old relative order |
| JsArray.MoveInPlace | src/actions/task.action.ts:239-247 | moving an element to its own index leaves the array as it was |
| JsArray.MoveLandsAt | src/actions/task.action.ts:246-247 | with an in-range destination, the element lands exactly there; the elements before it are the first ones left after the removal, and those after it are the rest |
| Ordering.NextOrder | src/actions/board.action.ts:55-64 | `lastRecord ? lastRecord.order + 1 : 1`: 1 on an empty table, otherwise one more than an existing order and greater than every order |
| Ordering.MaxOrder | src/actions/board.action.ts:55-59 | the `orderBy: desc` first record: an element of the orders that no order exceeds |
| Ordering.NextOrderDense | src/actions/board.action.ts:55-64 | on orders numbered 1..n, the next order is n + 1, and appending it gives 1..n+1 |
| Ordering.DenseCoversAll | src/actions/task.action.ts:44-51 | orders that are distinct and in 1..n take every value of 1..n |
| Ordering.CloseGap | src/actions/board.action.ts:105-116 | the `decrement: 1` of every order `gt p`: exactly the orders above `p` go down by one |
| Ordering.CloseGapDense | src/actions/board.action.ts:103-116 | removing the element with order `p` from orders 1..n and closing the gap gives orders 1..n-1 |
| Ordering.CloseGapKeepsRelativeOrder | src/actions/board.action.ts:105-116 | when `p` is not among the orders, closing the gap keeps every comparison between two orders |
| BoardTable.BoardsOf | src/actions/board.action.ts:30-32 | `where: { userId }`: exactly the boards with that user id |
| BoardTable.BoardsOfMultiset | src/actions/board.action.ts:30-32 | the filter keeps each of the user's boards exactly as often as the table holds it, and no other board |
| BoardTable.HasBoardId | src/actions/task.action.ts:238 | the `findIndex` predicate on the fetched boards: a board with the given id |
| BoardTable.OwnedBoard | src/actions/board.action.ts:94-97 | the `findFirst` filter: a board with the given id that belongs to the caller; it decides BoardNotFound |
| BoardTable.DecrementBoards | src/actions/board.action.ts:105-116 | every board with order above `p`, of any user, loses one; every other board is unchanged |
| BoardTable.InsertByOrder | src/actions/board.action.ts:33-35 | inserting into a list sorted by ascending order keeps it sorted and adds exactly that board |
| BoardTable.SortByOrder | src/actions/board.action.ts:33-35 | `orderBy: { order: "asc" }`: a permutation of the boards sorted by ascending order |
| BoardActions.WithTasks | src/actions/board.action.ts:27-29 | `include: { tasks: true }`: the same boards, each with exactly the tasks on it |
| BoardActions.GetAll | src/actions/board.action.ts:23-37 | the caller's boards, as a permutation, sorted by ascending order, each with its tasks; each of the caller's boards appears as often as in the table and no other board appears; without a session, all boards |
| BoardActions.ValidTitle | src/actions/board.action.ts:10-21 | the zod schemas' `title`: between 1 and 30 characters |
| BoardActions.Create | src/actions/board.action.ts:39-76 | UserNotFound without a session, Invalid for a title outside 1..30, nothing written on failure; otherwise exactly one board with the caller's id and the title is appended, at one past the largest order of any user |
| BoardActions.CreateKeepsDense | src/actions/board.action.ts:55-67 | when all boards are numbered 1..N, a created board gets N + 1 and they are numbered 1..N+1 |
| BoardActions.DeleteById | src/actions/board.action.ts:78-125 | UserNotFound, then Invalid, then BoardNotFound unless the board is the caller's, with both tables unchanged on failure; otherwise that board is removed and the boards above it move down by one |
| BoardActions.DecrementAbove | src/actions/board.action.ts:105-116 | the `updateMany` decrement, row by row: the Board table becomes `DecrementBoards` of itself and the Task table is unchanged |
| BoardActions.DeleteKeepsDense | src/actions/board.action.ts:103-116 | when all boards are numbered 1..N, after a delete they are numbered 1..N-1 |
| BoardActions.DeleteKeepsRelativeOrder | src/actions/board.action.ts:103-116 | when all boards are numbered 1..N, after a delete any two surviving boards compare by order as they did before |
| BoardActions.Update | src/actions/board.action.ts:127-169 | UserNotFound, then Invalid for a bad id or a title outside 1..30, then BoardNotFound unless the board is the caller's; otherwise only that board's title changes, its order and all tasks stay |
| TaskTable.TasksOn | src/actions/task.action.ts:38-42 | `findMany({ where: { boardId } })`: exactly the tasks on the board, in storage order |
| TaskTable.OwnTasksOn | src/actions/task.action.ts:83-86 | `where: { boardId, userId }`: exactly the tasks on the board that belong to the user |
| TaskTable.TasksOnMultiset | src/actions/task.action.ts:38-42 | the board's list holds each task of the board exactly as often as the table does, and no other task |
| TaskTable.OwnTasksOnMultiset | src/actions/task.action.ts:83-86 | the caller's list holds each of the caller's tasks on the board exactly as often as the table does, and no other task |
| TaskTable.IndexOfId | src/actions/task.action.ts:238-241 | the `findIndex` by id: an index into the list, or -1 when no row has the id |
| TaskTable.HasOrder | src/actions/task.action.ts:242-244 | the `findIndex` predicate of the same-board branch: a task whose order is the requested order |
| TaskTable.HasId | src/actions/task.action.ts:239-241 | the `findIndex`/`find` predicate on a board's tasks: a task with the given id |
| TaskTable.OwnedTask | src/actions/task.action.ts:123-127 | the `findFirst` filter: a task with the given id that belongs to the caller; it decides TaskNotFound |
| TaskTable.OwnTasksOnAll | src/actions/task.action.ts:79-87 | when every task on the board belongs to the user, the user's tasks on it are all its tasks |
| TaskTable.FindIndexById | src/actions/task.action.ts:239-241 | with unique ids, looking up a task's id finds that task's index |
| TaskTable.TasksOnUnique | src/actions/task.action.ts:38-42 | a board's tasks have unique ids |
| TaskTable.TasksOnRemoveAt | src/actions/task.action.ts:266-270 | deleting a row removes it from its board's list, at the index it had there, and nothing else |
| TaskTable.TasksOnRemoveAtOther | src/actions/task.action.ts:266-270 | deleting a row leaves the lists of the other boards as they were |
| TaskTable.Edit | src/actions/task.action.ts:45-50 | one row after an `update`/`updateMany`: only `order` or `description` changes, never the id, board or owner |
| TaskTable.UpdateRows | src/actions/task.action.ts:272-284 | an edit applied to each row in place: same length, and each row is the edit of the row before |
| TaskTable.TasksOnUpdate | src/actions/task.action.ts:272-284 | since edits keep each row's board, filtering by board and editing commute |
| TaskTable.DecrementOtherBoard | src/actions/task.action.ts:272-274 | the decrement `where: { boardId }` leaves the rows of every other board as they were |
| TaskTable.OrdersDecrement | src/actions/task.action.ts:272-284 | on the rows of the decremented board, the orders are closed over the gap above `p` |
| TaskTable.RankByStep | src/actions/task.action.ts:44-51 | one more `update` of the loop extends the ranking by the next entry of the list |
| TaskTable.RankByNone | src/actions/task.action.ts:44 | before the first `update`, nothing has changed |
| TaskTable.RankByOutside | src/actions/task.action.ts:295-308 | rows whose ids are not in the list keep their order |
| TaskTable.RankBySelf | src/actions/task.action.ts:44-51 | ranking a list by itself gives its k-th row order k + 1 |
| TaskTable.RankByDense | src/actions/task.action.ts:249-259 | ranking rows by any list of the same length holding all their ids numbers them exactly 1..n |
| TaskTable.IndexOfIdIsFindIndex | src/actions/task.action.ts:43-51 | the index the renumbering reads a row's new order from is the `findIndex` of the row's id in the fetched list |
| TaskTable.RankByAt | src/actions/task.action.ts:249-259 | with unique ids in the written-back list, the row whose id sits at index k gets order k + 1 |
| TaskMoves.RankByKeepsOtherBoards | src/actions/task.action.ts:249-259 | ranking by a list of one board's tasks changes no row of another board |
| TaskMoves.Renumber | src/actions/task.action.ts:37-52 | definition of `reorder` on the table: the board's tasks as fetched, each given order one past its index |
| TaskMoves.RenumberSpec | src/actions/task.action.ts:37-52 | `reorder`: the k-th task of the board as fetched gets order k + 1, the count is kept, and the board is numbered 1..n |
| TaskMoves.RenumberKeepsOthers | src/actions/task.action.ts:37-52 | `reorder` keeps ids unique, changes only orders on that board, and leaves every other board's tasks as they were |
| TaskMoves.DeleteSpec | src/actions/task.action.ts:132-136 | after the delete and `reorder`, the task is gone, its board has one task fewer and is numbered 1..n-1, and other boards are unchanged |
| TaskMoves.SameBoardList | src/actions/task.action.ts:239-247 | the list written back is a permutation of the board's tasks; the task is at the spliced destination and the others keep their relative order |
| TaskMoves.SameBoardListUnique | src/actions/task.action.ts:246-247 | that list has unique ids |
| TaskMoves.SameBoardDense | src/actions/task.action.ts:237-259 | after a same-board move, the board has as many tasks as before, numbered exactly 1..n |
| TaskMoves.SameBoardMoved | src/actions/task.action.ts:242-259 | the moved task's order becomes one past the splice destination, computed from the `findIndex` of the requested order |
| TaskMoves.SameBoardKeepsOthers | src/actions/task.action.ts:249-259 | a same-board move keeps ids unique, changes only orders, and leaves other boards as they were |
| TaskMoves.PermutationCovers | src/actions/task.action.ts:246-247 | a permutation of a list holds every id of that list |
| TaskMoves.SameBoardAfter | src/actions/task.action.ts:237-259 | definition of the same-board branch on the table: splice the fetched list and write its indices back as orders |
| TaskMoves.RemoveAtUnique | src/actions/task.action.ts:266-270 | after the delete, ids are unique and the deleted id is gone |
| TaskMoves.CrossBoardStaged | src/actions/task.action.ts:266-291 | definition of the delete, the decrement of the source's orders above the task, and the create of a copy on the destination |
| TaskMoves.CrossBoardList | src/actions/task.action.ts:293 | definition of the destination list: the moved copy spliced in at `order - 1` |
| TaskMoves.CrossBoardAfter | src/actions/task.action.ts:260-308 | definition of the cross-board branch on the table: the staged table with the spliced list's indices written back as orders |
| TaskMoves.CrossBoardStagedUnique | src/actions/task.action.ts:266-291 | delete, decrement and create with the same id keep ids unique |
| TaskMoves.CrossBoardStagedDest | src/actions/task.action.ts:286-291 | after the create, the destination holds its old tasks followed by the moved task |
| TaskMoves.CrossBoardStagedSource | src/actions/task.action.ts:266-284 | after the delete and decrement, the source has lost the task at its index, and the orders above it are decremented |
| TaskMoves.CrossBoardStagedOther | src/actions/task.action.ts:266-291 | the delete, decrement and create leave every other board as it was |
| TaskMoves.CrossBoardDestUnique | src/actions/task.action.ts:286-291 | the destination's tasks and the moved task have distinct ids |
| TaskMoves.CrossBoardListUnique | src/actions/task.action.ts:293 | the spliced destination list has unique ids, for any splice index |
| TaskMoves.CrossBoardListStaged | src/actions/task.action.ts:293-308 | the spliced list is a permutation of the destination's rows after the create |
| TaskMoves.CrossBoardKeepsOthers | src/actions/task.action.ts:260-308 | a cross-board move keeps the number of rows and unique ids, and leaves every board other than source and destination as it was |
| TaskMoves.CrossBoardSource | src/actions/task.action.ts:266-284 | the source loses exactly that task and, when it was numbered 1..n, is numbered 1..n-1 |
| TaskMoves.CrossBoardSourceRows | src/actions/task.action.ts:266-284 | after the whole move, the source's tasks are its tasks before, without the moved one, with those above its order decremented and the rest unchanged |
| TaskMoves.CrossBoardDest | src/actions/task.action.ts:286-308 | the destination gains one task and is numbered 1..m+1, whatever its orders were |
| TaskMoves.CrossBoardMoved | src/actions/task.action.ts:286-308 | the moved task keeps its id, description and owner, gets the destination's id, and its order is one past `splice`'s reading of `order - 1` |
| TaskMoves.FetchedTaskIsRow | src/actions/task.action.ts:261-264 | the task `find` returns from the task's board's list is the table row with that id |
| TaskMoves.FindTask | src/actions/task.action.ts:215-228 | a board holds the task, so the task's row exists, lies on that board and appears in its list |
| TaskMoves.UpdateOrderSpec | src/actions/task.action.ts:237-308 | in both branches: no task lost or duplicated, ids unique, the task on the destination, the destination numbered 1..n, other boards unchanged; for a cross-board move, the counts move by one and a dense source stays dense |
| TaskMoves.UpdateOrderAfter | src/actions/task.action.ts:237-308 | definition of `updateOrder` on the table: the same-board branch when the task's board is the destination, the cross-board branch otherwise |
| TaskActions.RenumberAs | src/actions/task.action.ts:249-259 | the loop of `update`s: the list's k-th task gets order k + 1, no other row changes, and the Board table is untouched |
| TaskActions.Reorder | src/actions/task.action.ts:37-52 | the `reorder` helper: the Task table becomes `Renumber` of itself |
| TaskActions.DecrementTasks | src/actions/task.action.ts:272-284 | the `updateMany` decrement, row by row: exactly the tasks of the board with order above `p` lose one |
| TaskActions.ValidDescription | src/actions/task.action.ts:17-29 | the zod schemas' `description`: between 1 and 100 characters |
| TaskActions.Create | src/actions/task.action.ts:54-105 | UserNotFound, then Invalid for a description outside 1..100 or a bad board id, then BoardNotFound unless the board is the caller's, with nothing written on failure; otherwise one task is appended, at one past the caller's largest order on the board |
| TaskActions.CreateKeepsDense | src/actions/task.action.ts:79-96 | when every task on the board is the caller's and it is numbered 1..n, the new task gets n + 1 and the board is numbered 1..n+1 |
| TaskActions.CreateCanCollide | src/actions/task.action.ts:79-96 | with another user's task at the board's largest order, a dense board and an order for the new task that equals that task's order |
| TaskActions.DeleteById | src/actions/task.action.ts:107-145 | UserNotFound, then Invalid, then TaskNotFound unless the task is the caller's, with nothing written on failure; otherwise the task is removed and its board renumbered |
| TaskActions.UpdateById | src/actions/task.action.ts:147-186 | UserNotFound, then Invalid for a bad id or a description outside 1..100, then TaskNotFound unless the task is the caller's; otherwise only that task's description changes |
| TaskActions.FindOwnBoard | src/actions/task.action.ts:230-238 | the caller's board is found among the caller's boards, with its tasks attached |
| TaskActions.UpdateOrder | src/actions/task.action.ts:188-318 | UserNotFound, then Invalid for a bad id or a negative order, then BoardNotFound unless the destination is the caller's, then TaskNotFound when no board holds the task, with nothing written on failure; otherwise the Task table becomes `UpdateOrderAfter` of itself |
| TaskActions.HoldsTask | src/actions/task.action.ts:215-226 | the `findFirst` lookup of the task's board: a board that some row with the task id lies on, of any user |
| TaskActions.MoveWithinBoard | src/actions/task.action.ts:237-259 | the same-board branch: the board's fetched list is spliced and written back |
| TaskActions.MoveAcrossBoards | src/actions/task.action.ts:260-308 | the cross-board branch: delete, decrement, create, splice at `order - 1`, write back |
| TaskActions.StageMove | src/actions/task.action.ts:266-291 | the delete, decrement and create statements: the row goes, its board closes the gap, and a copy with the destination board is appended |
| UserActions.HasLogin | src/actions/user.action.ts:9-14 | the `findFirst` filter: a user with the DTO's email and provider |
| UserActions.Assign | src/actions/user.action.ts:17 | `Object.assign(user, data)`: the id stays and every other field is the DTO's |
| UserActions.Upsert | src/actions/user.action.ts:7-32 | the returned user carries the DTO's fields; with a match on (email, provider), the first match keeps its id and is overwritten in place; otherwise a user with the new id is appended |
| UserActions.UpsertTouchesOneRow | src/actions/user.action.ts:16-31 | at most one row is added, the returned user is in the table, and only a row with the DTO's (email, provider) changes |
| UserActions.UpsertKeepsIdsUnique | src/actions/user.action.ts:29-31 | with a fresh id for a created row, user ids stay unique |
| UserActions.UpsertKeepsLoginsUnique | src/actions/user.action.ts:7-32 | if (email, provider) was unique before the upsert, it is unique after it |
| UserActions.OtherProviderIsNewUser | src/actions/user.action.ts:9-14 | the same email under another provider does not match: every existing user is kept and a new one is appended |
| UserActions.UpsertIdempotent | src/actions/user.action.ts:7-32 | repeating the upsert with the same DTO, after either branch, changes nothing and returns the same user |
| UserActions.UserTable.CreateOrUpdate | src/actions/user.action.ts:7-32 | the method's new table and returned user are exactly those of `Upsert` |

## Left out

- The cuid format of the ids is a parameter `isCuid`, not a regular expression. The ids the database generates are a parameter `newId`, assumed fresh.
- String lengths in the zod bounds count Dafny characters, not JavaScript's UTF-16 code units.
- `order` is an integer in the model. `z.number().nonnegative()` also accepts fractions, which are not modelled.
- `revalidatePath`, `getTranslations` and the message texts are left out. Each error is an abstract tag, and `tryCatch`'s conversion to `{ success: false, message }` is the `Failure` result.
- `tryCatch` also catches unexpected exceptions such as database errors. The model has none of them.
- The session comes from `auth()`, the NextAuth configuration, which is not part of this model. It is a parameter holding the user's id. The `logout` action is I/O only.
- Prisma unique-constraint errors and the update of a missing row never arise in the model, so they are not modelled.
- Concurrent requests and transaction isolation are left out: each action is one atomic step.
- The `Promise.all` of `update`s runs as a sequential loop. The updates touch distinct rows, so the order does not matter.
- The same-board `update` is `where: x` with the whole fetched row; the model matches it by id. Nothing has changed that row before its own update, so the two agree.
- BoardActions.DeleteById: what happens to the tasks of a deleted board depends on the Prisma schema's cascade rule, which is not part of this model. The contract says nothing about the Task table on success.
- `board`, `taskBoard` and `boards` are three separate fetches in `updateOrder`. The model assumes they list a board's tasks in the same storage order.
- The `if (!removed)` guard at `src/actions/task.action.ts:264` cannot fire in the model. The board holding the task is found by that task, so `find` always returns it. The guard's branch is therefore not modelled.
- The React components, the optimistic-update provider, routing, localisation and theming are left out. They hold no ordering logic.
