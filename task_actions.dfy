/** The server actions on tasks: create, deleteById, updateById and updateOrder, with the
    `reorder` helper they share. Each runs inside one transaction over the store. */
module TaskActions {
  import opened Types
  import opened JsArray
  import opened BoardTable
  import opened TaskTable
  import opened TaskMoves
  import Ordering
  import opened Database
  import opened BoardActions

  /** `z.string().min(1).max(100)`, the description rule of both schemas. */
  predicate ValidDescription(description: string) {
    1 <= |description| <= 100
  }

  /** `where: { tasks: { some: { id } } }`: a board that some row of `ts` with that id lies on. */
  function HoldsTask(ts: seq<Task>, taskId: Id): Board -> bool {
    (b: Board) => exists t :: t in ts && t.id == taskId && t.boardId == b.id
  }

  /** One `update` per entry of `list`, in list order: the entry at index k gets order k + 1. */
  method RenumberAs(db: Store, list: seq<Task>)
    requires db.Valid() && UniqueIds(list)
    modifies db
    ensures db.Valid() && db.boards == old(db.boards)
    ensures db.tasks == UpdateRows(old(db.tasks), RankBy(list, |list|))
  {
    RankByNone(db.tasks, list);
    for k := 0 to |list|
      invariant db.Valid() && db.boards == old(db.boards)
      invariant db.tasks == UpdateRows(old(db.tasks), RankBy(list, k))
    {
      RankByStep(old(db.tasks), list, k);
      UpdateRowsUnique(db.tasks, SetOrder(list[k].id, k + 1));
      db.tasks := UpdateRows(db.tasks, SetOrder(list[k].id, k + 1));
    }
  }

  /** reorder: the board's tasks, fetched in storage order, are numbered 1..n. */
  method Reorder(db: Store, boardId: Id)
    requires db.Valid()
    modifies db
    ensures db.Valid() && db.boards == old(db.boards)
    ensures db.tasks == Renumber(old(db.tasks), boardId)
  {
    var tasks := TasksOn(db.tasks, boardId);
    TasksOnUnique(db.tasks, boardId);
    RenumberAs(db, tasks);
  }

  /** The `updateMany` decrement of one board, row by row over the Task table. */
  method DecrementTasks(db: Store, boardId: Id, above: int)
    requires db.Valid()
    modifies db
    ensures db.Valid() && db.boards == old(db.boards)
    ensures db.tasks == UpdateRows(old(db.tasks), Decrement(boardId, above))
  {
    var i := 0;
    while i < |db.tasks|
      invariant |db.tasks| == |old(db.tasks)| && i <= |db.tasks|
      invariant forall j :: 0 <= j < i ==> db.tasks[j] == Edit(Decrement(boardId, above), old(db.tasks)[j])
      invariant forall j :: i <= j < |db.tasks| ==> db.tasks[j] == old(db.tasks)[j]
      invariant db.boards == old(db.boards)
    {
      var t := db.tasks[i];
      if t.boardId == boardId && t.order > above {
        db.tasks := db.tasks[i := t.(order := t.order - 1)];
      }
      i := i + 1;
    }
    assert db.tasks == UpdateRows(old(db.tasks), Decrement(boardId, above));
    UpdateRowsUnique(old(db.tasks), Decrement(boardId, above));
  }

  /** create: a task appended to the caller's board, one past the largest order among the
      caller's own tasks on that board, or 1 when there are none. */
  method Create(db: Store, session: Option<Id>, description: string, boardId: Id, newId: Id,
                isCuid: Id -> bool) returns (r: ActionResult)
    requires db.Valid()
    requires forall t :: t in db.tasks ==> t.id != newId
    modifies db
    ensures db.Valid() && db.boards == old(db.boards)
    ensures session.None? ==> r == Failure(UserNotFound)
    ensures session.Some? && !(ValidDescription(description) && isCuid(boardId)) ==> r == Failure(Invalid)
    ensures session.Some? && ValidDescription(description) && isCuid(boardId) ==>
      var k := FindIndex(old(db.boards), OwnedBoard(boardId, session.value));
      && (k < 0 ==> r == Failure(BoardNotFound))
      && (k >= 0 ==> r == Success && db.tasks == old(db.tasks) + [Task(newId, boardId, session.value, description,
            Ordering.NextOrder(Orders(OwnTasksOn(old(db.tasks), boardId, session.value))))])
    ensures r.Failure? ==> db.tasks == old(db.tasks)
  {
    if session.None? {
      return Failure(UserNotFound);
    }
    if !(ValidDescription(description) && isCuid(boardId)) {
      return Failure(Invalid);
    }
    var k := FindIndex(db.boards, OwnedBoard(boardId, session.value));
    if k < 0 {
      return Failure(BoardNotFound);
    }
    var orders := Orders(OwnTasksOn(db.tasks, boardId, session.value));
    var order := if orders == [] then 1 else Ordering.MaxOrder(orders) + 1;
    AppendUnique(db.tasks, Task(newId, boardId, session.value, description, order));
    db.tasks := db.tasks + [Task(newId, boardId, session.value, description, order)];
    r := Success;
  }

  /** When every task on the board is the caller's and the board is numbered 1..n, create
      appends exactly n + 1 and the board stays numbered 1..n+1. */
  lemma CreateKeepsDense(ts: seq<Task>, t: Task)
    requires forall u :: u in ts && u.boardId == t.boardId ==> u.userId == t.userId
    requires Ordering.Dense(Orders(TasksOn(ts, t.boardId)))
    requires t.order == Ordering.NextOrder(Orders(OwnTasksOn(ts, t.boardId, t.userId)))
    ensures t.order == |TasksOn(ts, t.boardId)| + 1
    ensures Ordering.Dense(Orders(TasksOn(ts + [t], t.boardId)))
  {
    OwnTasksOnAll(ts, t.boardId, t.userId);
    TasksOnConcat(ts, [t], t.boardId);
    assert TasksOn([t], t.boardId) == [t];
    AppendNextDense(TasksOn(ts, t.boardId), t);
  }

  /** When another user's task holds the largest order of a board numbered 1..n, create can
      hand out an order that is already taken: here the caller's only task has order 1 and
      another user's task has order 2, so the new task gets 2 as well. */
  lemma CreateCanCollide()
    ensures var ts := [Task("t1", "b", "me", "mine", 1), Task("t2", "b", "other", "theirs", 2)];
      && Ordering.Dense(Orders(TasksOn(ts, "b")))
      && Ordering.NextOrder(Orders(OwnTasksOn(ts, "b", "me"))) == ts[1].order
  {
    var ts := [Task("t1", "b", "me", "mine", 1), Task("t2", "b", "other", "theirs", 2)];
    assert ts[1..][1..] == [];
    assert TasksOn(ts, "b") == ts;
    assert OwnTasksOn(ts, "b", "me") == [ts[0]];
    assert Orders([ts[0]]) == [1];
  }

  /** Appending a row numbered one past the maximum to a list numbered 1..n. */
  lemma AppendNextDense(on: seq<Task>, t: Task)
    requires Ordering.Dense(Orders(on))
    requires t.order == Ordering.NextOrder(Orders(on))
    ensures t.order == |on| + 1
    ensures Ordering.Dense(Orders(on + [t]))
  {
    Ordering.NextOrderDense(Orders(on));
    assert Orders(on + [t]) == Orders(on) + [t.order];
  }

  /** deleteById: the caller's task is removed and its board renumbered 1..n-1. */
  method DeleteById(db: Store, session: Option<Id>, id: Id, isCuid: Id -> bool) returns (r: ActionResult)
    requires db.Valid()
    modifies db
    ensures db.Valid() && db.boards == old(db.boards)
    ensures session.None? ==> r == Failure(UserNotFound)
    ensures session.Some? && !isCuid(id) ==> r == Failure(Invalid)
    ensures session.Some? && isCuid(id) ==>
      var k := FindIndex(old(db.tasks), OwnedTask(id, session.value));
      && (k < 0 ==> r == Failure(TaskNotFound))
      && (k >= 0 ==> r == Success && db.tasks == Renumber(RemoveAt(old(db.tasks), k), old(db.tasks)[k].boardId))
    ensures r.Failure? ==> db.tasks == old(db.tasks)
  {
    if session.None? {
      return Failure(UserNotFound);
    }
    if !isCuid(id) {
      return Failure(Invalid);
    }
    var k := FindIndex(db.tasks, OwnedTask(id, session.value));
    if k < 0 {
      return Failure(TaskNotFound);
    }
    var task := db.tasks[k];
    DeleteSpec(db.tasks, k);
    db.tasks := RemoveAt(db.tasks, k);
    Reorder(db, task.boardId);
    r := Success;
  }

  /** updateById: only the description of the caller's task changes. */
  method UpdateById(db: Store, session: Option<Id>, id: Id, description: string, isCuid: Id -> bool)
    returns (r: ActionResult)
    requires db.Valid()
    modifies db
    ensures db.Valid() && db.boards == old(db.boards)
    ensures session.None? ==> r == Failure(UserNotFound)
    ensures session.Some? && !(isCuid(id) && ValidDescription(description)) ==> r == Failure(Invalid)
    ensures session.Some? && isCuid(id) && ValidDescription(description) ==>
      var k := FindIndex(old(db.tasks), OwnedTask(id, session.value));
      && (k < 0 ==> r == Failure(TaskNotFound))
      && (k >= 0 ==> r == Success && db.tasks == old(db.tasks)[k := old(db.tasks)[k].(description := description)])
    ensures r.Failure? ==> db.tasks == old(db.tasks)
  {
    if session.None? {
      return Failure(UserNotFound);
    }
    if !(isCuid(id) && ValidDescription(description)) {
      return Failure(Invalid);
    }
    var k := FindIndex(db.tasks, OwnedTask(id, session.value));
    if k < 0 {
      return Failure(TaskNotFound);
    }
    db.tasks := db.tasks[k := db.tasks[k].(description := description)];
    r := Success;
  }

  /** The caller's board, as `boards.findIndex` locates it in the caller's boards. */
  lemma FindOwnBoard(bs: seq<Board>, tasks: seq<Task>, userId: Id, k: nat)
    requires k < |bs| && bs[k].userId == userId
    ensures var views := WithTasks(BoardsOf(bs, userId), tasks);
      var i := FindIndex(Heads(views), HasBoardId(bs[k].id));
      0 <= i < |views| && views[i].tasks == TasksOn(tasks, bs[k].id)
  {
    var views := WithTasks(BoardsOf(bs, userId), tasks);
    assert bs[k] in BoardsOf(bs, userId);
    var j :| 0 <= j < |Heads(views)| && Heads(views)[j] == bs[k];
    assert HasBoardId(bs[k].id)(Heads(views)[j]);
    var i := FindIndex(Heads(views), HasBoardId(bs[k].id));
    assert Heads(views)[i] == views[i].board;
  }

  /** updateOrder: the task moves to position `order` of the caller's board and the boards
      involved are renumbered. */
  method UpdateOrder(db: Store, session: Option<Id>, boardId: Id, taskId: Id, order: int,
                     isCuid: Id -> bool) returns (r: ActionResult)
    requires db.Valid()
    modifies db
    ensures db.Valid() && db.boards == old(db.boards)
    ensures session.None? ==> r == Failure(UserNotFound)
    ensures session.Some? && !(isCuid(boardId) && isCuid(taskId) && order >= 0) ==> r == Failure(Invalid)
    ensures session.Some? && isCuid(boardId) && isCuid(taskId) && order >= 0 ==>
      var k := FindIndex(old(db.boards), OwnedBoard(boardId, session.value));
      var tb := FindIndex(old(db.boards), HoldsTask(old(db.tasks), taskId));
      && (k < 0 ==> r == Failure(BoardNotFound))
      && (k >= 0 && tb < 0 ==> r == Failure(TaskNotFound))
      && (k >= 0 && tb >= 0 ==>
          r == Success && db.tasks == UpdateOrderAfter(old(db.tasks), old(db.boards)[tb].id, boardId, taskId, order))
    ensures r.Failure? ==> db.tasks == old(db.tasks)
  {
    if session.None? {
      return Failure(UserNotFound);
    }
    if !(isCuid(boardId) && isCuid(taskId) && order >= 0) {
      return Failure(Invalid);
    }
    var k := FindIndex(db.boards, OwnedBoard(boardId, session.value));
    if k < 0 {
      return Failure(BoardNotFound);
    }
    var tb := FindIndex(db.boards, HoldsTask(db.tasks, taskId));
    if tb < 0 {
      return Failure(TaskNotFound);
    }
    var board, taskBoard := db.boards[k], db.boards[tb];
    FindTask(db.tasks, taskBoard.id, taskId);
    if board.id == taskBoard.id {
      MoveWithinBoard(db, session.value, k, taskId, order);
    } else {
      MoveAcrossBoards(db, session.value, k, taskBoard.id, taskId, order);
    }
    r := Success;
  }

  /** The branch of updateOrder where the task already lies on the caller's board `k`: the
      board's fetched list has the task spliced out and back in at the index of a task with
      the requested order, and the list is written back as orders 1..n. */
  method MoveWithinBoard(db: Store, userId: Id, k: nat, taskId: Id, order: int)
    requires db.Valid() && k < |db.boards| && db.boards[k].userId == userId
    requires exists t :: t in db.tasks && t.id == taskId && t.boardId == db.boards[k].id
    modifies db
    ensures db.Valid() && db.boards == old(db.boards)
    ensures db.tasks == UpdateOrderAfter(old(db.tasks), old(db.boards)[k].id, old(db.boards)[k].id, taskId, order)
  {
    var boardId := db.boards[k].id;
    FindTask(db.tasks, boardId, taskId);
    var taskBoardTasks := TasksOn(db.tasks, boardId);
    var boards := WithTasks(BoardsOf(db.boards, userId), db.tasks);
    FindOwnBoard(db.boards, db.tasks, userId, k);
    TasksOnUnique(db.tasks, boardId);
    var boardIndex := FindIndex(Heads(boards), HasBoardId(boardId));
    var sourceIndex := FindIndex(taskBoardTasks, HasId(taskId));
    var destinationIndex := FindIndex(taskBoardTasks, HasOrder(order));
    var list := boards[boardIndex].tasks;
    var removed := list[sourceIndex];
    list := RemoveAt(list, sourceIndex);
    list := InsertAt(list, destinationIndex, removed);
    assert list == SameBoardList(taskBoardTasks, taskId, order);
    SameBoardListUnique(taskBoardTasks, taskId, order);
    RenumberAs(db, list);
  }

  /** The branch of updateOrder where the task lies on board `src`, not the caller's board
      `k`: the task is moved over by `StageMove`, spliced into the destination's list as
      fetched before the move at `order - 1`, and that list is written back as orders 1..n. */
  method MoveAcrossBoards(db: Store, userId: Id, k: nat, src: Id, taskId: Id, order: int)
    requires db.Valid() && k < |db.boards| && db.boards[k].userId == userId && src != db.boards[k].id
    requires exists t :: t in db.tasks && t.id == taskId && t.boardId == src
    modifies db
    ensures db.Valid() && db.boards == old(db.boards)
    ensures db.tasks == UpdateOrderAfter(old(db.tasks), src, old(db.boards)[k].id, taskId, order)
  {
    var board := db.boards[k];
    var taskBoardTasks := TasksOn(db.tasks, src);
    FetchedTaskIsRow(db.tasks, taskBoardTasks, src, taskId);
    var boards := WithTasks(BoardsOf(db.boards, userId), db.tasks);
    FindOwnBoard(db.boards, db.tasks, userId, k);
    var boardIndex := FindIndex(Heads(boards), HasBoardId(board.id));
    var ri := FindIndex(taskBoardTasks, HasId(taskId));
    var removed := taskBoardTasks[ri];
    ghost var ts := db.tasks;
    ghost var i := FindIndex(ts, HasId(taskId));
    assert removed in ts;
    CrossBoardListUnique(ts, i, board.id, order);
    var newTask := StageMove(db, removed, board.id);
    var list := InsertAt(boards[boardIndex].tasks, order - 1, newTask);
    RenumberAs(db, list);
  }

  /** The delete, `updateMany` decrement and create statements of a cross-board move: the row
      is removed, the rows above it on its board move down by one, and a copy of it on board
      `dest` is appended. */
  method StageMove(db: Store, removed: Task, dest: Id) returns (newTask: Task)
    requires db.Valid() && removed in db.tasks
    modifies db
    ensures db.Valid() && db.boards == old(db.boards)
    ensures 0 <= FindIndex(old(db.tasks), HasId(removed.id))
    ensures newTask == removed.(boardId := dest)
    ensures db.tasks == CrossBoardStaged(old(db.tasks), FindIndex(old(db.tasks), HasId(removed.id)), dest)
  {
    ghost var ts := db.tasks;
    ghost var j :| 0 <= j < |ts| && ts[j] == removed;
    FindIndexById(ts, j);
    var i := FindIndex(db.tasks, HasId(removed.id));
    CrossBoardStagedUnique(ts, i, dest);
    RemoveAtUnique(db.tasks, i);
    db.tasks := RemoveAt(db.tasks, i);
    DecrementTasks(db, removed.boardId, removed.order);
    newTask := removed.(boardId := dest);
    db.tasks := db.tasks + [newTask];
  }
}
