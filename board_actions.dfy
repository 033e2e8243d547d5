/** The server actions on boards: getAll, create, deleteById and update. */
module BoardActions {
  import opened Types
  import opened JsArray
  import opened BoardTable
  import opened TaskTable
  import Ordering
  import opened Database

  /** `z.string().min(1).max(30)`, the title rule of both schemas. */
  predicate ValidTitle(title: string) {
    1 <= |title| <= 30
  }

  /** A board as `include: { tasks: true }` returns it. */
  datatype BoardWithTasks = BoardWithTasks(board: Board, tasks: seq<Task>)

  function Heads(views: seq<BoardWithTasks>): seq<Board> {
    seq(|views|, i requires 0 <= i < |views| => views[i].board)
  }

  /** Attaches to each board the tasks that `include: { tasks: true }` fetches. */
  function WithTasks(bs: seq<Board>, tasks: seq<Task>): (r: seq<BoardWithTasks>)
    ensures Heads(r) == bs
    ensures forall i :: 0 <= i < |r| ==> r[i].tasks == TasksOn(tasks, r[i].board.id)
  {
    if bs == [] then []
    else
      var r := [BoardWithTasks(bs[0], TasksOn(tasks, bs[0].id))] + WithTasks(bs[1..], tasks);
      assert Heads(r) == [bs[0]] + bs[1..];
      r
  }

  /** getAll: the caller's boards in ascending order, each with its tasks in storage order.
      Without a session the filter is `userId: undefined`, which Prisma drops, so every
      board of the table is returned. */
  function GetAll(boards: seq<Board>, tasks: seq<Task>, session: Option<Id>): (r: seq<BoardWithTasks>)
    ensures SortedByOrder(Heads(r))
    ensures multiset(Heads(r)) == multiset(if session.Some? then BoardsOf(boards, session.value) else boards)
    ensures forall b :: multiset(Heads(r))[b] == if session.None? || b.userId == session.value then multiset(boards)[b] else 0
    ensures forall b :: b in Heads(r) <==> b in boards && (session.Some? ==> b.userId == session.value)
    ensures forall i :: 0 <= i < |r| ==> r[i].tasks == TasksOn(tasks, r[i].board.id)
  {
    var mine := if session.Some? then (BoardsOfMultiset(boards, session.value); BoardsOf(boards, session.value))
                else boards;
    var sorted := SortByOrder(mine);
    var r := WithTasks(sorted, tasks);
    assert forall b :: b in sorted <==> b in multiset(sorted);
    assert forall b :: b in mine <==> b in multiset(mine);
    r
  }

  /** create: a board appended at one past the largest order of the whole table. */
  method Create(db: Store, session: Option<Id>, title: string, newId: Id) returns (r: ActionResult)
    requires db.Valid()
    requires forall b :: b in db.boards ==> b.id != newId
    modifies db
    ensures db.Valid() && db.tasks == old(db.tasks)
    ensures session.None? ==> r == Failure(UserNotFound)
    ensures session.Some? && !ValidTitle(title) ==> r == Failure(Invalid)
    ensures session.Some? && ValidTitle(title) ==> r == Success
    ensures r.Failure? ==> db.boards == old(db.boards)
    ensures r.Success? ==>
      db.boards == old(db.boards) + [Board(newId, session.value, title, Ordering.NextOrder(BoardOrders(old(db.boards))))]
  {
    if session.None? {
      return Failure(UserNotFound);
    }
    if !ValidTitle(title) {
      return Failure(Invalid);
    }
    var orders := BoardOrders(db.boards);
    var order := if orders == [] then 1 else Ordering.MaxOrder(orders) + 1;
    db.boards := db.boards + [Board(newId, session.value, title, order)];
    r := Success;
  }

  /** With dense orders over the whole table, create appends exactly `N + 1`. */
  lemma CreateKeepsDense(bs: seq<Board>, id: Id, userId: Id, title: string)
    requires Ordering.Dense(BoardOrders(bs))
    ensures var b := Board(id, userId, title, Ordering.NextOrder(BoardOrders(bs)));
      b.order == |bs| + 1 && Ordering.Dense(BoardOrders(bs + [b]))
  {
    var b := Board(id, userId, title, Ordering.NextOrder(BoardOrders(bs)));
    Ordering.NextOrderDense(BoardOrders(bs));
    assert BoardOrders(bs + [b]) == BoardOrders(bs) + [b.order];
  }

  /** deleteById: the caller's board is removed, then every board of any user above it moves
      down by one. */
  method DeleteById(db: Store, session: Option<Id>, boardId: Id, isCuid: Id -> bool) returns (r: ActionResult)
    requires db.Valid()
    modifies db
    ensures db.Valid()
    ensures session.None? ==> r == Failure(UserNotFound)
    ensures session.Some? && !isCuid(boardId) ==> r == Failure(Invalid)
    ensures session.Some? && isCuid(boardId) ==>
      var k := FindIndex(old(db.boards), OwnedBoard(boardId, session.value));
      && (k < 0 ==> r == Failure(BoardNotFound))
      && (k >= 0 ==> r == Success && db.boards == DecrementBoards(RemoveAt(old(db.boards), k), old(db.boards)[k].order))
    ensures r.Failure? ==> db.boards == old(db.boards) && db.tasks == old(db.tasks)
  {
    if session.None? {
      return Failure(UserNotFound);
    }
    if !isCuid(boardId) {
      return Failure(Invalid);
    }
    var k := FindIndex(db.boards, OwnedBoard(boardId, session.value));
    if k < 0 {
      return Failure(BoardNotFound);
    }
    var board := db.boards[k];
    db.boards := RemoveAt(db.boards, k);
    DecrementAbove(db, board.order);
    r := Success;
  }

  /** The `updateMany` decrement, row by row over the whole Board table. */
  method DecrementAbove(db: Store, p: int)
    requires db.Valid()
    modifies db
    ensures db.Valid() && db.tasks == old(db.tasks)
    ensures db.boards == DecrementBoards(old(db.boards), p)
  {
    var i := 0;
    while i < |db.boards|
      invariant |db.boards| == |old(db.boards)| && i <= |db.boards|
      invariant forall j :: 0 <= j < i ==>
        db.boards[j] == if old(db.boards)[j].order > p then old(db.boards)[j].(order := old(db.boards)[j].order - 1) else old(db.boards)[j]
      invariant forall j :: i <= j < |db.boards| ==> db.boards[j] == old(db.boards)[j]
      invariant db.tasks == old(db.tasks)
    {
      if db.boards[i].order > p {
        db.boards := db.boards[i := db.boards[i].(order := db.boards[i].order - 1)];
      }
      i := i + 1;
    }
    assert db.boards == DecrementBoards(old(db.boards), p);
    DecrementBoardsUnique(old(db.boards), p);
  }

  /** With dense orders over the whole table, deleteById leaves them dense. */
  lemma DeleteKeepsDense(bs: seq<Board>, k: nat)
    requires Ordering.Dense(BoardOrders(bs)) && k < |bs|
    ensures Ordering.Dense(BoardOrders(DecrementBoards(RemoveAt(bs, k), bs[k].order)))
  {
    BoardOrdersDecrement(RemoveAt(bs, k), bs[k].order);
    BoardOrdersRemoveAt(bs, k);
    Ordering.CloseGapDense(BoardOrders(bs), k);
  }

  /** With dense orders, the surviving boards keep their order relative to each other. */
  lemma DeleteKeepsRelativeOrder(bs: seq<Board>, k: nat)
    requires Ordering.Dense(BoardOrders(bs)) && k < |bs|
    ensures var before, after := RemoveAt(bs, k), DecrementBoards(RemoveAt(bs, k), bs[k].order);
      forall i, j :: 0 <= i < |before| && 0 <= j < |before| ==>
        (before[i].order < before[j].order <==> after[i].order < after[j].order)
  {
    var before := RemoveAt(bs, k);
    var after := DecrementBoards(before, bs[k].order);
    BoardOrdersDecrement(before, bs[k].order);
    BoardOrdersRemoveAt(bs, k);
    Ordering.CloseGapDense(BoardOrders(bs), k);
    assert forall i :: 0 <= i < |before| ==> BoardOrders(before)[i] != bs[k].order;
    Ordering.CloseGapKeepsRelativeOrder(BoardOrders(before), bs[k].order);
    forall i, j | 0 <= i < |before| && 0 <= j < |before|
      ensures before[i].order < before[j].order <==> after[i].order < after[j].order
    {
      assert BoardOrders(before)[i] == before[i].order && BoardOrders(before)[j] == before[j].order;
      assert BoardOrders(after)[i] == after[i].order && BoardOrders(after)[j] == after[j].order;
    }
  }

  /** update: only the title of the caller's board changes. */
  method Update(db: Store, session: Option<Id>, id: Id, title: string, isCuid: Id -> bool) returns (r: ActionResult)
    requires db.Valid()
    modifies db
    ensures db.Valid() && db.tasks == old(db.tasks)
    ensures session.None? ==> r == Failure(UserNotFound)
    ensures session.Some? && !(isCuid(id) && ValidTitle(title)) ==> r == Failure(Invalid)
    ensures session.Some? && isCuid(id) && ValidTitle(title) ==>
      var k := FindIndex(old(db.boards), OwnedBoard(id, session.value));
      && (k < 0 ==> r == Failure(BoardNotFound))
      && (k >= 0 ==> r == Success && db.boards == old(db.boards)[k := old(db.boards)[k].(title := title)])
    ensures r.Failure? ==> db.boards == old(db.boards)
  {
    if session.None? {
      return Failure(UserNotFound);
    }
    if !(isCuid(id) && ValidTitle(title)) {
      return Failure(Invalid);
    }
    var k := FindIndex(db.boards, OwnedBoard(id, session.value));
    if k < 0 {
      return Failure(BoardNotFound);
    }
    db.boards := db.boards[k := db.boards[k].(title := title)];
    r := Success;
  }
}
