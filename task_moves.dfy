/** What the task actions do to the Task table, as functions of the table before them,
    with the properties each one guarantees. */
module TaskMoves {
  import opened Types
  import opened JsArray
  import opened TaskTable
  import Ordering

  /** The `reorder` helper: the k-th task of the board, as `findMany` lists it, gets order k + 1. */
  function Renumber(ts: seq<Task>, b: Id): seq<Task> {
    var fetched := TasksOn(ts, b);
    UpdateRows(ts, RankBy(fetched, |fetched|))
  }

  /** A ranking by tasks of board `b` leaves every row of another board as it was. */
  lemma RankByKeepsOtherBoards(ts: seq<Task>, b: Id, list: seq<Task>, n: nat)
    requires UniqueIds(ts)
    requires forall u :: u in list ==> u in ts && u.boardId == b
    ensures forall j :: 0 <= j < |ts| && ts[j].boardId != b ==> UpdateRows(ts, RankBy(list, n))[j] == ts[j]
    ensures forall c :: c != b ==> TasksOn(UpdateRows(ts, RankBy(list, n)), c) == TasksOn(ts, c)
  {
    SameIdSameRow(ts);
    forall j | 0 <= j < |ts| && ts[j].boardId != b ensures Edit(RankBy(list, n), ts[j]) == ts[j] {
      assert ts[j] in ts;
      IndexOfIdAbsent(list, ts[j].id);
    }
    forall c | c != b ensures TasksOn(UpdateRows(ts, RankBy(list, n)), c) == TasksOn(ts, c) {
      TasksOnUpdate(ts, RankBy(list, n), c);
      RankByOutside(TasksOn(ts, c), list, n);
    }
  }

  /** reorder: the k-th task of the board as fetched gets order k + 1, so the board is
      numbered exactly 1..n. */
  lemma RenumberSpec(ts: seq<Task>, b: Id)
    requires UniqueIds(ts)
    ensures |TasksOn(Renumber(ts, b), b)| == |TasksOn(ts, b)|
    ensures forall k :: 0 <= k < |TasksOn(ts, b)| ==>
      TasksOn(Renumber(ts, b), b)[k] == TasksOn(ts, b)[k].(order := k + 1)
    ensures Ordering.Dense(Orders(TasksOn(Renumber(ts, b), b)))
  {
    var fetched := TasksOn(ts, b);
    TasksOnUnique(ts, b);
    TasksOnUpdate(ts, RankBy(fetched, |fetched|), b);
    assert TasksOn(Renumber(ts, b), b) == UpdateRows(fetched, RankBy(fetched, |fetched|));
    RankBySelf(fetched);
  }

  /** reorder writes no row of another board, and keeps ids unique. */
  lemma RenumberKeepsOthers(ts: seq<Task>, b: Id)
    requires UniqueIds(ts)
    ensures UniqueIds(Renumber(ts, b))
    ensures forall j :: 0 <= j < |ts| && ts[j].boardId != b ==> Renumber(ts, b)[j] == ts[j]
    ensures forall c :: c != b ==> TasksOn(Renumber(ts, b), c) == TasksOn(ts, c)
  {
    var fetched := TasksOn(ts, b);
    RankByKeepsOtherBoards(ts, b, fetched, |fetched|);
    UpdateRowsUnique(ts, RankBy(fetched, |fetched|));
  }

  /** deleteById: the task is gone, its former board is numbered 1..n-1, other boards keep
      their tasks. */
  lemma DeleteSpec(ts: seq<Task>, k: nat)
    requires UniqueIds(ts) && k < |ts|
    ensures var b, after := ts[k].boardId, Renumber(RemoveAt(ts, k), ts[k].boardId);
      && UniqueIds(after)
      && (forall j :: 0 <= j < |after| ==> after[j].id != ts[k].id)
      && |TasksOn(after, b)| == |TasksOn(ts, b)| - 1
      && Ordering.Dense(Orders(TasksOn(after, b)))
      && (forall c :: c != b ==> TasksOn(after, c) == TasksOn(ts, c))
  {
    var b, rest := ts[k].boardId, RemoveAt(ts, k);
    RemoveAtUnique(ts, k);
    RenumberSpec(rest, b);
    RenumberKeepsOthers(rest, b);
    RenumberKeepsIds(rest, b, ts[k].id);
    TasksOnRemoveAt(ts, k);
    forall c | c != b ensures TasksOn(rest, c) == TasksOn(ts, c) {
      TasksOnRemoveAtOther(ts, k, c);
    }
  }

  /** reorder writes orders only: an id absent before is absent after. */
  lemma RenumberKeepsIds(ts: seq<Task>, b: Id, id: Id)
    requires forall t :: t in ts ==> t.id != id
    ensures forall j :: 0 <= j < |Renumber(ts, b)| ==> Renumber(ts, b)[j].id != id
  {
    forall j | 0 <= j < |Renumber(ts, b)| ensures Renumber(ts, b)[j].id != id {
      assert ts[j] in ts;
    }
  }

  /** The list the same-board move writes back: the task spliced out of its index and spliced
      in at the index of the task that holds the requested order (-1 when none does). */
  function SameBoardList(fetched: seq<Task>, taskId: Id, order: int): (list: seq<Task>)
    requires exists i :: 0 <= i < |fetched| && fetched[i].id == taskId
    ensures var source := FindIndex(fetched, HasId(taskId));
      && 0 <= source && fetched[source].id == taskId
      && |list| == |fetched| && multiset(list) == multiset(fetched)
      && var at := SpliceStart(|fetched| - 1, FindIndex(fetched, HasOrder(order)));
         list[at] == fetched[source] && RemoveAt(list, at) == RemoveAt(fetched, source)
  {
    var i :| 0 <= i < |fetched| && fetched[i].id == taskId;
    assert HasId(taskId)(fetched[i]);
    var source := FindIndex(fetched, HasId(taskId));
    Move(fetched, source, FindIndex(fetched, HasOrder(order)))
  }

  /** updateOrder when the task is already on the destination board. */
  function SameBoardAfter(ts: seq<Task>, b: Id, taskId: Id, order: int): seq<Task>
    requires exists i :: 0 <= i < |TasksOn(ts, b)| && TasksOn(ts, b)[i].id == taskId
  {
    var list := SameBoardList(TasksOn(ts, b), taskId, order);
    UpdateRows(ts, RankBy(list, |list|))
  }

  /** A list is id-unique when the element at `at` and the rest are. */
  lemma UniqueAround(list: seq<Task>, at: nat)
    requires at < |list|
    requires UniqueIds(RemoveAt(list, at))
    requires forall t :: t in RemoveAt(list, at) ==> t.id != list[at].id
    ensures UniqueIds(list)
  {
    var rest := RemoveAt(list, at);
    forall i, j | 0 <= i < j < |list| ensures list[i].id != list[j].id {
      if i == at {
        assert list[j] == rest[j - 1];
      } else if j == at {
        assert list[i] == rest[i];
      } else {
        var i', j' := if i < at then i else i - 1, if j < at then j else j - 1;
        assert list[i] == rest[i'] && list[j] == rest[j'];
      }
    }
  }

  /** Moving within a list of unique ids keeps them unique. */
  lemma SameBoardListUnique(fetched: seq<Task>, taskId: Id, order: int)
    requires UniqueIds(fetched)
    requires exists i :: 0 <= i < |fetched| && fetched[i].id == taskId
    ensures UniqueIds(SameBoardList(fetched, taskId, order))
    ensures SameBoardList(fetched, taskId, order)[SpliceStart(|fetched| - 1, FindIndex(fetched, HasOrder(order)))].id == taskId
  {
    var list := SameBoardList(fetched, taskId, order);
    var source := FindIndex(fetched, HasId(taskId));
    var at := SpliceStart(|fetched| - 1, FindIndex(fetched, HasOrder(order)));
    RemoveAtUnique(fetched, source);
    assert RemoveAt(list, at) == RemoveAt(fetched, source) && list[at] == fetched[source];
    UniqueAround(list, at);
  }

  lemma PermutationCovers(s: seq<Task>, r: seq<Task>)
    requires multiset(r) == multiset(s)
    ensures forall i :: 0 <= i < |s| ==> IdIn(r, s[i].id)
  {
    forall i | 0 <= i < |s| ensures IdIn(r, s[i].id) {
      assert s[i] in multiset(s);
      assert s[i] in r;
      var j :| 0 <= j < |r| && r[j] == s[i];
      assert r[j].id == s[i].id;
    }
  }

  /** The same-board move numbers the board's tasks exactly 1..n. */
  lemma SameBoardDense(ts: seq<Task>, b: Id, taskId: Id, order: int)
    requires UniqueIds(ts)
    requires exists i :: 0 <= i < |TasksOn(ts, b)| && TasksOn(ts, b)[i].id == taskId
    ensures |TasksOn(SameBoardAfter(ts, b, taskId, order), b)| == |TasksOn(ts, b)|
    ensures Ordering.Dense(Orders(TasksOn(SameBoardAfter(ts, b, taskId, order), b)))
  {
    var fetched := TasksOn(ts, b);
    var list := SameBoardList(fetched, taskId, order);
    assert SameBoardAfter(ts, b, taskId, order) == UpdateRows(ts, RankBy(list, |list|));
    TasksOnUnique(ts, b);
    TasksOnUpdate(ts, RankBy(list, |list|), b);
    PermutationCovers(fetched, list);
    RankByDense(fetched, list, UpdateRows(fetched, RankBy(list, |list|)));
  }

  /** The moved task takes order `at + 1`, where `at` is the index `splice` reads from the
      `findIndex` of a task with the requested order, counted in the list without the task. */
  lemma SameBoardMoved(ts: seq<Task>, b: Id, fetched: seq<Task>, taskId: Id, order: int)
    requires UniqueIds(ts) && fetched == TasksOn(ts, b)
    requires exists i :: 0 <= i < |fetched| && fetched[i].id == taskId
    ensures var at := SpliceStart(|fetched| - 1, FindIndex(fetched, HasOrder(order)));
      forall j :: 0 <= j < |ts| && ts[j].id == taskId ==>
        SameBoardAfter(ts, b, taskId, order)[j] == ts[j].(order := at + 1)
  {
    TasksOnUnique(ts, b);
    SameBoardListMoved(ts, fetched, taskId, order);
  }

  /** SameBoardMoved, stated on the fetched list itself. */
  lemma SameBoardListMoved(ts: seq<Task>, fetched: seq<Task>, taskId: Id, order: int)
    requires UniqueIds(fetched)
    requires exists i :: 0 <= i < |fetched| && fetched[i].id == taskId
    ensures var list := SameBoardList(fetched, taskId, order);
      var at := SpliceStart(|fetched| - 1, FindIndex(fetched, HasOrder(order)));
      forall j :: 0 <= j < |ts| && ts[j].id == taskId ==>
        UpdateRows(ts, RankBy(list, |list|))[j] == ts[j].(order := at + 1)
  {
    SameBoardListUnique(fetched, taskId, order);
    RankByAtAll(ts, SameBoardList(fetched, taskId, order), SpliceStart(|fetched| - 1, FindIndex(fetched, HasOrder(order))));
  }

  /** The same-board move changes only orders, and only on that board. */
  lemma SameBoardKeepsOthers(ts: seq<Task>, b: Id, taskId: Id, order: int)
    requires UniqueIds(ts)
    requires exists i :: 0 <= i < |TasksOn(ts, b)| && TasksOn(ts, b)[i].id == taskId
    ensures UniqueIds(SameBoardAfter(ts, b, taskId, order))
    ensures forall j :: 0 <= j < |ts| ==>
      SameBoardAfter(ts, b, taskId, order)[j] == ts[j].(order := SameBoardAfter(ts, b, taskId, order)[j].order)
    ensures forall j :: 0 <= j < |ts| && ts[j].boardId != b ==> SameBoardAfter(ts, b, taskId, order)[j] == ts[j]
    ensures forall c :: c != b ==> TasksOn(SameBoardAfter(ts, b, taskId, order), c) == TasksOn(ts, c)
  {
    var fetched := TasksOn(ts, b);
    var list := SameBoardList(fetched, taskId, order);
    forall u | u in list ensures u in ts && u.boardId == b {
      assert u in multiset(fetched);
    }
    RankByKeepsOtherBoards(ts, b, list, |list|);
    UpdateRowsUnique(ts, RankBy(list, |list|));
  }

  /** The task table after the delete, decrement and create statements of a cross-board move,
      before the destination is renumbered. */
  function CrossBoardStaged(ts: seq<Task>, i: nat, dest: Id): seq<Task>
    requires i < |ts|
  {
    var removed := ts[i];
    UpdateRows(RemoveAt(ts, i), Decrement(removed.boardId, removed.order)) + [removed.(boardId := dest)]
  }

  /** The list the cross-board move writes back: the destination's tasks as fetched before the
      move, with the moved task spliced in at `order - 1`. */
  function CrossBoardList(ts: seq<Task>, i: nat, dest: Id, order: int): seq<Task>
    requires i < |ts|
  {
    InsertAt(TasksOn(ts, dest), order - 1, ts[i].(boardId := dest))
  }

  /** updateOrder when the task moves to another board. */
  function CrossBoardAfter(ts: seq<Task>, i: nat, dest: Id, order: int): seq<Task>
    requires i < |ts|
  {
    var list := CrossBoardList(ts, i, dest, order);
    UpdateRows(CrossBoardStaged(ts, i, dest), RankBy(list, |list|))
  }

  /** Removing row `i` keeps the ids unique, and none of the rows left has the removed id. */
  lemma RemoveAtUnique(ts: seq<Task>, i: nat)
    requires UniqueIds(ts) && i < |ts|
    ensures UniqueIds(RemoveAt(ts, i))
    ensures forall t :: t in RemoveAt(ts, i) ==> t.id != ts[i].id
  {
    var r := RemoveAt(ts, i);
    forall t | t in r ensures t.id != ts[i].id {
      var m :| 0 <= m < |r| && r[m] == t;
      assert r[m] == ts[if m < i then m else m + 1];
    }
  }

  lemma CrossBoardStagedUnique(ts: seq<Task>, i: nat, dest: Id)
    requires UniqueIds(ts) && i < |ts|
    ensures UniqueIds(CrossBoardStaged(ts, i, dest))
  {
    var rest := RemoveAt(ts, i);
    var e := Decrement(ts[i].boardId, ts[i].order);
    RemoveAtUnique(ts, i);
    UpdateRowsUnique(rest, e);
    var dec := UpdateRows(rest, e);
    forall t | t in dec ensures t.id != ts[i].id {
      var m :| 0 <= m < |dec| && dec[m] == t;
      assert rest[m] in rest;
    }
    UniqueAround(CrossBoardStaged(ts, i, dest), |dec|);
  }

  /** Before the renumbering, the destination holds its old tasks followed by the moved one. */
  lemma CrossBoardStagedDest(ts: seq<Task>, i: nat, dest: Id)
    requires i < |ts| && ts[i].boardId != dest
    ensures TasksOn(CrossBoardStaged(ts, i, dest), dest) == TasksOn(ts, dest) + [ts[i].(boardId := dest)]
  {
    var rest := RemoveAt(ts, i);
    var e := Decrement(ts[i].boardId, ts[i].order);
    TasksOnConcat(UpdateRows(rest, e), [ts[i].(boardId := dest)], dest);
    assert TasksOn([ts[i].(boardId := dest)], dest) == [ts[i].(boardId := dest)];
    TasksOnUpdate(rest, e, dest);
    TasksOnRemoveAtOther(ts, i, dest);
    DecrementOtherBoard(TasksOn(ts, dest), ts[i].boardId, ts[i].order);
  }

  /** Before the renumbering, the source has lost the task and closed the gap it left. */
  lemma CrossBoardStagedSource(ts: seq<Task>, i: nat, dest: Id)
    requires i < |ts| && ts[i].boardId != dest
    ensures var src := ts[i].boardId; var k := |TasksOn(ts[..i], src)|;
      && k < |TasksOn(ts, src)| && TasksOn(ts, src)[k] == ts[i]
      && TasksOn(CrossBoardStaged(ts, i, dest), src)
        == UpdateRows(RemoveAt(TasksOn(ts, src), k), Decrement(src, ts[i].order))
  {
    var src := ts[i].boardId;
    var rest := RemoveAt(ts, i);
    var e := Decrement(src, ts[i].order);
    TasksOnConcat(UpdateRows(rest, e), [ts[i].(boardId := dest)], src);
    assert TasksOn([ts[i].(boardId := dest)], src) == [];
    TasksOnUpdate(rest, e, src);
    TasksOnRemoveAt(ts, i);
  }

  /** Before the renumbering, every other board is as it was. */
  lemma CrossBoardStagedOther(ts: seq<Task>, i: nat, dest: Id, c: Id)
    requires i < |ts| && c != ts[i].boardId && c != dest
    ensures TasksOn(CrossBoardStaged(ts, i, dest), c) == TasksOn(ts, c)
  {
    var rest := RemoveAt(ts, i);
    var e := Decrement(ts[i].boardId, ts[i].order);
    TasksOnConcat(UpdateRows(rest, e), [ts[i].(boardId := dest)], c);
    assert TasksOn([ts[i].(boardId := dest)], c) == [];
    TasksOnUpdate(rest, e, c);
    TasksOnRemoveAtOther(ts, i, c);
    DecrementOtherBoard(TasksOn(ts, c), ts[i].boardId, ts[i].order);
  }

  /** The destination's old tasks and the moved task have distinct ids. */
  lemma CrossBoardDestUnique(ts: seq<Task>, i: nat, dest: Id)
    requires UniqueIds(ts) && i < |ts| && ts[i].boardId != dest
    ensures UniqueIds(TasksOn(ts, dest) + [ts[i].(boardId := dest)])
  {
    var d := TasksOn(ts, dest);
    var moved := ts[i].(boardId := dest);
    TasksOnUnique(ts, dest);
    SameIdSameRow(ts);
    forall t | t in d ensures t.id != moved.id {
      assert ts[i] in ts;
    }
    UniqueAround(d + [moved], |d|);
  }

  /** The list written back holds unique ids wherever the moved task is spliced in. */
  lemma CrossBoardListUnique(ts: seq<Task>, i: nat, dest: Id, order: int)
    requires UniqueIds(ts) && i < |ts| && ts[i].boardId != dest
    ensures UniqueIds(CrossBoardList(ts, i, dest, order))
  {
    var d := TasksOn(ts, dest);
    var moved := ts[i].(boardId := dest);
    var list := CrossBoardList(ts, i, dest, order);
    TasksOnUnique(ts, dest);
    SameIdSameRow(ts);
    forall t | t in d ensures t.id != moved.id {
      assert ts[i] in ts;
    }
    UniqueAround(list, SpliceStart(|d|, order - 1));
  }

  /** The rows of the list written back are the destination rows of the staged table. */
  lemma CrossBoardListStaged(ts: seq<Task>, i: nat, dest: Id, order: int)
    requires i < |ts| && ts[i].boardId != dest
    ensures multiset(CrossBoardList(ts, i, dest, order))
      == multiset(TasksOn(CrossBoardStaged(ts, i, dest), dest))
    ensures forall u :: u in CrossBoardList(ts, i, dest, order) ==>
      u in CrossBoardStaged(ts, i, dest) && u.boardId == dest
  {
    CrossBoardStagedDest(ts, i, dest);
    var list := CrossBoardList(ts, i, dest, order);
    forall u | u in list ensures u in CrossBoardStaged(ts, i, dest) && u.boardId == dest {
      assert u in multiset(list);
      assert u in TasksOn(CrossBoardStaged(ts, i, dest), dest);
    }
  }

  /** The cross-board move keeps ids unique and leaves every board but the two it touches
      as it was. */
  lemma CrossBoardKeepsOthers(ts: seq<Task>, i: nat, dest: Id, order: int)
    requires UniqueIds(ts) && i < |ts| && ts[i].boardId != dest
    ensures |CrossBoardAfter(ts, i, dest, order)| == |ts|
    ensures UniqueIds(CrossBoardAfter(ts, i, dest, order))
    ensures forall c :: c != ts[i].boardId && c != dest ==>
      TasksOn(CrossBoardAfter(ts, i, dest, order), c) == TasksOn(ts, c)
  {
    var staged := CrossBoardStaged(ts, i, dest);
    var list := CrossBoardList(ts, i, dest, order);
    CrossBoardStagedUnique(ts, i, dest);
    CrossBoardListStaged(ts, i, dest, order);
    RankByKeepsOtherBoards(staged, dest, list, |list|);
    UpdateRowsUnique(staged, RankBy(list, |list|));
    forall c | c != ts[i].boardId && c != dest
      ensures TasksOn(CrossBoardAfter(ts, i, dest, order), c) == TasksOn(ts, c)
    {
      CrossBoardStagedOther(ts, i, dest, c);
    }
  }

  /** The source board loses the task and, when it was numbered 1..n, is numbered 1..n-1. */
  lemma CrossBoardSource(ts: seq<Task>, i: nat, dest: Id, order: int)
    requires UniqueIds(ts) && i < |ts| && ts[i].boardId != dest
    ensures var src := ts[i].boardId;
      |TasksOn(CrossBoardAfter(ts, i, dest, order), src)| == |TasksOn(ts, src)| - 1
    ensures var src := ts[i].boardId;
      forall t :: t in TasksOn(CrossBoardAfter(ts, i, dest, order), src) ==> t.id != ts[i].id
    ensures var src := ts[i].boardId;
      Ordering.Dense(Orders(TasksOn(ts, src)))
      ==> Ordering.Dense(Orders(TasksOn(CrossBoardAfter(ts, i, dest, order), src)))
  {
    var src := ts[i].boardId;
    var k := |TasksOn(ts[..i], src)|;
    CrossBoardSourceRows(ts, i, dest, order);
    TasksOnUnique(ts, src);
    CloseGapOnBoard(TasksOn(ts, src), k, src);
  }

  /** After the renumbering, the source holds its rows without the task, decremented above it. */
  lemma CrossBoardSourceRows(ts: seq<Task>, i: nat, dest: Id, order: int)
    requires UniqueIds(ts) && i < |ts| && ts[i].boardId != dest
    ensures var src := ts[i].boardId; var k := |TasksOn(ts[..i], src)|;
      && k < |TasksOn(ts, src)| && TasksOn(ts, src)[k] == ts[i]
      && TasksOn(CrossBoardAfter(ts, i, dest, order), src)
        == UpdateRows(RemoveAt(TasksOn(ts, src), k), Decrement(src, ts[i].order))
  {
    var staged := CrossBoardStaged(ts, i, dest);
    var list := CrossBoardList(ts, i, dest, order);
    CrossBoardStagedUnique(ts, i, dest);
    CrossBoardListStaged(ts, i, dest, order);
    RankByKeepsOtherBoards(staged, dest, list, |list|);
    CrossBoardStagedSource(ts, i, dest);
  }

  /** On one board's list: deleting the row at `k` and decrementing the orders above it loses
      exactly that row, and turns orders 1..n into 1..n-1. */
  lemma CloseGapOnBoard(on: seq<Task>, k: nat, b: Id)
    requires UniqueIds(on) && k < |on|
    requires forall t :: t in on ==> t.boardId == b
    ensures var after := UpdateRows(RemoveAt(on, k), Decrement(b, on[k].order));
      && |after| == |on| - 1
      && (forall t :: t in after ==> t.id != on[k].id)
      && (Ordering.Dense(Orders(on)) ==> Ordering.Dense(Orders(after)))
  {
    var rest := RemoveAt(on, k);
    var after := UpdateRows(rest, Decrement(b, on[k].order));
    RemoveAtUnique(on, k);
    forall t | t in after ensures t.id != on[k].id {
      var m :| 0 <= m < |after| && after[m] == t;
      assert rest[m] in rest;
    }
    forall t | t in rest ensures t.boardId == b {
      assert t in multiset(rest);
    }
    OrdersDecrement(rest, b, on[k].order);
    OrdersRemoveAt(on, k);
    if Ordering.Dense(Orders(on)) {
      Ordering.CloseGapDense(Orders(on), k);
    }
  }

  /** The destination gains the task and is numbered 1..n+1, whatever its orders were. */
  lemma CrossBoardDest(ts: seq<Task>, i: nat, dest: Id, order: int)
    requires UniqueIds(ts) && i < |ts| && ts[i].boardId != dest
    ensures |TasksOn(CrossBoardAfter(ts, i, dest, order), dest)| == |TasksOn(ts, dest)| + 1
    ensures Ordering.Dense(Orders(TasksOn(CrossBoardAfter(ts, i, dest, order), dest)))
  {
    var d := TasksOn(ts, dest);
    var moved := ts[i].(boardId := dest);
    var staged := CrossBoardStaged(ts, i, dest);
    var list := CrossBoardList(ts, i, dest, order);
    CrossBoardStagedDest(ts, i, dest);
    TasksOnUpdate(staged, RankBy(list, |list|), dest);
    CrossBoardDestUnique(ts, i, dest);
    PermutationCovers(d + [moved], list);
    RankByDense(d + [moved], list, UpdateRows(d + [moved], RankBy(list, |list|)));
  }

  /** The moved task keeps its id, description and owner, sits on the destination, and takes
      the position `order - 1` names in the destination's list, as `splice` reads it. */
  lemma CrossBoardMoved(ts: seq<Task>, i: nat, dest: Id, order: int)
    requires UniqueIds(ts) && i < |ts| && ts[i].boardId != dest
    ensures |CrossBoardAfter(ts, i, dest, order)| == |ts|
    ensures CrossBoardAfter(ts, i, dest, order)[|ts| - 1]
      == ts[i].(boardId := dest, order := SpliceStart(|TasksOn(ts, dest)|, order - 1) + 1)
  {
    var d := TasksOn(ts, dest);
    var moved := ts[i].(boardId := dest);
    var staged := CrossBoardStaged(ts, i, dest);
    var list := CrossBoardList(ts, i, dest, order);
    var at := SpliceStart(|d|, order - 1);
    assert staged[|ts| - 1] == moved;
    CrossBoardListUnique(ts, i, dest, order);
    assert list[at] == moved;
    RankByAt(staged, list, at, |ts| - 1);
  }

  /** The row of a task that lies on board `src`, found by its id. */
  lemma FindTask(ts: seq<Task>, src: Id, taskId: Id)
    requires exists t :: t in ts && t.id == taskId && t.boardId == src
    ensures 0 <= FindIndex(ts, HasId(taskId))
    ensures ts[FindIndex(ts, HasId(taskId))].id == taskId
    ensures UniqueIds(ts) ==> ts[FindIndex(ts, HasId(taskId))].boardId == src
    ensures exists i :: 0 <= i < |TasksOn(ts, src)| && TasksOn(ts, src)[i].id == taskId
  {
    var t :| t in ts && t.id == taskId && t.boardId == src;
    var j :| 0 <= j < |ts| && ts[j] == t;
    assert HasId(taskId)(ts[j]);
    assert t in TasksOn(ts, src);
    if UniqueIds(ts) {
      SameIdSameRow(ts);
      assert ts[FindIndex(ts, HasId(taskId))] in ts;
    }
  }

  /** The task found by id in its board's fetched list is the task found by id in the table. */
  lemma FetchedTaskIsRow(ts: seq<Task>, fetched: seq<Task>, src: Id, taskId: Id)
    requires UniqueIds(ts) && fetched == TasksOn(ts, src)
    requires exists t :: t in ts && t.id == taskId && t.boardId == src
    ensures var ri := FindIndex(fetched, HasId(taskId));
      && 0 <= ri && 0 <= FindIndex(ts, HasId(taskId))
      && fetched[ri] == ts[FindIndex(ts, HasId(taskId))]
  {
    FindTask(ts, src, taskId);
    FoundInBoth(ts, fetched, taskId);
  }

  lemma FoundInBoth(ts: seq<Task>, fetched: seq<Task>, taskId: Id)
    requires UniqueIds(ts) && forall u :: u in fetched ==> u in ts
    requires exists j :: 0 <= j < |fetched| && fetched[j].id == taskId
    ensures var ri := FindIndex(fetched, HasId(taskId)); var i := FindIndex(ts, HasId(taskId));
      && 0 <= ri && 0 <= i && fetched[ri] == ts[i]
  {
    var j :| 0 <= j < |fetched| && fetched[j].id == taskId;
    assert HasId(taskId)(fetched[j]);
    var ri := FindIndex(fetched, HasId(taskId));
    assert fetched[ri] in ts;
    var m :| 0 <= m < |ts| && ts[m] == fetched[ri];
    assert HasId(taskId)(ts[m]);
    var i := FindIndex(ts, HasId(taskId));
    assert !(i < m) && !(m < i);
  }

  /** updateOrder on the task table: `src` is the board that holds the task, `dest` the
      caller's board named in the request. */
  function UpdateOrderAfter(ts: seq<Task>, src: Id, dest: Id, taskId: Id, order: int): seq<Task>
    requires exists t :: t in ts && t.id == taskId && t.boardId == src
  {
    FindTask(ts, src, taskId);
    if src == dest then SameBoardAfter(ts, dest, taskId, order)
    else CrossBoardAfter(ts, FindIndex(ts, HasId(taskId)), dest, order)
  }

  /** What updateOrder guarantees in both of its branches: no task is lost or duplicated, the
      task ends on the destination, which is numbered 1..n, boards other than the two it
      touches keep their tasks, and the source, when numbered 1..n, stays so. */
  lemma UpdateOrderSpec(ts: seq<Task>, src: Id, dest: Id, taskId: Id, order: int)
    requires UniqueIds(ts)
    requires exists t :: t in ts && t.id == taskId && t.boardId == src
    ensures var after := UpdateOrderAfter(ts, src, dest, taskId, order);
      && |after| == |ts| && UniqueIds(after)
      && (exists j :: 0 <= j < |after| && after[j].id == taskId && after[j].boardId == dest)
      && Ordering.Dense(Orders(TasksOn(after, dest)))
      && (forall c :: c != src && c != dest ==> TasksOn(after, c) == TasksOn(ts, c))
    ensures var after := UpdateOrderAfter(ts, src, dest, taskId, order);
      src == dest ==> |TasksOn(after, dest)| == |TasksOn(ts, dest)|
    ensures var after := UpdateOrderAfter(ts, src, dest, taskId, order);
      src != dest ==>
      && |TasksOn(after, dest)| == |TasksOn(ts, dest)| + 1
      && |TasksOn(after, src)| == |TasksOn(ts, src)| - 1
      && (Ordering.Dense(Orders(TasksOn(ts, src))) ==> Ordering.Dense(Orders(TasksOn(after, src))))
  {
    FindTask(ts, src, taskId);
    var i := FindIndex(ts, HasId(taskId));
    var after := UpdateOrderAfter(ts, src, dest, taskId, order);
    if src == dest {
      SameBoardDense(ts, dest, taskId, order);
      SameBoardKeepsOthers(ts, dest, taskId, order);
      assert after[i] == ts[i].(order := after[i].order);
    } else {
      CrossBoardKeepsOthers(ts, i, dest, order);
      CrossBoardSource(ts, i, dest, order);
      CrossBoardDest(ts, i, dest, order);
      CrossBoardMoved(ts, i, dest, order);
      assert after[|ts| - 1].id == taskId;
    }
  }
}
