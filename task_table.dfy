/** The Task table: queries, row updates, and the renumbering they add up to. */
module TaskTable {
  import opened Types
  import opened JsArray
  import Ordering

  /** `(x) => x.id === id`. */
  function HasId(id: Id): Task -> bool {
    (t: Task) => t.id == id
  }

  /** `(x) => x.order === order`. */
  function HasOrder(order: int): Task -> bool {
    (t: Task) => t.order == order
  }

  /** `where: { id, userId }`. */
  function OwnedTask(id: Id, userId: Id): Task -> bool {
    (t: Task) => t.id == id && t.userId == userId
  }

  /** The primary key: no two rows share an id. */
  ghost predicate UniqueIds(ts: seq<Task>) {
    forall i, j :: 0 <= i < j < |ts| ==> ts[i].id != ts[j].id
  }

  /** The `order` column of a list of rows. */
  function Orders(ts: seq<Task>): seq<int> {
    seq(|ts|, i requires 0 <= i < |ts| => ts[i].order)
  }

  /** Rows whose orders are distinct and lie in 1..n have dense orders. */
  lemma OrdersDense(ts: seq<Task>)
    requires forall i :: 0 <= i < |ts| ==> 1 <= ts[i].order <= |ts|
    requires forall i, j :: 0 <= i < j < |ts| ==> ts[i].order != ts[j].order
    ensures Ordering.Dense(Orders(ts))
  {
  }

  /** A row with a new id can be appended without breaking the primary key. */
  lemma AppendUnique(ts: seq<Task>, t: Task)
    requires UniqueIds(ts) && forall u :: u in ts ==> u.id != t.id
    ensures UniqueIds(ts + [t])
  {
    forall i, j | 0 <= i < j < |ts + [t]| ensures (ts + [t])[i].id != (ts + [t])[j].id {
      assert ts[i] in ts;
      if j < |ts| {
        assert (ts + [t])[j] == ts[j];
      }
    }
  }

  /** With unique ids, an id names one row. */
  lemma SameIdSameRow(ts: seq<Task>)
    requires UniqueIds(ts)
    ensures forall t, u :: t in ts && u in ts && t.id == u.id ==> t == u
  {
    forall t, u | t in ts && u in ts && t.id == u.id ensures t == u {
      var i :| 0 <= i < |ts| && ts[i] == t;
      var j :| 0 <= j < |ts| && ts[j] == u;
      assert !(i < j) && !(j < i);
    }
  }

  /** In a list with unique ids, findIndex by id finds each element at its own index. */
  lemma FindIndexById(ts: seq<Task>, i: nat)
    requires UniqueIds(ts) && i < |ts|
    ensures FindIndex(ts, HasId(ts[i].id)) == i
  {
    var r := FindIndex(ts, HasId(ts[i].id));
    assert HasId(ts[i].id)(ts[i]);
    assert r != -1;
  }

  /** `findMany({ where: { boardId } })`: the board's tasks in storage order. */
  function TasksOn(ts: seq<Task>, b: Id): (r: seq<Task>)
    ensures |r| <= |ts|
    ensures forall t :: t in r <==> t in ts && t.boardId == b
  {
    if ts == [] then []
    else
      assert ts == [ts[0]] + ts[1..];
      (if ts[0].boardId == b then [ts[0]] else []) + TasksOn(ts[1..], b)
  }

  /** The filter keeps each task of the board as often as the table holds it, and no other. */
  lemma {:induction false} TasksOnMultiset(ts: seq<Task>, b: Id)
    ensures forall t :: multiset(TasksOn(ts, b))[t] == if t.boardId == b then multiset(ts)[t] else 0
  {
    if ts != [] {
      TasksOnMultiset(ts[1..], b);
      assert ts == [ts[0]] + ts[1..];
      var head := if ts[0].boardId == b then [ts[0]] else [];
      assert TasksOn(ts, b) == head + TasksOn(ts[1..], b);
      assert multiset(ts) == multiset{ts[0]} + multiset(ts[1..]);
    }
  }

  /** `findFirst({ where: { boardId, userId }, ... })` ranges over these rows. */
  function OwnTasksOn(ts: seq<Task>, b: Id, userId: Id): (r: seq<Task>)
    ensures forall t :: t in r <==> t in ts && t.boardId == b && t.userId == userId
  {
    if ts == [] then []
    else
      assert ts == [ts[0]] + ts[1..];
      (if ts[0].boardId == b && ts[0].userId == userId then [ts[0]] else []) + OwnTasksOn(ts[1..], b, userId)
  }

  /** The filter keeps each of the user's tasks on the board as often as the table holds it. */
  lemma {:induction false} OwnTasksOnMultiset(ts: seq<Task>, b: Id, userId: Id)
    ensures forall t :: multiset(OwnTasksOn(ts, b, userId))[t] == if t.boardId == b && t.userId == userId then multiset(ts)[t] else 0
  {
    if ts != [] {
      OwnTasksOnMultiset(ts[1..], b, userId);
      assert ts == [ts[0]] + ts[1..];
      var head := if ts[0].boardId == b && ts[0].userId == userId then [ts[0]] else [];
      assert OwnTasksOn(ts, b, userId) == head + OwnTasksOn(ts[1..], b, userId);
      assert multiset(ts) == multiset{ts[0]} + multiset(ts[1..]);
    }
  }

  /** When every task of the board is the user's, the two queries see the same rows. */
  lemma {:induction false} OwnTasksOnAll(ts: seq<Task>, b: Id, userId: Id)
    requires forall t :: t in ts && t.boardId == b ==> t.userId == userId
    ensures OwnTasksOn(ts, b, userId) == TasksOn(ts, b)
  {
    if ts != [] {
      assert forall t :: t in ts[1..] ==> t in ts;
      OwnTasksOnAll(ts[1..], b, userId);
    }
  }

  lemma {:induction false} TasksOnConcat(a: seq<Task>, c: seq<Task>, b: Id)
    ensures TasksOn(a + c, b) == TasksOn(a, b) + TasksOn(c, b)
  {
    if a == [] {
      assert a + c == c;
    } else {
      assert (a + c)[1..] == a[1..] + c;
      TasksOnConcat(a[1..], c, b);
    }
  }

  lemma {:induction false} TasksOnUnique(ts: seq<Task>, b: Id)
    requires UniqueIds(ts)
    ensures UniqueIds(TasksOn(ts, b))
  {
    if ts != [] {
      var rest := TasksOn(ts[1..], b);
      TasksOnUnique(ts[1..], b);
      if ts[0].boardId == b {
        forall t | t in rest ensures t.id != ts[0].id {
          var j :| 0 <= j < |ts[1..]| && ts[1..][j] == t;
          assert ts[j + 1] == t;
        }
        assert TasksOn(ts, b) == [ts[0]] + rest;
      }
    }
  }

  lemma TasksOnSingle(t: Task, b: Id)
    ensures TasksOn([t], b) == if t.boardId == b then [t] else []
  {
    assert [t][1..] == [];
  }

  lemma TasksOnSplit(ts: seq<Task>, i: nat, c: Id)
    requires i < |ts|
    ensures TasksOn(ts, c) == TasksOn(ts[..i], c) + TasksOn([ts[i]], c) + TasksOn(ts[i + 1..], c)
    ensures TasksOn(RemoveAt(ts, i), c) == TasksOn(ts[..i], c) + TasksOn(ts[i + 1..], c)
  {
    assert ts == ts[..i] + ([ts[i]] + ts[i + 1..]);
    assert RemoveAt(ts, i) == ts[..i] + ts[i + 1..];
    TasksOnConcat(ts[..i], [ts[i]] + ts[i + 1..], c);
    TasksOnConcat([ts[i]], ts[i + 1..], c);
    TasksOnConcat(ts[..i], ts[i + 1..], c);
  }

  /** Removing row `i` removes it from its board's list of tasks, at the index it had there. */
  lemma TasksOnRemoveAt(ts: seq<Task>, i: nat)
    requires i < |ts|
    ensures var b := ts[i].boardId; var k := |TasksOn(ts[..i], b)|;
      && k < |TasksOn(ts, b)| && TasksOn(ts, b)[k] == ts[i]
      && TasksOn(RemoveAt(ts, i), b) == RemoveAt(TasksOn(ts, b), k)
  {
    var b := ts[i].boardId;
    TasksOnSplit(ts, i, b);
    assert TasksOn([ts[i]], b) == [ts[i]];
    RemoveAtJoin(TasksOn(ts[..i], b), ts[i], TasksOn(ts[i + 1..], b));
  }

  /** Removing row `i` leaves the lists of the other boards as they were. */
  lemma TasksOnRemoveAtOther(ts: seq<Task>, i: nat, c: Id)
    requires i < |ts| && c != ts[i].boardId
    ensures TasksOn(RemoveAt(ts, i), c) == TasksOn(ts, c)
  {
    TasksOnSplit(ts, i, c);
    TasksOnSingle(ts[i], c);
    assert TasksOn(ts[..i], c) + [] + TasksOn(ts[i + 1..], c) == TasksOn(ts[..i], c) + TasksOn(ts[i + 1..], c);
  }

  /** The `data` of the `update`/`updateMany` calls the actions issue, with their `where`. */
  datatype RowEdit =
    | Decrement(board: Id, above: int)        // tasks of `board` with order > `above`: order - 1
    | SetOrder(id: Id, order: int)            // the task `id`: order := `order`
    | SetDescription(id: Id, description: string)  // the task `id`: description := `description`
    | RankBy(list: seq<Task>, upTo: nat)       // the task at index k < `upTo` of `list`: order := k + 1

  /** The index of the first row of `list` carrying `id`, or -1: what `findIndex` by id
      returns (IndexOfIdIsFindIndex). It is written out, without quantifiers, so that `Edit`
      can use it without handing the solver `FindIndex`'s contract at every row; its
      properties are stated as lemmas, called where needed. */
  function IndexOfId(list: seq<Task>, id: Id): (k: int)
    ensures -1 <= k < |list|
  {
    if list == [] then -1
    else if list[0].id == id then 0
    else
      var r := IndexOfId(list[1..], id);
      if r == -1 then -1 else r + 1
  }

  lemma {:induction false} IndexOfIdSpec(list: seq<Task>, id: Id)
    ensures var k := IndexOfId(list, id);
      && (k == -1 <==> forall j :: 0 <= j < |list| ==> list[j].id != id)
      && (0 <= k ==> list[k].id == id && forall j :: 0 <= j < k ==> list[j].id != id)
  {
    if list != [] && list[0].id != id {
      IndexOfIdSpec(list[1..], id);
      assert forall j :: 1 <= j < |list| ==> list[j] == list[1..][j - 1];
    }
  }

  lemma {:induction false} IndexOfIdIsFindIndex(list: seq<Task>, id: Id)
    ensures IndexOfId(list, id) == FindIndex(list, HasId(id))
  {
    if list != [] && list[0].id != id {
      IndexOfIdIsFindIndex(list[1..], id);
    }
  }

  /** In a list with unique ids, each row's id is found at the row's own index. */
  lemma IndexOfIdAt(list: seq<Task>, at: nat)
    requires UniqueIds(list) && at < |list|
    ensures IndexOfId(list, list[at].id) == at
  {
    IndexOfIdSpec(list, list[at].id);
  }

  /** An id carried by no row of the list is not found. */
  lemma IndexOfIdAbsent(list: seq<Task>, id: Id)
    requires forall u :: u in list ==> u.id != id
    ensures IndexOfId(list, id) == -1
  {
    IndexOfIdSpec(list, id);
    assert forall j :: 0 <= j < |list| ==> list[j] in list;
  }

  /** One row after an edit. No edit touches the id, the board or the owner of a row. */
  function Edit(e: RowEdit, t: Task): (r: Task)
    ensures r == t.(order := r.order, description := r.description)
    ensures !e.SetDescription? ==> r.description == t.description
    ensures e.SetDescription? ==> r.order == t.order
  {
    match e
    case Decrement(b, p) => if t.boardId == b && t.order > p then t.(order := t.order - 1) else t
    case SetOrder(id, o) => if t.id == id then t.(order := o) else t
    case SetDescription(id, d) => if t.id == id then t.(description := d) else t
    case RankBy(list, n) =>
      var k := IndexOfId(list, t.id);
      if 0 <= k < n then t.(order := k + 1) else t
  }

  /** Every row of the table after one edit. */
  function UpdateRows(ts: seq<Task>, e: RowEdit): (r: seq<Task>)
    ensures |r| == |ts|
    ensures forall i :: 0 <= i < |ts| ==> r[i] == Edit(e, ts[i])
  {
    if ts == [] then [] else [Edit(e, ts[0])] + UpdateRows(ts[1..], e)
  }

  lemma UpdateRowsUnique(ts: seq<Task>, e: RowEdit)
    requires UniqueIds(ts)
    ensures UniqueIds(UpdateRows(ts, e))
  {
  }

  lemma UpdateRowsConcat(a: seq<Task>, c: seq<Task>, e: RowEdit)
    ensures UpdateRows(a + c, e) == UpdateRows(a, e) + UpdateRows(c, e)
  {
    var l := UpdateRows(a + c, e);
    var r := UpdateRows(a, e) + UpdateRows(c, e);
    forall i | 0 <= i < |l| ensures l[i] == r[i] {
      if i < |a| {
        assert (a + c)[i] == a[i];
      } else {
        assert (a + c)[i] == c[i - |a|];
      }
    }
  }

  /** Filtering by board and editing rows commute, since edits keep every row's board. */
  lemma {:induction false} TasksOnUpdate(ts: seq<Task>, e: RowEdit, b: Id)
    ensures TasksOn(UpdateRows(ts, e), b) == UpdateRows(TasksOn(ts, b), e)
  {
    if ts != [] {
      var head, tail := [ts[0]], ts[1..];
      assert ts == head + tail;
      assert UpdateRows(ts, e) == UpdateRows(head, e) + UpdateRows(tail, e) by {
        UpdateRowsConcat(head, tail, e);
      }
      calc {
        TasksOn(UpdateRows(ts, e), b);
        { TasksOnConcat(UpdateRows(head, e), UpdateRows(tail, e), b); }
        TasksOn(UpdateRows(head, e), b) + TasksOn(UpdateRows(tail, e), b);
        { TasksOnUpdate(tail, e, b); }
        TasksOn(UpdateRows(head, e), b) + UpdateRows(TasksOn(tail, b), e);
        { assert TasksOn(UpdateRows(head, e), b) == UpdateRows(TasksOn(head, b), e); }
        UpdateRows(TasksOn(head, b), e) + UpdateRows(TasksOn(tail, b), e);
        { UpdateRowsConcat(TasksOn(head, b), TasksOn(tail, b), e); }
        UpdateRows(TasksOn(head, b) + TasksOn(tail, b), e);
        { TasksOnConcat(head, tail, b); }
        UpdateRows(TasksOn(ts, b), e);
      }
    }
  }

  /** The decrement of one board leaves the rows of every other board alone. */
  lemma DecrementOtherBoard(ts: seq<Task>, b: Id, p: int)
    requires forall t :: t in ts ==> t.boardId != b
    ensures UpdateRows(ts, Decrement(b, p)) == ts
  {
    forall i | 0 <= i < |ts| ensures Edit(Decrement(b, p), ts[i]) == ts[i] {
      assert ts[i] in ts;
    }
  }

  /** On the rows of one board, the decrement closes the gap above `p` in their orders. */
  lemma OrdersDecrement(ts: seq<Task>, b: Id, p: int)
    requires forall t :: t in ts ==> t.boardId == b
    ensures Orders(UpdateRows(ts, Decrement(b, p))) == Ordering.CloseGap(Orders(ts), p)
  {
    forall i | 0 <= i < |ts|
      ensures Orders(UpdateRows(ts, Decrement(b, p)))[i] == Ordering.CloseGap(Orders(ts), p)[i]
    {
      assert ts[i] in ts;
    }
  }

  lemma OrdersRemoveAt(ts: seq<Task>, k: nat)
    requires k < |ts|
    ensures Orders(RemoveAt(ts, k)) == RemoveAt(Orders(ts), k)
  {
  }

  /** Ranking by the first zero entries of a list changes nothing. */
  lemma RankByNone(ts: seq<Task>, list: seq<Task>)
    ensures UpdateRows(ts, RankBy(list, 0)) == ts
  {
  }

  /** Writing order k + 1 to the k-th element of a list extends the ranking by one. */
  lemma RankByStep(ts: seq<Task>, list: seq<Task>, k: nat)
    requires UniqueIds(list) && k < |list|
    ensures UpdateRows(UpdateRows(ts, RankBy(list, k)), SetOrder(list[k].id, k + 1))
         == UpdateRows(ts, RankBy(list, k + 1))
  {
    IndexOfIdAt(list, k);
    forall i | 0 <= i < |ts|
      ensures Edit(SetOrder(list[k].id, k + 1), Edit(RankBy(list, k), ts[i])) == Edit(RankBy(list, k + 1), ts[i])
    {
      IndexOfIdSpec(list, ts[i].id);
    }
  }

  /** Rows whose id is not in the list keep their order. */
  lemma RankByOutside(ts: seq<Task>, list: seq<Task>, n: nat)
    requires forall t, u :: t in ts && u in list ==> t.id != u.id
    ensures UpdateRows(ts, RankBy(list, n)) == ts
  {
    forall i | 0 <= i < |ts| ensures Edit(RankBy(list, n), ts[i]) == ts[i] {
      assert ts[i] in ts;
      IndexOfIdAbsent(list, ts[i].id);
    }
  }

  /** Ranking a list by itself: its k-th element gets order k + 1. */
  lemma RankBySelf(list: seq<Task>)
    requires UniqueIds(list)
    ensures var r := UpdateRows(list, RankBy(list, |list|));
      forall k :: 0 <= k < |list| ==> r[k] == list[k].(order := k + 1)
    ensures Ordering.Dense(Orders(UpdateRows(list, RankBy(list, |list|))))
  {
    var r := UpdateRows(list, RankBy(list, |list|));
    forall k | 0 <= k < |list| ensures r[k] == list[k].(order := k + 1) {
      RankByAt(list, list, k, k);
    }
    var os := Orders(r);
    assert forall k :: 0 <= k < |os| ==> os[k] == k + 1;
    Ordering.CountingDense(os);
  }

  /** Some row of `list` carries `id`. */
  ghost predicate IdIn(list: seq<Task>, id: Id) {
    exists j :: 0 <= j < |list| && list[j].id == id
  }

  /** A row whose id is in the list gets one more than the index of that id in the list. */
  lemma RankByFoundRow(ts: seq<Task>, list: seq<Task>, i: nat)
    requires i < |ts| && IdIn(list, ts[i].id)
    ensures var k := IndexOfId(list, ts[i].id);
      && 0 <= k < |list| && list[k].id == ts[i].id
      && UpdateRows(ts, RankBy(list, |list|))[i] == ts[i].(order := k + 1)
  {
    IndexOfIdSpec(list, ts[i].id);
  }

  /** A row whose id is at index `at` of a list of unique ids gets order `at + 1`. */
  lemma RankByAt(ts: seq<Task>, list: seq<Task>, at: nat, j: nat)
    requires UniqueIds(list) && at < |list| && j < |ts| && ts[j].id == list[at].id
    ensures UpdateRows(ts, RankBy(list, |list|))[j] == ts[j].(order := at + 1)
  {
    IndexOfIdAt(list, at);
  }

  /** Every row carrying the id at index `at` of a list of unique ids gets order `at + 1`. */
  lemma RankByAtAll(ts: seq<Task>, list: seq<Task>, at: nat)
    requires UniqueIds(list) && at < |list|
    ensures forall j :: 0 <= j < |ts| && ts[j].id == list[at].id ==>
      UpdateRows(ts, RankBy(list, |list|))[j] == ts[j].(order := at + 1)
  {
    forall j | 0 <= j < |ts| && ts[j].id == list[at].id
      ensures UpdateRows(ts, RankBy(list, |list|))[j] == ts[j].(order := at + 1)
    {
      RankByAt(ts, list, at, j);
    }
  }

  /** Ranking by a list holding every row's id gives each row one more than the index of its
      id in the list. */
  lemma RankByRows(ts: seq<Task>, list: seq<Task>, r: seq<Task>)
    requires forall i :: 0 <= i < |ts| ==> IdIn(list, ts[i].id)
    requires r == UpdateRows(ts, RankBy(list, |list|))
    ensures forall i :: 0 <= i < |r| ==> 1 <= r[i].order <= |list| && list[r[i].order - 1].id == ts[i].id
  {
    forall i | 0 <= i < |r| ensures 1 <= r[i].order <= |list| && list[r[i].order - 1].id == ts[i].id {
      RankByFoundRow(ts, list, i);
    }
  }

  /** Rows that each point, by order - 1, at an entry of the list carrying their own id, with
      ids unique, have dense orders. */
  lemma PointedOrdersDense(r: seq<Task>, ts: seq<Task>, list: seq<Task>)
    requires UniqueIds(ts) && |r| == |ts| == |list|
    requires forall i :: 0 <= i < |r| ==> 1 <= r[i].order <= |list| && list[r[i].order - 1].id == ts[i].id
    ensures Ordering.Dense(Orders(r))
  {
    forall i, j | 0 <= i < j < |r| ensures r[i].order != r[j].order {
      assert ts[i].id != ts[j].id;
    }
    OrdersDense(r);
  }

  lemma RankByDense(ts: seq<Task>, list: seq<Task>, r: seq<Task>)
    requires UniqueIds(ts) && |list| == |ts|
    requires forall i :: 0 <= i < |ts| ==> IdIn(list, ts[i].id)
    requires r == UpdateRows(ts, RankBy(list, |list|))
    ensures Ordering.Dense(Orders(r))
  {
    RankByRows(ts, list, r);
    PointedOrdersDense(r, ts, list);
  }
}
