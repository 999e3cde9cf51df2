/** The kanban board: tasks grouped by their current node. */
module Board {
  import opened Types
  import opened Writes
  import opened Protocol
  import opened Rollback
  import opened Progress

  datatype Column = PendingColumn | InProgressColumn | ManualColumn | CompletedColumn

  datatype TaskRow = TaskRow(id: int, status: TaskStatus)

  /** A row of the node query; the query returns the nodes of all tasks together, by sort_order. */
  datatype NodeRow = NodeRow(taskId: int, node: Node)

  datatype Card = Card(task: int, shown: Option<Node>)

  function MapNodeStatusToColumn(status: Status): (c: Column)
    ensures c == ManualColumn <==> status == Rejected || status == Manual
    ensures c == CompletedColumn <==> status == Completed
    ensures c == InProgressColumn <==> status == InProgress
  {
    match status
    case Pending => PendingColumn
    case InProgress => InProgressColumn
    case Completed => CompletedColumn
    case Rejected => ManualColumn
    case Manual => ManualColumn
  }

  // ----- what the board shows

  function NodesOf(rows: seq<NodeRow>, id: int): seq<Node> {
    if |rows| == 0 then []
    else
      var last := rows[|rows| - 1];
      NodesOf(rows[..|rows| - 1], id) + if last.taskId == id then [last.node] else []
  }

  /** A task's nodes come in the order of the query. */
  lemma {:induction false} NodesInOrder(a: seq<NodeRow>, b: seq<NodeRow>, id: int)
    ensures NodesOf(a + b, id) == NodesOf(a, id) + NodesOf(b, id)
    ensures |a| == 1 ==> NodesOf(a, id) == if a[0].taskId == id then [a[0].node] else []
  {
    if |b| == 0 {
      assert a + b == a;
    } else {
      assert (a + b)[..|a + b| - 1] == a + b[..|b| - 1];
      NodesInOrder(a, b[..|b| - 1], id);
    }
  }

  /** The node a card shows: the frontier, or the last node when all are completed. */
  function Shown(ns: seq<Node>): Option<Node> {
    if |ns| == 0 then None
    else if Frontier(ns) < |ns| then Some(ns[Frontier(ns)]) else Some(ns[|ns| - 1])
  }

  /** The column of a task; None when it is not on the board. */
  function ColumnOf(status: TaskStatus, ns: seq<Node>): Option<Column> {
    match status
    case Finished => Some(CompletedColumn)
    case Cancelled => None
    case Active => Some(if |ns| == 0 then PendingColumn else MapNodeStatusToColumn(Shown(ns).value.status))
  }

  /** What one task adds to a column. */
  function NewCards(t: TaskRow, ns: seq<Node>, c: Column): seq<Card> {
    if ColumnOf(t.status, ns) == Some(c) then [Card(t.id, if t.status == Finished then None else Shown(ns))] else []
  }

  function TaskColumn(t: TaskRow, rows: seq<NodeRow>): Option<Column> {
    ColumnOf(t.status, NodesOf(rows, t.id))
  }

  function CardOf(t: TaskRow, rows: seq<NodeRow>): Card {
    Card(t.id, if t.status == Finished then None else Shown(NodesOf(rows, t.id)))
  }

  /** The indices of the tasks of one column among the first n. */
  function Picks(tasks: seq<TaskRow>, rows: seq<NodeRow>, c: Column, n: nat): (p: seq<nat>)
    requires n <= |tasks|
    ensures forall k :: 0 <= k < |p| ==> p[k] < n && TaskColumn(tasks[p[k]], rows) == Some(c)
    ensures forall k, m :: 0 <= k < m < |p| ==> p[k] < p[m]
    ensures forall i: nat :: i < n && TaskColumn(tasks[i], rows) == Some(c) ==> i in p
  {
    if n == 0 then []
    else Picks(tasks, rows, c, n - 1) + if TaskColumn(tasks[n - 1], rows) == Some(c) then [n - 1] else []
  }

  function Cards(tasks: seq<TaskRow>, rows: seq<NodeRow>, picks: seq<nat>): seq<Card>
    requires forall k :: 0 <= k < |picks| ==> picks[k] < |tasks|
  {
    seq(|picks|, k requires 0 <= k < |picks| => CardOf(tasks[picks[k]], rows))
  }

  /** The cards of one column for the first n tasks. */
  function ColumnCards(tasks: seq<TaskRow>, rows: seq<NodeRow>, c: Column, n: nat): seq<Card>
    requires n <= |tasks|
  {
    Cards(tasks, rows, Picks(tasks, rows, c, n))
  }

  lemma OneMoreTask(tasks: seq<TaskRow>, rows: seq<NodeRow>, c: Column, i: nat)
    requires i < |tasks|
    ensures ColumnCards(tasks, rows, c, i + 1) ==
            ColumnCards(tasks, rows, c, i) + NewCards(tasks[i], NodesOf(rows, tasks[i].id), c)
  {
  }

  // ----- the loops

  /** The first node that is not completed, found by the scan, or the last one. */
  method CurrentNode(nodes: seq<Node>) returns (current: Node)
    requires |nodes| > 0
    ensures Some(current) == Shown(nodes)
    ensures exists i ::
      && 0 <= i < |nodes| && nodes[i] == current && PrefixCompleted(nodes, i)
      && (current.status == Completed ==> i == |nodes| - 1)
  {
    for k := 0 to |nodes|
      invariant PrefixCompleted(nodes, k)
    {
      if nodes[k].status != Completed {
        FrontierAt(nodes, k);
        return nodes[k];
      }
    }
    assert Frontier(nodes) == |nodes|;
    return nodes[|nodes| - 1];
  }

  method GroupByTask(rows: seq<NodeRow>) returns (nodesByTask: map<int, seq<Node>>)
    ensures forall id :: NodesOf(rows, id) == if id in nodesByTask then nodesByTask[id] else []
  {
    nodesByTask := map[];
    for k := 0 to |rows|
      invariant forall id :: NodesOf(rows[..k], id) == if id in nodesByTask then nodesByTask[id] else []
    {
      assert rows[..k + 1][..k] == rows[..k];
      var id := rows[k].taskId;
      var sofar := if id in nodesByTask then nodesByTask[id] else [];
      nodesByTask := nodesByTask[id := sofar + [rows[k].node]];
    }
    assert rows[..|rows|] == rows;
  }

  function EmptyBoard(): (board: map<Column, seq<Card>>)
    ensures forall c: Column :: c in board && board[c] == []
  {
    var board: map<Column, seq<Card>> :=
      map[PendingColumn := [], InProgressColumn := [], ManualColumn := [], CompletedColumn := []];
    assert forall c: Column :: c in board by {
      forall c: Column ensures c in board {
        assert c == PendingColumn || c == InProgressColumn || c == ManualColumn || c == CompletedColumn;
      }
    }
    board
  }

  /** The body of the loop over the tasks. */
  method PlaceTask(before: map<Column, seq<Card>>, t: TaskRow, nodes: seq<Node>) returns (board: map<Column, seq<Card>>)
    requires forall c: Column :: c in before
    ensures forall c: Column :: c in board
    ensures forall c: Column :: board[c] == before[c] + NewCards(t, nodes, c)
    ensures t.status == Cancelled ==> board == before
    ensures t.status == Finished ==>
      board == before[CompletedColumn := before[CompletedColumn] + [Card(t.id, None)]]
    ensures t.status == Active && nodes == [] ==>
      board == before[PendingColumn := before[PendingColumn] + [Card(t.id, None)]]
  {
    board := before;
    if t.status == Finished {
      board := board[CompletedColumn := board[CompletedColumn] + [Card(t.id, None)]];
      return;
    }
    if t.status == Cancelled {
      return;
    }
    if |nodes| == 0 {
      board := board[PendingColumn := board[PendingColumn] + [Card(t.id, None)]];
      return;
    }
    var current := CurrentNode(nodes);
    var column := MapNodeStatusToColumn(current.status);
    board := board[column := board[column] + [Card(t.id, Some(current))]];
  }

  /** One round of the loop, for all columns at once. */
  lemma AllColumnsGrow(tasks: seq<TaskRow>, rows: seq<NodeRow>, i: nat, before: map<Column, seq<Card>>,
                       board: map<Column, seq<Card>>)
    requires i < |tasks|
    requires forall c: Column :: c in before && c in board
    requires forall c: Column :: before[c] == ColumnCards(tasks, rows, c, i)
    requires forall c: Column :: board[c] == before[c] + NewCards(tasks[i], NodesOf(rows, tasks[i].id), c)
    ensures forall c: Column :: board[c] == ColumnCards(tasks, rows, c, i + 1)
  {
    forall c: Column
      ensures board[c] == ColumnCards(tasks, rows, c, i + 1)
    {
      OneMoreTask(tasks, rows, c, i);
    }
  }

  method GetBoardData(tasks: seq<TaskRow>, rows: seq<NodeRow>) returns (board: map<Column, seq<Card>>)
    ensures forall c: Column :: c in board && board[c] == ColumnCards(tasks, rows, c, |tasks|)
  {
    var nodesByTask := GroupByTask(rows);
    board := EmptyBoard();
    for i := 0 to |tasks|
      invariant forall c: Column :: c in board
      invariant forall c: Column :: board[c] == ColumnCards(tasks, rows, c, i)
    {
      var t := tasks[i];
      var placed := PlaceTask(board, t, if t.id in nodesByTask then nodesByTask[t.id] else []);
      AllColumnsGrow(tasks, rows, i, board, placed);
      board := placed;
    }
  }

  // ----- every task once

  /** Card k of column c is about task id. */
  predicate At(tasks: seq<TaskRow>, rows: seq<NodeRow>, c: Column, k: int, id: int) {
    var picks := Picks(tasks, rows, c, |tasks|);
    0 <= k < |picks| && Cards(tasks, rows, picks)[k].task == id
  }

  predicate DistinctTasks(tasks: seq<TaskRow>) {
    forall a, b :: 0 <= a < b < |tasks| ==> tasks[a].id != tasks[b].id
  }

  lemma PickOf(tasks: seq<TaskRow>, rows: seq<NodeRow>, c: Column, k: int, i: nat)
    requires DistinctTasks(tasks) && i < |tasks| && At(tasks, rows, c, k, tasks[i].id)
    ensures Picks(tasks, rows, c, |tasks|)[k] == i && TaskColumn(tasks[i], rows) == Some(c)
  {
  }

  /** The board has a card for a task if and only if the task is not cancelled. */
  lemma OnBoard(tasks: seq<TaskRow>, rows: seq<NodeRow>, i: nat)
    requires DistinctTasks(tasks) && i < |tasks|
    ensures (exists c, k :: At(tasks, rows, c, k, tasks[i].id)) <==> tasks[i].status != Cancelled
  {
    if tasks[i].status != Cancelled {
      var c := TaskColumn(tasks[i], rows).value;
      assert i in Picks(tasks, rows, c, |tasks|);
      var k :| 0 <= k < |Picks(tasks, rows, c, |tasks|)| && Picks(tasks, rows, c, |tasks|)[k] == i;
      assert At(tasks, rows, c, k, tasks[i].id);
    } else if c, k :| At(tasks, rows, c, k, tasks[i].id) {
      PickOf(tasks, rows, c, k, i);
    }
  }

  /** No task has two cards, and within a column the cards follow the query order. */
  lemma ExactlyOnceInOrder(tasks: seq<TaskRow>, rows: seq<NodeRow>, i: nat, j: nat, c: Column, c': Column,
                           k: int, m: int)
    requires DistinctTasks(tasks) && i < |tasks| && j < |tasks|
    requires At(tasks, rows, c, k, tasks[i].id) && At(tasks, rows, c', m, tasks[j].id)
    ensures i == j ==> c == c' && k == m
    ensures c == c' ==> (k < m <==> i < j)
  {
    PickOf(tasks, rows, c, k, i);
    PickOf(tasks, rows, c', m, j);
  }

  // ----- what a column tells about a task

  /** In a linear task a live node is always the one shown. */
  lemma LiveNodeShown(ns: seq<Node>, i: nat)
    requires Linear(ns) && i < |ns| && Live(ns[i])
    ensures Shown(ns) == Some(ns[i])
  {
    assert Open(ns, i);
    FrontierAt(ns, i);
  }

  /** For a task that is worked on by claims, approvals and rejections the column is exact: in
      progress, waiting for a human and completed mean what they say, and a pending card is a task
      with a node that is next in line. */
  lemma ColumnsAreExact(ds: seq<Db>, ws: seq<Write>, k: nat)
    requires WorkRun(ds, ws) && k < |ds| && !AllCompleted(ds[0])
    ensures var d, column := ds[k], ColumnOf(ds[k].status, ds[k].nodes);
      && (column == None <==> d.status == Cancelled)
      && (column == Some(CompletedColumn) <==> d.status == Finished)
      && (d.status == Active ==>
            && (column == Some(InProgressColumn) <==> exists i :: 0 <= i < |d.nodes| && d.nodes[i].status == InProgress)
            && (column == Some(ManualColumn) <==> exists i :: 0 <= i < |d.nodes| && d.nodes[i].status == Manual)
            && (column == Some(PendingColumn) <==>
                  exists i :: 0 <= i < |d.nodes| && d.nodes[i].status == Pending && PrefixCompleted(d.nodes, i)))
  {
    var d := ds[k];
    if d.status == Active {
      SaneRun(ds, ws, k);
      ActiveHasWork(ds, ws, k);
      var ns, f := d.nodes, Frontier(d.nodes);
      assert f < |ns| && ns[f].status != Rejected;
      forall i | 0 <= i < |ns| && (Live(ns[i]) || (ns[i].status == Pending && PrefixCompleted(ns, i)))
        ensures i == f
      {
        assert Open(ns, i);
        FrontierAt(ns, i);
      }
    }
  }
}
