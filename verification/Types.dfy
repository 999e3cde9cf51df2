/** The rows of the workflow tables: a task, its nodes in sort_order, and the audit trail. */
module Types {

  datatype Option<+T> = None | Some(value: T)

  type Id = int    // the UUID of an agent or a member
  type Time = int  // seconds

  datatype Status = Pending | InProgress | Completed | Rejected | Manual

  datatype NodeType = Standard | Review | ManualStep

  datatype AssigneeType = AnyAgent | SpecificAgent | Human | Auto

  datatype TaskStatus = Active | Finished | Cancelled

  datatype Action = ApproveAction | RejectAction | ManualAction | ReclaimAction | TimeoutAction | AckAction

  /** A row of task_nodes. UNIQUE(task_id, sort_order) makes a node's rank in sort_order
      an identity within its task, so a task is a sequence of rows and depends_on holds ranks. */
  datatype Node = Node(
    nodeType: NodeType,
    maxRejectCycles: int,
    timeoutMinutes: int,
    dependsOn: seq<nat>,
    status: Status,
    assigneeType: AssigneeType,
    assignee: Option<Id>,
    reservedFor: Option<Id>,
    reservedUntil: Option<Time>,
    rejectCount: int,
    version: int,
    completedAt: Option<Time>,
    completedBy: Option<Id>)
  {
    /** The reject limit the service applies to this node as a roll-back target. */
    function RejectLimit(): (r: int)
      ensures r > 0
    {
      if maxRejectCycles > 0 then maxRejectCycles else 5
    }
  }

  /** A row of node_transitions. */
  datatype Transition = Transition(node: nat, from: Status, to: Status, action: Action)

  /** One task with its nodes and audit trail. */
  datatype Db = Db(status: TaskStatus, nodes: seq<Node>, log: seq<Transition>)

  /** The linear-predecessor condition: the first node, or the node before it is completed. */
  predicate LinearReady(ns: seq<Node>, i: nat)
    requires i < |ns|
  {
    i == 0 || ns[i - 1].status == Completed
  }

  /** The dependency condition: every depends_on entry is a completed node. */
  predicate DependenciesCompleted(ns: seq<Node>, i: nat)
    requires i < |ns|
  {
    forall k :: 0 <= k < |ns[i].dependsOn| ==>
      ns[i].dependsOn[k] < |ns| && ns[ns[i].dependsOn[k]].status == Completed
  }

  predicate PrefixCompleted(ns: seq<Node>, i: nat)
    requires i <= |ns|
  {
    forall j :: 0 <= j < i ==> ns[j].status == Completed
  }

  /** The answer of GetPrevStandardNodeAssignee: the assignee of the nearest standard node
      before rank i that has one. */
  function PrevStandardAssignee(ns: seq<Node>, i: nat): (r: Option<Id>)
    requires i <= |ns|
    ensures r.Some? <==> exists j :: 0 <= j < i && ns[j].nodeType == Standard && ns[j].assignee.Some?
    ensures r.Some? ==>
      (exists j :: 0 <= j < i && ns[j].nodeType == Standard && ns[j].assignee == r &&
                   (forall k :: j < k < i ==> !(ns[k].nodeType == Standard && ns[k].assignee.Some?)))
  {
    if i == 0 then None
    else if ns[i - 1].nodeType == Standard && ns[i - 1].assignee.Some? then ns[i - 1].assignee
    else PrevStandardAssignee(ns, i - 1)
  }

  /** The first node that is not completed, or the number of nodes. */
  function Frontier(ns: seq<Node>): (f: nat)
    ensures f <= |ns| && PrefixCompleted(ns, f)
    ensures f < |ns| ==> ns[f].status != Completed
  {
    if |ns| == 0 || ns[0].status != Completed then 0
    else
      var f := 1 + Frontier(ns[1..]);
      assert forall j :: 1 <= j < f ==> ns[j] == ns[1..][j - 1];
      f
  }
}
