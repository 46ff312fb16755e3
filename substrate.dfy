/** The parts of Jenkins that the lenient-shutdown plugin reads, as plain values:
    queue items and their causes, runs, executors, computers, nodes, and one
    snapshot of the whole build queue. The plugin never changes these; what it
    asks Jenkins to do (take a computer offline) is returned as an outcome. */
module Substrate {

  datatype Option<+T> = None | Some(value: T)

  /** Queue item ids. Jenkins numbers queue items from a counter that starts at
      one; the plugin stores them as Integer in some places and as Long in
      others, and the model uses one unbounded type. */
  type Id = nat

  /** A Jenkins user; UnknownUser is the user User.getUnknown() returns. */
  datatype User = UnknownUser | NamedUser(userId: string)

  /** What the instanceof tests on a queue task can tell apart. An
      AbstractProject (a freestyle or matrix project) is also a Job; a pipeline
      job is a Job that is not an AbstractProject; other tasks are neither. */
  datatype TaskKind = AbstractProjectTask | OtherJobTask | NonJobTask

  datatype Task = Task(kind: TaskKind, fullName: string)

  predicate IsAbstractProject(t: Task) { t.kind == AbstractProjectTask }

  predicate IsJob(t: Task) { t.kind != NonJobTask }

  /** A run: its queue id, whether it is an AbstractBuild, whether it is still
      building, and the name of the node it was built on ("" for the master). */
  datatype Run = Run(queueId: Id, isAbstractBuild: bool, building: bool, builtOn: string)

  /** A cause of a queue item. An UpstreamCause whose run has been deleted no
      longer resolves: its run is None. */
  datatype Cause = UpstreamCause(upstreamRun: Option<Run>) | OtherCause

  /** The subclass of Queue.Item: BuildableItem, WaitingItem (still in its
      quiet period) or any other (blocked or left). */
  datatype ItemState = Buildable | Waiting | OtherState

  /** A queue item. upstreamProjectNames is the value of
      QueueUtils.getUpstreamProjectNames(item), a helper that is not part of
      this model. */
  datatype Item = Item(id: Id, task: Task, causes: seq<Cause>, state: ItemState,
                       upstreamProjectNames: set<string>)

  /** An executor: whether it is busy and what it is currently executing. */
  datatype Executor = Executor(busy: bool, executable: Option<Run>)

  datatype Computer = Computer(online: bool, temporarilyOffline: bool,
                               executors: seq<Executor>, oneOffExecutors: seq<Executor>)

  /** A node and its computer, if it has one. Nodes are told apart by name. */
  datatype Node = Node(name: string, computer: Option<Computer>)

  /** The node name of the Jenkins master. */
  const MasterName: string := ""

  /** One snapshot of Jenkins as the plugin sees it.
      - accepts holds (node name, item id) exactly when Node.canTake on that
        node returns null for that buildable item;
      - allowAllJobs is the value of ShutdownConfiguration.isAllowAllJobs();
      - the four name sets are the values of QueueUtils.getRunningProjectNames,
        getPermittedQueueProjectNames and their per-node versions.
      These helpers are not part of this model; the snapshot fixes their values. */
  datatype Jenkins = Jenkins(
    masterComputer: Option<Computer>,
    nodes: seq<Node>,
    queue: seq<Item>,
    accepts: set<(string, Id)>,
    allowAllJobs: bool,
    runningProjectNames: set<string>,
    permittedQueueProjectNames: set<string>,
    nodeRunningProjectNames: string -> set<string>,
    nodePermittedQueueProjectNames: string -> set<string>)
  {
    /** Jenkins itself, seen as the master node. */
    function Master(): Node { Node(MasterName, masterComputer) }

    /** The agents followed by the master, the set both node loops visit. */
    function AllNodes(): (ns: seq<Node>)
      ensures |ns| == |nodes| + 1 && ns[|nodes|] == Master()
      ensures ns[..|nodes|] == nodes
    {
      nodes + [Master()]
    }

    /** Jenkins.getNode(name), with the special case for "" (the master) that
        every caller in the plugin applies. */
    function GetNode(name: string): (r: Option<Node>)
      ensures name == MasterName ==> r == Some(Master())
      ensures r.Some? ==> r.value.name == name
    {
      if name == MasterName then Some(Master()) else FindNode(nodes, name)
    }

    /** Queue.getItem(id): the queued item with that id, if any. */
    function GetItem(id: Id): (r: Option<Item>)
      ensures r.Some? <==> exists k :: 0 <= k < |queue| && queue[k].id == id
      ensures r.Some? ==> r.value in queue && r.value.id == id
    {
      FindItem(queue, id)
    }
  }

  /** The first node with the given name. */
  function FindNode(ns: seq<Node>, name: string): (r: Option<Node>)
    ensures r.Some? ==> r.value in ns && r.value.name == name
  {
    if ns == [] then None
    else if ns[0].name == name then Some(ns[0])
    else FindNode(ns[1..], name)
  }

  /** A node is found exactly when some node in the list has the name. */
  lemma {:induction false} FindNodeFound(ns: seq<Node>, name: string)
    ensures FindNode(ns, name).Some? <==> exists k :: 0 <= k < |ns| && ns[k].name == name
  {
    if ns != [] && ns[0].name != name {
      FindNodeFound(ns[1..], name);
      assert forall k :: 1 <= k < |ns| ==> ns[k] == ns[1..][k - 1];
    }
  }

  /** Any name other than the master's resolves exactly when an agent has it. */
  lemma GetNodeFound(j: Jenkins, name: string)
    requires name != MasterName
    ensures j.GetNode(name).Some? <==> exists k :: 0 <= k < |j.nodes| && j.nodes[k].name == name
  {
    FindNodeFound(j.nodes, name);
  }

  /** The first queued item with the given id. */
  function FindItem(q: seq<Item>, id: Id): (r: Option<Item>)
    ensures r.Some? <==> exists k :: 0 <= k < |q| && q[k].id == id
    ensures r.Some? ==> r.value in q && r.value.id == id
  {
    if q == [] then None
    else if q[0].id == id then Some(q[0])
    else
      var r := FindItem(q[1..], id);
      assert forall k :: 1 <= k < |q| ==> q[k] == q[1..][k - 1];
      r
  }
}

/** The localised texts the plugin shows, by key. */
module Messages {
  datatype Message =
    | GoingToShutDown
    | ActivateShutdownTitle
    | CancelShutdownTitle
    | Description
    | TakeOfflineLeniently
    | CancelOfflineLeniently
    | AllQueuedItemsAllowed
    | OnlyUpstreamItemsAllowed
    | WhiteListedProjectsAllowed
    | WhiteListedProjectsNotAllowed
    | ErrAlreadyShuttingDown
    | ErrNotInShutdown
    | ShutDownCanceled
    | IsAboutToShutDown
}
