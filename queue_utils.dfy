/** Queries on the build queue and on running builds (QueueUtils). Each query
    is a declarative function, and a method with the source's loop that is
    proved to compute it. */
module QueueUtils {
  import opened Substrate

  /** Whether the plugin applies to a task at all: Jobs when allowAllJobs is
      set, only AbstractProjects otherwise. */
  function IsApplicable(task: Task, allowAllJobs: bool): (r: bool)
    ensures IsAbstractProject(task) ==> r
    ensures !IsJob(task) ==> !r
    ensures task.kind == OtherJobTask ==> (r <==> allowAllJobs)
  {
    if allowAllJobs then IsJob(task) else IsAbstractProject(task)
  }

  // ---------------------------------------------------------------------------
  // Upstream causes

  /** An UpstreamCause whose run still exists. */
  predicate Resolves(c: Cause)
  {
    c.UpstreamCause? && c.upstreamRun.Some?
  }

  /** The queue ids of the runs behind the item's resolving upstream causes
      (one level only). */
  function UpstreamQueueIds(causes: seq<Cause>): set<Id>
    decreases |causes|
  {
    if causes == [] then {}
    else
      var n := |causes| - 1;
      var last := causes[n];
      UpstreamQueueIds(causes[..n]) + (if Resolves(last) then {last.upstreamRun.value.queueId} else {})
  }

  /** An id is an upstream queue id exactly when some resolving upstream cause
      of the item points at a run with that queue id. */
  lemma {:induction false} UpstreamQueueIdsMembers(causes: seq<Cause>, id: Id)
    ensures id in UpstreamQueueIds(causes) <==>
      exists k :: 0 <= k < |causes| && Resolves(causes[k]) && causes[k].upstreamRun.value.queueId == id
    decreases |causes|
  {
    if causes != [] {
      var n := |causes| - 1;
      UpstreamQueueIdsMembers(causes[..n], id);
      assert forall k :: 0 <= k < n ==> causes[..n][k] == causes[k];
    }
  }

  /** The AbstractBuilds behind the item's resolving upstream causes. */
  function UpstreamBuilds(causes: seq<Cause>): (r: set<Run>)
    ensures forall b :: b in r <==>
      exists k :: 0 <= k < |causes| && Resolves(causes[k]) && causes[k].upstreamRun.value == b && b.isAbstractBuild
    decreases |causes|
  {
    if causes == [] then {}
    else
      var n := |causes| - 1;
      var last := causes[n];
      var r := UpstreamBuilds(causes[..n])
        + (if Resolves(last) && last.upstreamRun.value.isAbstractBuild then {last.upstreamRun.value} else {});
      assert forall k :: 0 <= k < n ==> causes[..n][k] == causes[k];
      r
  }

  method GetUpstreamQueueIds(item: Item) returns (ids: set<Id>)
    ensures ids == UpstreamQueueIds(item.causes)
  {
    ids := {};
    var i := 0;
    while i < |item.causes|
      invariant 0 <= i <= |item.causes|
      invariant ids == UpstreamQueueIds(item.causes[..i])
    {
      var cause := item.causes[i];
      if cause.UpstreamCause? {
        var run := cause.upstreamRun;
        if run.Some? {
          ids := ids + {run.value.queueId};
        }
      }
      assert item.causes[..i + 1][..i] == item.causes[..i];
      i := i + 1;
    }
    assert item.causes[..i] == item.causes;
  }

  method GetUpstreamBuilds(item: Item) returns (builds: set<Run>)
    ensures builds == UpstreamBuilds(item.causes)
  {
    builds := {};
    var i := 0;
    while i < |item.causes|
      invariant 0 <= i <= |item.causes|
      invariant builds == UpstreamBuilds(item.causes[..i])
    {
      var cause := item.causes[i];
      if cause.UpstreamCause? {
        var run := cause.upstreamRun;
        if run.Some? && run.value.isAbstractBuild {
          builds := builds + {run.value};
        }
      }
      assert item.causes[..i + 1][..i] == item.causes[..i];
      i := i + 1;
    }
    assert item.causes[..i] == item.causes;
  }

  // ---------------------------------------------------------------------------
  // Permitted queue items

  /** Some upstream build of the item has finished building. */
  predicate HasFinishedUpstream(item: Item)
  {
    exists b :: b in UpstreamBuilds(item.causes) && !b.building
  }

  /** The test getPermittedQueueItemIds() applies to one queued item. */
  predicate ItemPermitted(item: Item, allowAllQueuedItems: bool, allowAllJobs: bool)
  {
    if IsApplicable(item.task, allowAllJobs) then allowAllQueuedItems || HasFinishedUpstream(item)
    else true
  }

  /** The ids of the permitted items of a queue. */
  function PermittedIds(queue: seq<Item>, allowAllQueuedItems: bool, allowAllJobs: bool): set<Id>
    decreases |queue|
  {
    if queue == [] then {}
    else
      var n := |queue| - 1;
      var last := queue[n];
      PermittedIds(queue[..n], allowAllQueuedItems, allowAllJobs)
        + (if ItemPermitted(last, allowAllQueuedItems, allowAllJobs) then {last.id} else {})
  }

  /** An id is permitted exactly when some queued item with that id passes the test. */
  lemma {:induction false} PermittedIdsMembers(queue: seq<Item>, allowAllQueuedItems: bool, allowAllJobs: bool, id: Id)
    ensures id in PermittedIds(queue, allowAllQueuedItems, allowAllJobs) <==>
      exists k :: 0 <= k < |queue| && queue[k].id == id && ItemPermitted(queue[k], allowAllQueuedItems, allowAllJobs)
    decreases |queue|
  {
    if queue != [] {
      var n := |queue| - 1;
      PermittedIdsMembers(queue[..n], allowAllQueuedItems, allowAllJobs, id);
      assert forall k :: 0 <= k < n ==> queue[..n][k] == queue[k];
      if id in PermittedIds(queue, allowAllQueuedItems, allowAllJobs)
        && !(queue[n].id == id && ItemPermitted(queue[n], allowAllQueuedItems, allowAllJobs)) {
        var k :| 0 <= k < n && queue[..n][k].id == id && ItemPermitted(queue[..n][k], allowAllQueuedItems, allowAllJobs);
        assert queue[k] == queue[..n][k];
      }
    }
  }

  /** The test getPermittedQueueItemIds() applies inside its loop to one
      queued item, with the inner loop that stops at the first finished
      upstream build. */
  method CheckItemPermitted(item: Item, allowAllQueuedItems: bool, allowAllJobs: bool) returns (permitted: bool)
    ensures permitted == ItemPermitted(item, allowAllQueuedItems, allowAllJobs)
  {
    permitted := true;
    if IsApplicable(item.task, allowAllJobs) && !allowAllQueuedItems {
      var builds := GetUpstreamBuilds(item);
      permitted := false;
      var rest := builds;
      while rest != {}
        invariant rest <= builds
        invariant !permitted ==> forall b :: b in builds - rest ==> b.building
        invariant permitted ==> HasFinishedUpstream(item)
        decreases rest
      {
        var b :| b in rest;
        if !b.building {
          permitted := true;
          break;
        }
        rest := rest - {b};
      }
    }
  }

  /** QueueUtils.getPermittedQueueItemIds(): reads allowAllQueuedItems from the
      configuration (passed in) and allowAllJobs from the snapshot. */
  method GetPermittedQueueItemIds(j: Jenkins, allowAllQueuedItems: bool) returns (ids: set<Id>)
    ensures ids == PermittedIds(j.queue, allowAllQueuedItems, j.allowAllJobs)
  {
    var queue := j.queue;
    ids := {};
    var i := 0;
    while i < |queue|
      invariant 0 <= i <= |queue|
      invariant ids == PermittedIds(queue[..i], allowAllQueuedItems, j.allowAllJobs)
    {
      var item := queue[i];
      var permitted := CheckItemPermitted(item, allowAllQueuedItems, j.allowAllJobs);
      if permitted {
        ids := ids + {item.id};
      }
      assert queue[..i + 1][..i] == queue[..i];
      i := i + 1;
    }
    assert queue[..i] == queue;
  }

  /** Queue ids are unique: Jenkins numbers queue items from one counter. */
  predicate UniqueIds(queue: seq<Item>)
  {
    forall m, n | 0 <= m < n < |queue| :: queue[m].id != queue[n].id
  }

  /** With allowAllQueuedItems set, every queued item is permitted. */
  lemma {:induction false} AllowAllQueuedPermitsAll(queue: seq<Item>, allowAllJobs: bool)
    ensures PermittedIds(queue, true, allowAllJobs) == set k | 0 <= k < |queue| :: queue[k].id
  {
    var all := set k | 0 <= k < |queue| :: queue[k].id;
    forall id | id in all ensures id in PermittedIds(queue, true, allowAllJobs) {
      var k :| 0 <= k < |queue| && queue[k].id == id;
      assert ItemPermitted(queue[k], true, allowAllJobs);
      PermittedIdsMembers(queue, true, allowAllJobs, id);
    }
    forall id | id in PermittedIds(queue, true, allowAllJobs) ensures id in all {
      PermittedIdsMembers(queue, true, allowAllJobs, id);
    }
  }

  /** A queued item the plugin does not apply to is always permitted. */
  lemma {:induction false} NotApplicablePermitted(queue: seq<Item>, k: int, allowAllQueuedItems: bool, allowAllJobs: bool)
    requires 0 <= k < |queue| && !IsApplicable(queue[k].task, allowAllJobs)
    ensures queue[k].id in PermittedIds(queue, allowAllQueuedItems, allowAllJobs)
  {
    assert ItemPermitted(queue[k], allowAllQueuedItems, allowAllJobs);
    PermittedIdsMembers(queue, allowAllQueuedItems, allowAllJobs, queue[k].id);
  }

  /** Without allowAllQueuedItems, an applicable item is permitted exactly when
      one of its upstream builds has finished; so an item with no upstream
      build is never permitted. */
  lemma {:induction false} ApplicablePermittedIffFinishedUpstream(queue: seq<Item>, k: int, allowAllJobs: bool)
    requires UniqueIds(queue)
    requires 0 <= k < |queue| && IsApplicable(queue[k].task, allowAllJobs)
    ensures queue[k].id in PermittedIds(queue, false, allowAllJobs) <==> HasFinishedUpstream(queue[k])
    ensures UpstreamBuilds(queue[k].causes) == {} ==> queue[k].id !in PermittedIds(queue, false, allowAllJobs)
  {
    PermittedIdsMembers(queue, false, allowAllJobs, queue[k].id);
    if queue[k].id in PermittedIds(queue, false, allowAllJobs) {
      var m :| 0 <= m < |queue| && queue[m].id == queue[k].id && ItemPermitted(queue[m], false, allowAllJobs);
      assert m == k;
    }
    if HasFinishedUpstream(queue[k]) {
      assert ItemPermitted(queue[k], false, allowAllJobs);
    }
  }

  // ---------------------------------------------------------------------------
  // Placement on other nodes

  /** Another node, online, that accepts the item. */
  predicate TakesElsewhere(j: Jenkins, other: Node, node: Node, item: Item)
  {
    other.computer.Some? && other.computer.value.online && other.name != node.name
    && (other.name, item.id) in j.accepts
  }

  /** canOtherNodeBuild(item, node): a full placement test for a buildable
      item; for an item in its quiet period, true unless a finished upstream
      build ran on the node; false for any other kind of item. */
  predicate OtherNodeCanBuild(j: Jenkins, item: Item, node: Node)
  {
    match item.state
    case Buildable => exists k :: 0 <= k < |j.AllNodes()| && TakesElsewhere(j, j.AllNodes()[k], node, item)
    case Waiting => !exists b :: b in UpstreamBuilds(item.causes) && !b.building && b.builtOn == node.name
    case OtherState => false
  }

  method CanOtherNodeBuild(j: Jenkins, item: Item, node: Node) returns (otherNodeCanBuild: bool)
    ensures otherNodeCanBuild == OtherNodeCanBuild(j, item, node)
  {
    otherNodeCanBuild := false;
    if item.state == Buildable {
      var allNodes := j.AllNodes();
      var k := 0;
      while k < |allNodes|
        invariant 0 <= k <= |allNodes|
        invariant forall m :: 0 <= m < k ==> !TakesElsewhere(j, allNodes[m], node, item)
      {
        var otherNode := allNodes[k];
        if otherNode.computer.Some? && otherNode.computer.value.online && otherNode.name != node.name
          && (otherNode.name, item.id) in j.accepts
        {
          otherNodeCanBuild := true;
          break;
        }
        k := k + 1;
      }
    } else if item.state == Waiting {
      otherNodeCanBuild := true;
      var builds := GetUpstreamBuilds(item);
      var rest := builds;
      while rest != {}
        invariant rest <= builds
        invariant forall b :: b in builds - rest ==> b.building || b.builtOn != node.name
        decreases rest
      {
        var b :| b in rest;
        var isUpstreamFinished := !b.building;
        if isUpstreamFinished && b.builtOn == node.name {
          otherNodeCanBuild := false;
          break;
        }
        rest := rest - {b};
      }
    }
  }

  /** Keep a globally permitted id for the node: the item is still queued and
      no other node can build it. */
  predicate KeptForNode(j: Jenkins, id: Id, node: Node)
  {
    j.GetItem(id).Some? && !OtherNodeCanBuild(j, j.GetItem(id).value, node)
  }

  /** getPermittedQueueItemIds(nodeName); None stands for a null name. */
  function NodePermittedIds(j: Jenkins, nodeName: Option<string>, allowAllQueuedItems: bool): (r: set<Id>)
    ensures r <= PermittedIds(j.queue, allowAllQueuedItems, j.allowAllJobs)
    ensures nodeName.None? ==> r == PermittedIds(j.queue, allowAllQueuedItems, j.allowAllJobs)
    ensures nodeName.Some? && j.GetNode(nodeName.value).None? ==> r == {}
    ensures nodeName.Some? && j.GetNode(nodeName.value).Some? ==>
      forall id :: id in r <==>
        id in PermittedIds(j.queue, allowAllQueuedItems, j.allowAllJobs) && KeptForNode(j, id, j.GetNode(nodeName.value).value)
  {
    var global := PermittedIds(j.queue, allowAllQueuedItems, j.allowAllJobs);
    match nodeName
    case None => global
    case Some(name) =>
      match j.GetNode(name)
      case None => {}
      case Some(node) => set id | id in global && KeptForNode(j, id, node)
  }

  method GetPermittedQueueItemIdsForNode(j: Jenkins, nodeName: Option<string>, allowAllQueuedItems: bool)
    returns (permitted: set<Id>)
    ensures permitted == NodePermittedIds(j, nodeName, allowAllQueuedItems)
  {
    permitted := {};
    if nodeName.None? {
      permitted := GetPermittedQueueItemIds(j, allowAllQueuedItems);
    } else {
      var node := j.GetNode(nodeName.value);
      if node.Some? {
        var all := GetPermittedQueueItemIds(j, allowAllQueuedItems);
        permitted := KeepForNode(j, node.value, all);
      }
    }
  }

  /** The loop of getPermittedQueueItemIds(nodeName) over the global ids: keeps
      those whose item is still queued and cannot be built on another node. */
  method KeepForNode(j: Jenkins, node: Node, all: set<Id>) returns (permitted: set<Id>)
    ensures permitted == set x | x in all && KeptForNode(j, x, node)
  {
    permitted := {};
    var rest := all;
    while rest != {}
      invariant rest <= all
      invariant permitted == set x | x in all - rest && KeptForNode(j, x, node)
      decreases rest
    {
      var id :| id in rest;
      var item := j.GetItem(id);
      if item.Some? {
        var other := CanOtherNodeBuild(j, item.value, node);
        if !other {
          permitted := permitted + {id};
        }
      }
      rest := rest - {id};
    }
  }

  // ---------------------------------------------------------------------------
  // Running builds and busy computers

  function ExecutorsOf(c: Computer): seq<Executor>
  {
    c.executors + c.oneOffExecutors
  }

  /** The queue ids of the AbstractBuilds the executors are running. */
  function ExecutingQueueIds(es: seq<Executor>): set<Id>
    decreases |es|
  {
    if es == [] then {}
    else
      var n := |es| - 1;
      var e := es[n];
      ExecutingQueueIds(es[..n])
        + (if e.executable.Some? && e.executable.value.isAbstractBuild then {e.executable.value.queueId} else {})
  }

  /** An id is reported exactly when some executor is running an AbstractBuild
      with that queue id; other executables are skipped. */
  lemma {:induction false} ExecutingQueueIdsMembers(es: seq<Executor>, id: Id)
    ensures id in ExecutingQueueIds(es) <==>
      exists k :: 0 <= k < |es| && es[k].executable.Some? && es[k].executable.value.isAbstractBuild
        && es[k].executable.value.queueId == id
    decreases |es|
  {
    if es != [] {
      var n := |es| - 1;
      ExecutingQueueIdsMembers(es[..n], id);
      assert forall k :: 0 <= k < n ==> es[..n][k] == es[k];
    }
  }

  /** getRunninProjectsQueueIDs(nodeName): empty when the name resolves to no
      node or the node has no computer. */
  function RunningQueueIdsOn(j: Jenkins, nodeName: string): (r: set<Id>)
    ensures j.GetNode(nodeName).None? ==> r == {}
    ensures j.GetNode(nodeName).Some? && j.GetNode(nodeName).value.computer.None? ==> r == {}
  {
    match j.GetNode(nodeName)
    case None => {}
    case Some(node) =>
      match node.computer
      case None => {}
      case Some(c) => ExecutingQueueIds(ExecutorsOf(c))
  }

  /** An id is reported for a node exactly when the name resolves to a node
      with a computer, and one of that computer's regular or one-off executors
      is running an AbstractBuild with that queue id. */
  lemma RunningQueueIdsOnMembers(j: Jenkins, nodeName: string, id: Id)
    ensures id in RunningQueueIdsOn(j, nodeName) <==>
      j.GetNode(nodeName).Some? && j.GetNode(nodeName).value.computer.Some? &&
      var es := ExecutorsOf(j.GetNode(nodeName).value.computer.value);
      exists k :: 0 <= k < |es| && es[k].executable.Some? && es[k].executable.value.isAbstractBuild
        && es[k].executable.value.queueId == id
  {
    var node := j.GetNode(nodeName);
    if node.Some? && node.value.computer.Some? {
      ExecutingQueueIdsMembers(ExecutorsOf(node.value.computer.value), id);
    }
  }

  method GetRunningQueueIdsOn(j: Jenkins, nodeName: string) returns (running: set<Id>)
    ensures running == RunningQueueIdsOn(j, nodeName)
  {
    running := {};
    var node := j.GetNode(nodeName);
    if node.Some? {
      var computer := node.value.computer;
      if computer.Some? {
        var executors := ExecutorsOf(computer.value);
        var i := 0;
        while i < |executors|
          invariant 0 <= i <= |executors|
          invariant running == ExecutingQueueIds(executors[..i])
        {
          var executable := executors[i].executable;
          if executable.Some? && executable.value.isAbstractBuild {
            running := running + {executable.value.queueId};
          }
          assert executors[..i + 1][..i] == executors[..i];
          i := i + 1;
        }
        assert executors[..i] == executors;
      }
    }
  }

  /** The union of RunningQueueIdsOn over the names of the given nodes. */
  function RunningQueueIdsOver(j: Jenkins, ns: seq<Node>): (r: set<Id>)
    decreases |ns|
  {
    if ns == [] then {}
    else
      var n := |ns| - 1;
      RunningQueueIdsOver(j, ns[..n]) + RunningQueueIdsOn(j, ns[n].name)
  }

  /** An id counts as running exactly when a build with that queue id runs on
      one of the nodes. */
  lemma {:induction false} RunningQueueIdsOverMembers(j: Jenkins, ns: seq<Node>, id: Id)
    ensures id in RunningQueueIdsOver(j, ns) <==> exists k :: 0 <= k < |ns| && id in RunningQueueIdsOn(j, ns[k].name)
    decreases |ns|
  {
    if ns != [] {
      var n := |ns| - 1;
      RunningQueueIdsOverMembers(j, ns[..n], id);
      assert forall k :: 0 <= k < n ==> ns[..n][k] == ns[k];
    }
  }

  /** getRunningProjectQueueIds(): over every agent and the master. */
  method GetRunningProjectQueueIds(j: Jenkins) returns (running: set<Id>)
    ensures running == RunningQueueIdsOver(j, j.AllNodes())
  {
    var allNodes := j.AllNodes();
    running := {};
    var i := 0;
    while i < |allNodes|
      invariant 0 <= i <= |allNodes|
      invariant running == RunningQueueIdsOver(j, allNodes[..i])
    {
      var onNode := GetRunningQueueIdsOn(j, allNodes[i].name);
      running := running + onNode;
      assert allNodes[..i + 1][..i] == allNodes[..i];
      i := i + 1;
    }
    assert allNodes[..i] == allNodes;
  }

  /** Some regular or one-off executor of the computer is busy. */
  predicate Busy(c: Computer)
  {
    exists k :: 0 <= k < |ExecutorsOf(c)| && ExecutorsOf(c)[k].busy
  }

  method IsBuilding(c: Computer) returns (isBuilding: bool)
    ensures isBuilding == Busy(c)
  {
    isBuilding := false;
    var executors := ExecutorsOf(c);
    var i := 0;
    while i < |executors|
      invariant 0 <= i <= |executors|
      invariant forall k :: 0 <= k < i ==> !executors[k].busy
    {
      if executors[i].busy {
        isBuilding := true;
        break;
      }
      i := i + 1;
    }
  }

  /** Some queued item cannot be built by any node other than this one. */
  predicate HasExclusiveItem(j: Jenkins, node: Node)
  {
    exists k :: 0 <= k < |j.queue| && !OtherNodeCanBuild(j, j.queue[k], node)
  }

  /** hasNodeExclusiveItemInQueue(computer), given the computer's node. */
  method HasNodeExclusiveItemInQueue(j: Jenkins, node: Node) returns (hasExclusive: bool)
    ensures hasExclusive == HasExclusiveItem(j, node)
  {
    hasExclusive := false;
    var queueItems := j.queue;
    var i := 0;
    while i < |queueItems|
      invariant 0 <= i <= |queueItems|
      invariant forall k :: 0 <= k < i ==> OtherNodeCanBuild(j, queueItems[k], node)
    {
      var other := CanOtherNodeBuild(j, queueItems[i], node);
      if !other {
        hasExclusive := true;
        break;
      }
      i := i + 1;
    }
  }
}
