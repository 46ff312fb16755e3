/** The admission hooks Jenkins consults before starting a queued item
    (BuildPreventer). */
module Preventer {
  import opened Substrate
  import QueueUtils
  import Plugin
  import ManageLink

  datatype Blockage = GlobalShutdownBlockage | NodeShutdownBlockage

  /** What a hook does with an item: let it run (null), block it, or fail on
      the cast of its task to AbstractProject (a ClassCastException). */
  datatype Verdict = Allow | Block(blockage: Blockage) | CastFailure

  /** The decision of canRun, from the global flag, the queue task, whether the item
      was queued when the shutdown began, and whether one of its upstream
      project names is permitted. */
  function GlobalVerdict(goingToShutdown: bool, task: Task, alreadyQueued: bool, anyPermitted: bool): (v: Verdict)
    ensures !goingToShutdown ==> v == Allow
    ensures goingToShutdown && IsAbstractProject(task) && alreadyQueued ==> v == Allow
    ensures goingToShutdown && IsAbstractProject(task) && !alreadyQueued ==>
      (v == Allow <==> anyPermitted) && (v != Allow ==> v == Block(GlobalShutdownBlockage))
    ensures goingToShutdown && !IsAbstractProject(task) ==> v == CastFailure
    ensures v.Block? ==> v.blockage == GlobalShutdownBlockage
  {
    if !goingToShutdown then Allow
    else if !IsAbstractProject(task) then CastFailure
    else if !alreadyQueued && !anyPermitted then Block(GlobalShutdownBlockage)
    else Allow
  }

  /** canRun(item): the global hook. With the shutdown on, an allowed item's
      project joins the permitted upstream names; nothing else changes. */
  method CanRun(link: ManageLink.ShutdownManageLink, item: Item) returns (verdict: Verdict)
    modifies link`permittedUpstreamProjectNames
    ensures verdict == GlobalVerdict(link.isGoingToShutdown, item.task,
      item.id in old(link.alreadyQueuedItemIds),
      item.upstreamProjectNames * old(link.permittedUpstreamProjectNames) != {})
    ensures link.permittedUpstreamProjectNames ==
      if verdict == Allow && link.isGoingToShutdown
      then old(link.permittedUpstreamProjectNames) + {item.task.fullName}
      else old(link.permittedUpstreamProjectNames)
  {
    var blockage: Option<Blockage> := None;
    var isGoingToShutdown := link.isGoingToShutdown;

    if isGoingToShutdown && IsAbstractProject(item.task) && !link.WasAlreadyQueued(item.id) {
      var upstreamProjects := item.upstreamProjectNames;
      if !link.IsAnyPermittedUpstreamProject(upstreamProjects) {
        blockage := Some(GlobalShutdownBlockage);
      }
    }

    if blockage.None? && isGoingToShutdown {
      if !IsAbstractProject(item.task) {
        return CastFailure;
      }
      link.AddPermittedUpstreamProject(item.task);
    }

    verdict := if blockage.Some? then Block(blockage.value) else Allow;
  }

  /** Items the activation snapshot recorded are never blocked by canRun: a
      permitted queued AbstractProject item is allowed whatever the permitted
      upstream names are. */
  lemma {:induction false} SnapshotItemsAllowed(j: Jenkins, allowAllQueuedItems: bool, k: int, anyPermitted: bool)
    requires 0 <= k < |j.queue| && IsAbstractProject(j.queue[k].task)
    requires QueueUtils.ItemPermitted(j.queue[k], allowAllQueuedItems, j.allowAllJobs)
    ensures GlobalVerdict(true, j.queue[k].task,
      j.queue[k].id in QueueUtils.PermittedIds(j.queue, allowAllQueuedItems, j.allowAllJobs), anyPermitted) == Allow
  {
    QueueUtils.PermittedIdsMembers(j.queue, allowAllQueuedItems, j.allowAllJobs, j.queue[k].id);
  }

  /** Admission propagates down a pipeline: once canRun has allowed a project
      during a shutdown, an AbstractProject item listing it as an upstream
      project is allowed too. */
  lemma AllowedProjectOpensDownstream(permitted: set<string>, upstream: Task, item: Item, alreadyQueued: bool)
    requires IsAbstractProject(item.task) && upstream.fullName in item.upstreamProjectNames
    ensures GlobalVerdict(true, item.task, alreadyQueued,
      item.upstreamProjectNames * (permitted + {upstream.fullName}) != {}) == Allow
  {
    assert upstream.fullName in item.upstreamProjectNames * (permitted + {upstream.fullName});
  }

  /** The node-side counterpart: once canTake has allowed a project on a
      draining node, an item listing it as upstream is allowed there unless
      another node can build it. */
  lemma NodeAllowedProjectOpensDownstream(permitted: map<string, set<string>>, nodeName: string, upstream: Task,
                                          item: Item, otherNodeCanBuild: bool)
    requires IsAbstractProject(item.task) && upstream.fullName in item.upstreamProjectNames
    ensures NodeVerdict(true, item.task, false, otherNodeCanBuild,
      Plugin.AnyPermitted(permitted[nodeName := Plugin.Lookup(permitted, nodeName) + {upstream.fullName}],
                          item.upstreamProjectNames, nodeName)) == (if otherNodeCanBuild then Block(NodeShutdownBlockage) else Allow)
  {
    Plugin.RecordedProjectPermitted(permitted, nodeName, upstream.fullName, item.upstreamProjectNames);
  }

  /** The decision of canTake, from whether the node is shutting down, the
      task, whether the item was queued for the node when its drain began,
      whether another node can build it, and whether one of its upstream
      project names is permitted on the node. */
  function NodeVerdict(nodeShuttingDown: bool, task: Task, alreadyQueued: bool,
                       otherNodeCanBuild: bool, anyPermitted: bool): (v: Verdict)
    ensures !nodeShuttingDown ==> v == Allow
    ensures nodeShuttingDown && IsAbstractProject(task) && alreadyQueued ==> v == Allow
    ensures nodeShuttingDown && IsAbstractProject(task) && !alreadyQueued ==>
      (v == Allow <==> !otherNodeCanBuild && anyPermitted) && (v != Allow ==> v == Block(NodeShutdownBlockage))
    ensures nodeShuttingDown && !IsAbstractProject(task) ==> v == CastFailure
    ensures v.Block? ==> v.blockage == NodeShutdownBlockage
  {
    if !nodeShuttingDown then Allow
    else if !IsAbstractProject(task) then CastFailure
    else if !alreadyQueued && (otherNodeCanBuild || !anyPermitted) then Block(NodeShutdownBlockage)
    else Allow
  }

  /** canTake(node, item): the per-node hook, for a buildable item. The
      plugin's get-or-create accessors add empty entries for the node as a
      side effect of the checks they serve; an allowed item's project joins
      the node's permitted names, and no other node's entries change. */
  method CanTake(plugin: Plugin.PluginImpl, j: Jenkins, node: Node, item: Item) returns (verdict: Verdict)
    requires item.state == Buildable
    modifies plugin`permittedSlaveQueuedItemIds, plugin`permittedSlaveUpstreamProjects
    ensures var shutting := plugin.IsNodeShuttingDown(node.name);
      var gate := shutting && IsAbstractProject(item.task)
        && item.id !in Plugin.Lookup(old(plugin.permittedSlaveQueuedItemIds), node.name);
      var other := QueueUtils.OtherNodeCanBuild(j, item, node);
      && verdict == NodeVerdict(shutting, item.task,
           item.id in Plugin.Lookup(old(plugin.permittedSlaveQueuedItemIds), node.name),
           other,
           Plugin.AnyPermitted(old(plugin.permittedSlaveUpstreamProjects), item.upstreamProjectNames, node.name))
      && plugin.permittedSlaveQueuedItemIds ==
           (if shutting && IsAbstractProject(item.task)
            then Plugin.WithKey(old(plugin.permittedSlaveQueuedItemIds), node.name)
            else old(plugin.permittedSlaveQueuedItemIds))
      && plugin.permittedSlaveUpstreamProjects ==
           (if verdict == Allow && shutting
            then old(plugin.permittedSlaveUpstreamProjects)[node.name :=
                   Plugin.Lookup(old(plugin.permittedSlaveUpstreamProjects), node.name) + {item.task.fullName}]
            else if gate && !other
            then Plugin.WithKey(old(plugin.permittedSlaveUpstreamProjects), node.name)
            else old(plugin.permittedSlaveUpstreamProjects))
  {
    var blockage: Option<Blockage> := None;
    var nodeName := node.name;
    var nodeIsGoingToShutdown := plugin.IsNodeShuttingDown(nodeName);

    var gate := false;
    if nodeIsGoingToShutdown && IsAbstractProject(item.task) {
      var queued := plugin.WasAlreadyQueued(item.id, nodeName);
      gate := !queued;
    }
    if gate {
      var otherNodeCanBuild := QueueUtils.CanOtherNodeBuild(j, item, node);
      var upstreamProjects := item.upstreamProjectNames;
      var blocked := otherNodeCanBuild;
      if !otherNodeCanBuild {
        var permitted := plugin.IsAnyPermittedUpstreamProject(upstreamProjects, nodeName);
        blocked := !permitted;
      }
      if blocked {
        blockage := Some(NodeShutdownBlockage);
      }
    }

    if blockage.None? && nodeIsGoingToShutdown {
      if !IsAbstractProject(item.task) {
        return CastFailure;
      }
      plugin.AddPermittedUpstreamProject(item.task, nodeName);
    }

    verdict := if blockage.Some? then Block(blockage.value) else Allow;
  }
}
