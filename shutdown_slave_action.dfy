/** The per-node "take offline leniently" action (ShutdownSlaveAction). */
module SlaveAction {
  import opened Substrate
  import opened Messages
  import QueueUtils
  import Plugin
  import Configuration

  /** The action's URL name. */
  const Url: string := "lenientshutdown"
  /** Icon offered while lenient offline can be enabled for the node. */
  const EnableIcon: string := "/images/system-log-out-small.png"
  /** Icon offered while lenient offline can be disabled for the node. */
  const DisableIcon: string := "edit-delete.png"

  /** What doIndex did. TakenOffline carries the user recorded in the
      LenientOfflineCause passed to Computer.setTemporarilyOffline. */
  datatype IndexOutcome = AccessDenied | DrainCancelled | DrainStarted | TakenOffline(cause: User)

  /** doIndex() on the action of the node's computer. currentUser is
      User.current() (None when there is none); hasAdminister is the outcome of
      the permission check, which comes first. A drain that starts also hands
      RunNodeSnapshot to a background executor. */
  method DoIndex(plugin: Plugin.PluginImpl, j: Jenkins, node: Node, currentUser: Option<User>, hasAdminister: bool)
    returns (outcome: IndexOutcome)
    requires node.computer.Some?
    modifies plugin`lenientOfflineSlaves, plugin`userTriggers
    ensures !hasAdminister ==>
      outcome == AccessDenied
      && plugin.lenientOfflineSlaves == old(plugin.lenientOfflineSlaves)
      && plugin.userTriggers == old(plugin.userTriggers)
    ensures hasAdminister && old(plugin.IsNodeShuttingDown(node.name)) ==>
      outcome == DrainCancelled && !plugin.IsNodeShuttingDown(node.name)
      && plugin.lenientOfflineSlaves == Plugin.Toggled(old(plugin.lenientOfflineSlaves), node.name)
      && plugin.userTriggers == old(plugin.userTriggers)
    ensures (hasAdminister && !old(plugin.IsNodeShuttingDown(node.name))
      && (QueueUtils.Busy(node.computer.value) || QueueUtils.HasExclusiveItem(j, node))) ==>
      outcome == DrainStarted && plugin.IsNodeShuttingDown(node.name)
      && plugin.lenientOfflineSlaves == Plugin.Toggled(old(plugin.lenientOfflineSlaves), node.name)
      && plugin.userTriggers == old(plugin.userTriggers)[node.name := currentUser]
    ensures (hasAdminister && !old(plugin.IsNodeShuttingDown(node.name))
      && !QueueUtils.Busy(node.computer.value) && !QueueUtils.HasExclusiveItem(j, node)) ==>
      outcome == TakenOffline(if currentUser.Some? then currentUser.value else UnknownUser)
      && !plugin.IsNodeShuttingDown(node.name)
      && plugin.lenientOfflineSlaves == old(plugin.lenientOfflineSlaves)
      && plugin.userTriggers == old(plugin.userTriggers)
  {
    if !hasAdminister {
      return AccessDenied;
    }
    var nodeName := node.name;
    if plugin.IsNodeShuttingDown(nodeName) {
      plugin.ToggleNodeShuttingDown(nodeName);
      outcome := DrainCancelled;
    } else {
      var building := QueueUtils.IsBuilding(node.computer.value);
      var exclusive := false;
      if !building {
        exclusive := QueueUtils.HasNodeExclusiveItemInQueue(j, node);
      }
      if building || exclusive {
        plugin.ToggleNodeShuttingDown(nodeName);
        plugin.SetOfflineByUser(nodeName, currentUser);
        outcome := DrainStarted;
      } else {
        var user := if currentUser.Some? then currentUser.value else UnknownUser;
        outcome := TakenOffline(user);
      }
    }
  }

  /** The background body of a node drain: the node's permitted names become
      its running and permitted-queue project names, and its already-queued
      ids become the ids permitted for that node; other nodes keep theirs. */
  method RunNodeSnapshot(plugin: Plugin.PluginImpl, j: Jenkins, config: Configuration.ShutdownConfiguration, nodeName: string)
    modifies plugin`permittedSlaveUpstreamProjects, plugin`permittedSlaveQueuedItemIds
    ensures plugin.permittedSlaveUpstreamProjects == old(plugin.permittedSlaveUpstreamProjects)[nodeName :=
      j.nodeRunningProjectNames(nodeName) + j.nodePermittedQueueProjectNames(nodeName)]
    ensures plugin.permittedSlaveQueuedItemIds == old(plugin.permittedSlaveQueuedItemIds)[nodeName :=
      QueueUtils.NodePermittedIds(j, Some(nodeName), config.allowAllQueuedItems)]
  {
    var permittedUpstreamProjectNames := plugin.GetPermittedUpstreamProjects(nodeName);
    permittedUpstreamProjectNames := {};
    permittedUpstreamProjectNames := permittedUpstreamProjectNames + j.nodeRunningProjectNames(nodeName);
    permittedUpstreamProjectNames := permittedUpstreamProjectNames + j.nodePermittedQueueProjectNames(nodeName);
    assert permittedUpstreamProjectNames == j.nodeRunningProjectNames(nodeName) + j.nodePermittedQueueProjectNames(nodeName);
    Plugin.WithKeyThenStore(old(plugin.permittedSlaveUpstreamProjects), nodeName, permittedUpstreamProjectNames);
    plugin.permittedSlaveUpstreamProjects := plugin.permittedSlaveUpstreamProjects[nodeName := permittedUpstreamProjectNames];

    var alreadyQueuedItemIds := plugin.GetAlreadyQueuedItemIds(nodeName);
    alreadyQueuedItemIds := {};
    var permitted := QueueUtils.GetPermittedQueueItemIdsForNode(j, Some(nodeName), config.allowAllQueuedItems);
    alreadyQueuedItemIds := alreadyQueuedItemIds + permitted;
    assert alreadyQueuedItemIds == permitted;
    Plugin.WithKeyThenStore(old(plugin.permittedSlaveQueuedItemIds), nodeName, alreadyQueuedItemIds);
    plugin.permittedSlaveQueuedItemIds := plugin.permittedSlaveQueuedItemIds[nodeName := alreadyQueuedItemIds];
  }

  /** The icon of the node's action, None standing for null (no link shown).
      userHasPermission is whether the current user holds the action's
      permission; resourcePath is Functions.getResourcePath(). */
  function GetIconFileName(plugin: Plugin.PluginImpl, computer: Option<Computer>, nodeName: string,
                           currentUser: Option<User>, userHasPermission: bool, resourcePath: string): (icon: Option<string>)
    reads plugin
    ensures icon.None? <==>
      computer.None? || computer.value.temporarilyOffline || currentUser.None? || !userHasPermission
    ensures icon.Some? ==> (icon.value == DisableIcon <==> plugin.IsNodeShuttingDown(nodeName))
    ensures icon.Some? && !plugin.IsNodeShuttingDown(nodeName) ==>
      icon.value == resourcePath + "/plugin/" + Url + EnableIcon
  {
    if computer.Some? && !computer.value.temporarilyOffline && currentUser.Some? && userHasPermission then
      if plugin.IsNodeShuttingDown(nodeName) then Some(DisableIcon)
      else Some(resourcePath + "/plugin/" + Url + EnableIcon)
    else None
  }

  function GetDisplayName(plugin: Plugin.PluginImpl, nodeName: string): (title: Message)
    reads plugin
    ensures title == CancelOfflineLeniently <==> plugin.IsNodeShuttingDown(nodeName)
    ensures title == CancelOfflineLeniently || title == TakeOfflineLeniently
  {
    if plugin.IsNodeShuttingDown(nodeName) then CancelOfflineLeniently else TakeOfflineLeniently
  }
}
