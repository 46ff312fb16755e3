/** The idle re-check after a build completes (ShutdownRunListener). */
module RunListener {
  import opened Substrate
  import QueueUtils
  import Plugin

  /** Seconds between a build's completion and its idle check. */
  const TaskDelaySeconds: int := 10

  /** The executor a completed run reports, with the name of the computer that
      owns it (None when getOwner() is null). */
  datatype RunExecutor = RunExecutor(ownerName: Option<string>)

  /** An idle check handed to the timer: which node, and after how long. */
  datatype IdleCheck = IdleCheck(nodeName: string, delaySeconds: int)

  /** onCompleted: an idle check is scheduled exactly when the run has an
      executor, the executor has an owning computer, and that node is shutting
      down at completion time. Nothing else happens. */
  function OnCompleted(plugin: Plugin.PluginImpl, executor: Option<RunExecutor>): (scheduled: Option<IdleCheck>)
    reads plugin
    ensures scheduled.Some? <==>
      executor.Some? && executor.value.ownerName.Some? && plugin.IsNodeShuttingDown(executor.value.ownerName.value)
    ensures scheduled.Some? ==>
      scheduled.value == IdleCheck(executor.value.ownerName.value, TaskDelaySeconds)
  {
    match executor
    case None => None
    case Some(e) =>
      match e.ownerName
      case None => None
      case Some(nodeName) =>
        if plugin.IsNodeShuttingDown(nodeName) then Some(IdleCheck(nodeName, TaskDelaySeconds)) else None
  }

  /** The node is still draining, still online, idle, and nothing in the queue
      needs it: the condition under which the idle check takes it offline. */
  predicate ReadyToGoOffline(plugin: Plugin.PluginImpl, j: Jenkins, nodeName: string, computer: Computer)
    reads plugin
  {
    plugin.IsNodeShuttingDown(nodeName) && !computer.temporarilyOffline
    && !QueueUtils.Busy(computer) && !QueueUtils.HasExclusiveItem(j, Node(nodeName, Some(computer)))
  }

  /** The body of a scheduled idle check, run against the node's computer as
      it is when the timer fires. The result is the user recorded in the
      LenientOfflineCause when the computer is set temporarily offline, and
      None when the check does nothing. The plugin's state is not changed,
      and no further check is scheduled. */
  method RunIdleCheck(plugin: Plugin.PluginImpl, j: Jenkins, check: IdleCheck, computer: Computer)
    returns (offlineCause: Option<User>)
    ensures offlineCause.Some? <==> ReadyToGoOffline(plugin, j, check.nodeName, computer)
    ensures !plugin.IsNodeShuttingDown(check.nodeName) ==> offlineCause.None?
    ensures offlineCause.Some? ==> offlineCause.value == plugin.GetOfflineByUser(check.nodeName)
  {
    offlineCause := None;
    var nodeName := check.nodeName;
    if plugin.IsNodeShuttingDown(nodeName) && !computer.temporarilyOffline {
      var building := QueueUtils.IsBuilding(computer);
      if !building {
        var exclusive := QueueUtils.HasNodeExclusiveItemInQueue(j, Node(nodeName, Some(computer)));
        if !exclusive {
          var user := plugin.GetOfflineByUser(nodeName);
          offlineCause := Some(user);
        }
      }
    }
  }
}
