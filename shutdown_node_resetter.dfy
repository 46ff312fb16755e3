/** Clears a node's drain flag when it comes back online
    (ShutdownNodeResetter). */
module NodeResetter {
  import Plugin

  /** onTemporarilyOnline: with a plugin instance, a node that is shutting
      down is toggled back; otherwise nothing changes. */
  method OnTemporarilyOnline(plugin: Plugin.PluginImpl?, nodeName: string)
    modifies plugin
    ensures plugin != null ==> !plugin.IsNodeShuttingDown(nodeName)
    ensures plugin != null ==>
      plugin.lenientOfflineSlaves ==
        if old(plugin.IsNodeShuttingDown(nodeName))
        then Plugin.Toggled(old(plugin.lenientOfflineSlaves), nodeName)
        else old(plugin.lenientOfflineSlaves)
    ensures plugin != null ==>
      plugin.userTriggers == old(plugin.userTriggers)
      && plugin.permittedSlaveUpstreamProjects == old(plugin.permittedSlaveUpstreamProjects)
      && plugin.permittedSlaveQueuedItemIds == old(plugin.permittedSlaveQueuedItemIds)
  {
    if plugin != null && plugin.IsNodeShuttingDown(nodeName) {
      plugin.ToggleNodeShuttingDown(nodeName);
    }
  }

  /** onOnline delegates to onTemporarilyOnline. */
  method OnOnline(plugin: Plugin.PluginImpl?, nodeName: string)
    modifies plugin
    ensures plugin != null ==> !plugin.IsNodeShuttingDown(nodeName)
    ensures plugin != null ==>
      plugin.lenientOfflineSlaves ==
        if old(plugin.IsNodeShuttingDown(nodeName))
        then Plugin.Toggled(old(plugin.lenientOfflineSlaves), nodeName)
        else old(plugin.lenientOfflineSlaves)
    ensures plugin != null ==>
      plugin.userTriggers == old(plugin.userTriggers)
      && plugin.permittedSlaveUpstreamProjects == old(plugin.permittedSlaveUpstreamProjects)
      && plugin.permittedSlaveQueuedItemIds == old(plugin.permittedSlaveQueuedItemIds)
  {
    OnTemporarilyOnline(plugin, nodeName);
  }
}
