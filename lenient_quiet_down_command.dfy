/** The CLI command that starts a lenient shutdown (LenientQuietDownCommand). */
module QuietDownCommand {
  import opened Messages
  import opened Substrate
  import opened CliBase
  import QueueUtils
  import Strings
  import Configuration
  import ManageLink

  /** run(). The permission check comes first. With no shutdown active, the
      flag is turned on, the options are transferred, and the exit code is 0;
      the status printout is not modelled, so nothing is printed. With a
      shutdown already active, the command prints an error, exits with 1 and
      changes nothing. The snapshot the toggle schedules runs on another
      thread: snapshotBeforeOptions says whether it ran before the options
      were transferred, in which case it saw the old allowAllQueuedItems. */
  method Run(link: ManageLink.ShutdownManageLink, config: Configuration.ShutdownConfiguration, j: Jenkins,
             options: Options, hasAdminister: bool, snapshotBeforeOptions: bool)
    returns (result: CommandResult)
    requires config.Valid()
    modifies link, config
    ensures config.Valid()
    ensures !hasAdminister ==> result == AccessDenied && unchanged(link, config)
    ensures hasAdminister && old(link.isGoingToShutdown) ==>
      result == Exit(1, [Err(ErrAlreadyShuttingDown)]) && unchanged(link, config)
    ensures hasAdminister && !old(link.isGoingToShutdown) ==>
      result == Exit(0, [])
      && link.isGoingToShutdown
      && config.allowAllQueuedItems == options.allowAllQueuedItems
      && config.allowWhiteListedProjects == options.allowWhiteListedProjects
      && config.shutdownMessage ==
           (if FixEmpty(options.message).Some? then options.message.value else old(config.shutdownMessage))
      && (options.whiteListedProjects.None? ==> config.whiteListedProjects == old(config.whiteListedProjects))
      && (options.whiteListedProjects.Some? ==>
            Strings.Elems(config.whiteListedProjects) == Strings.Elems(Strings.SplitOnSemicolons(options.whiteListedProjects.value)))
      && link.alreadyQueuedItemIds == QueueUtils.PermittedIds(j.queue,
           if snapshotBeforeOptions then old(config.allowAllQueuedItems) else options.allowAllQueuedItems,
           j.allowAllJobs)
      && link.permittedUpstreamProjectNames == j.runningProjectNames + j.permittedQueueProjectNames
  {
    if !hasAdminister {
      return AccessDenied;
    }
    if !link.isGoingToShutdown {
      var scheduled := link.PerformToggleGoingToShutdown();
      if snapshotBeforeOptions {
        link.RunShutdownSnapshot(j, config);
        Configure(config, options);
      } else {
        Configure(config, options);
        link.RunShutdownSnapshot(j, config);
      }
      result := Exit(0, []);
    } else {
      result := Exit(1, [Err(ErrAlreadyShuttingDown)]);
    }
  }
}
