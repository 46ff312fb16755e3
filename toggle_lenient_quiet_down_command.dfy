/** The CLI command that flips the lenient shutdown
    (ToggleLenientQuietDownCommand). */
module ToggleCommand {
  import opened Messages
  import opened Substrate
  import opened CliBase
  import QueueUtils
  import Configuration
  import ManageLink

  /** The command's short description: the title of the action a run would
      take. */
  function GetShortDescription(link: ManageLink.ShutdownManageLink): (title: Message)
    reads link
    ensures title == CancelShutdownTitle <==> link.isGoingToShutdown
    ensures title == CancelShutdownTitle || title == ActivateShutdownTitle
  {
    if link.isGoingToShutdown then CancelShutdownTitle else ActivateShutdownTitle
  }

  /** run(). The permission check comes first; then the flag flips, a
      non-empty message becomes the shutdown message, and the line printed
      reflects the new flag. The exit code is always 0. When the flip turns the
      shutdown on, the snapshot it schedules is run here as well; the message
      does not affect it. */
  method Run(link: ManageLink.ShutdownManageLink, config: Configuration.ShutdownConfiguration, j: Jenkins,
             message: Option<string>, hasAdminister: bool)
    returns (result: CommandResult)
    modifies link, config`shutdownMessage
    ensures !hasAdminister ==> result == AccessDenied && unchanged(link) && unchanged(config)
    ensures hasAdminister ==>
      link.isGoingToShutdown == !old(link.isGoingToShutdown)
      && result == Exit(0, [Out(if link.isGoingToShutdown then IsAboutToShutDown else ShutDownCanceled)])
      && config.shutdownMessage ==
           (if FixEmpty(message).Some? then message.value else old(config.shutdownMessage))
    ensures hasAdminister && link.isGoingToShutdown ==>
      link.alreadyQueuedItemIds == QueueUtils.PermittedIds(j.queue, config.allowAllQueuedItems, j.allowAllJobs)
      && link.permittedUpstreamProjectNames == j.runningProjectNames + j.permittedQueueProjectNames
    ensures hasAdminister && !link.isGoingToShutdown ==>
      link.alreadyQueuedItemIds == old(link.alreadyQueuedItemIds)
      && link.permittedUpstreamProjectNames == old(link.permittedUpstreamProjectNames)
  {
    if !hasAdminister {
      return AccessDenied;
    }
    var scheduled := link.PerformToggleGoingToShutdown();
    if FixEmpty(message).Some? {
      config.SetShutdownMessage(message.value);
    }
    if scheduled {
      link.RunShutdownSnapshot(j, config);
    }
    var line := if link.isGoingToShutdown then Out(IsAboutToShutDown) else Out(ShutDownCanceled);
    result := Exit(0, [line]);
  }

  /** Two granted runs in a row leave the shutdown flag as it was, each
      exiting with 0. */
  method RunTwice(link: ManageLink.ShutdownManageLink, config: Configuration.ShutdownConfiguration, j: Jenkins,
                  message: Option<string>)
    returns (first: CommandResult, second: CommandResult)
    modifies link, config`shutdownMessage
    ensures link.isGoingToShutdown == old(link.isGoingToShutdown)
    ensures first.Exit? && first.code == 0 && second.Exit? && second.code == 0
  {
    first := Run(link, config, j, message, true);
    second := Run(link, config, j, message, true);
  }
}
