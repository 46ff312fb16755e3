/** The CLI command that cancels a lenient shutdown
    (CancelLenientQuietDownCommand). */
module CancelCommand {
  import opened Messages
  import opened CliBase
  import ManageLink

  /** run(). The permission check comes first. An active shutdown is turned
      off; without one the command only prints an error. Either way it exits
      with 0, so a repeated run (from cron, say) is harmless: afterwards no
      shutdown is active. */
  method Run(link: ManageLink.ShutdownManageLink, hasAdminister: bool) returns (result: CommandResult)
    modifies link`isGoingToShutdown
    ensures !hasAdminister ==> result == AccessDenied && link.isGoingToShutdown == old(link.isGoingToShutdown)
    ensures hasAdminister ==> !link.isGoingToShutdown && result.Exit? && result.code == 0
    ensures hasAdminister && old(link.isGoingToShutdown) ==> result.output == [Out(ShutDownCanceled)]
    ensures hasAdminister && !old(link.isGoingToShutdown) ==> result.output == [Err(ErrNotInShutdown)]
  {
    if !hasAdminister {
      return AccessDenied;
    }
    var output: seq<Line>;
    if link.isGoingToShutdown {
      var scheduled := link.PerformToggleGoingToShutdown();
      output := [Out(ShutDownCanceled)];
    } else {
      output := [Err(ErrNotInShutdown)];
    }
    result := Exit(0, output);
  }
}
