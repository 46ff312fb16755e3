/** The global lenient-shutdown state and its management link
    (ShutdownManageLink). */
module ManageLink {
  import opened Substrate
  import opened Messages
  import QueueUtils
  import Configuration

  /** The link's URL while no shutdown is active. */
  const Url: string := "lenientshutdown"
  /** The link's URL while a shutdown is active. */
  const CancelUrl: string := "cancelLenientShutdown"

  class ShutdownManageLink {
    /** Project names whose downstream builds may still start. */
    var permittedUpstreamProjectNames: set<string>
    /** Ids of the queue items permitted when the shutdown began. */
    var alreadyQueuedItemIds: set<Id>
    var isGoingToShutdown: bool

    constructor()
      ensures permittedUpstreamProjectNames == {} && alreadyQueuedItemIds == {}
      ensures !isGoingToShutdown
    {
      permittedUpstreamProjectNames := {};
      alreadyQueuedItemIds := {};
      isGoingToShutdown := false;
    }

    function GetDisplayName(): (title: Message)
      reads this
      ensures title == CancelShutdownTitle <==> isGoingToShutdown
      ensures title == CancelShutdownTitle || title == ActivateShutdownTitle
    {
      if isGoingToShutdown then CancelShutdownTitle else ActivateShutdownTitle
    }

    function GetUrlName(): (url: string)
      reads this
      ensures url == CancelUrl <==> isGoingToShutdown
      ensures !isGoingToShutdown ==> url == Url
    {
      if isGoingToShutdown then CancelUrl else Url
    }

    /** The description, None standing for null. */
    function GetDescription(): (description: Option<Message>)
      reads this
      ensures description.None? <==> isGoingToShutdown
      ensures description.Some? ==> description.value == Description
    {
      if !isGoingToShutdown then Some(Description) else None
    }

    method ToggleGoingToShutdown()
      modifies this`isGoingToShutdown
      ensures isGoingToShutdown == !old(isGoingToShutdown)
    {
      isGoingToShutdown := !isGoingToShutdown;
    }

    /** Flips the flag. When the flag turns on, a snapshot is handed to a
        background executor: the result says so, and RunShutdownSnapshot is its
        body. The two sets are not touched here. */
    method PerformToggleGoingToShutdown() returns (snapshotScheduled: bool)
      modifies this`isGoingToShutdown
      ensures isGoingToShutdown == !old(isGoingToShutdown)
      ensures snapshotScheduled <==> isGoingToShutdown
    {
      ToggleGoingToShutdown();
      snapshotScheduled := isGoingToShutdown;
    }

    /** The snapshot body: both sets are cleared and refilled from the current
        queue and running builds; the shutdown flag is not read. */
    method RunShutdownSnapshot(j: Jenkins, config: Configuration.ShutdownConfiguration)
      modifies this`alreadyQueuedItemIds, this`permittedUpstreamProjectNames
      ensures alreadyQueuedItemIds == QueueUtils.PermittedIds(j.queue, config.allowAllQueuedItems, j.allowAllJobs)
      ensures permittedUpstreamProjectNames == j.runningProjectNames + j.permittedQueueProjectNames
    {
      alreadyQueuedItemIds := {};
      var permitted := QueueUtils.GetPermittedQueueItemIds(j, config.allowAllQueuedItems);
      alreadyQueuedItemIds := alreadyQueuedItemIds + permitted;

      permittedUpstreamProjectNames := {};
      permittedUpstreamProjectNames := permittedUpstreamProjectNames + j.runningProjectNames;
      permittedUpstreamProjectNames := permittedUpstreamProjectNames + j.permittedQueueProjectNames;
    }

    /** The management form's cancel action: permission check, then an
        unconditional toggle. Returns whether access was granted and whether
        a snapshot was scheduled. */
    method DoCancelLenientShutdown(hasAdminister: bool) returns (granted: bool, snapshotScheduled: bool)
      modifies this`isGoingToShutdown
      ensures granted == hasAdminister
      ensures !granted ==> isGoingToShutdown == old(isGoingToShutdown) && !snapshotScheduled
      ensures granted ==> isGoingToShutdown == !old(isGoingToShutdown) && (snapshotScheduled <==> isGoingToShutdown)
    {
      granted := hasAdminister;
      snapshotScheduled := false;
      if granted {
        snapshotScheduled := PerformToggleGoingToShutdown();
      }
    }

    /** The management form's activate action: permission check, the form's
        allowAllQueuedItems stored in the configuration, then a toggle. */
    method DoLenientShutdown(config: Configuration.ShutdownConfiguration, hasAdminister: bool, allowAllQueuedItems: bool)
      returns (granted: bool, snapshotScheduled: bool)
      modifies this`isGoingToShutdown, config`allowAllQueuedItems
      ensures granted == hasAdminister
      ensures !granted ==>
        isGoingToShutdown == old(isGoingToShutdown) && !snapshotScheduled
        && config.allowAllQueuedItems == old(config.allowAllQueuedItems)
      ensures granted ==>
        isGoingToShutdown == !old(isGoingToShutdown) && (snapshotScheduled <==> isGoingToShutdown)
        && config.allowAllQueuedItems == allowAllQueuedItems
    {
      granted := hasAdminister;
      snapshotScheduled := false;
      if granted {
        config.SetAllowAllQueuedItems(allowAllQueuedItems);
        snapshotScheduled := PerformToggleGoingToShutdown();
      }
    }

    function IsAnyPermittedUpstreamProject(projectNames: set<string>): (r: bool)
      reads this
      ensures r <==> exists name :: name in projectNames && name in permittedUpstreamProjectNames
      ensures projectNames == {} ==> !r
    {
      var intersection := projectNames * permittedUpstreamProjectNames;
      assert forall name :: name in projectNames && name in permittedUpstreamProjectNames ==> name in intersection;
      intersection != {}
    }

    method AddPermittedUpstreamProject(project: Task)
      requires IsAbstractProject(project)
      modifies this`permittedUpstreamProjectNames
      ensures permittedUpstreamProjectNames == old(permittedUpstreamProjectNames) + {project.fullName}
      ensures IsAnyPermittedUpstreamProject({project.fullName})
    {
      permittedUpstreamProjectNames := permittedUpstreamProjectNames + {project.fullName};
    }

    function WasAlreadyQueued(id: Id): (r: bool)
      reads this
      ensures r <==> id in alreadyQueuedItemIds
    {
      id in alreadyQueuedItemIds
    }
  }
}
