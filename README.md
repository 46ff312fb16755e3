# Lenient shutdown for Jenkins, modelled in Dafny

The Jenkins lenient-shutdown plugin lets an administrator drain a Jenkins
instance, or a single node, without killing work in progress. While a
lenient shutdown is active, new builds are held back, but three kinds of work
may still run: builds that were already queued when the shutdown began,
builds whose upstream project is permitted, and builds of projects that the
hooks themselves let through during the shutdown. A node drain works the
same way for one node. When the node has nothing left that only it can
build, it is taken temporarily offline.

This project models the plugin's admission-control and drain-state core
over plain values that describe Jenkins (queue items and their causes, runs,
executors, computers, nodes). It proves what each operation promises. The
modules follow the plugin's classes:

- `Substrate`, `Messages`: the parts of Jenkins the plugin reads, as
  datatypes, and the keys of the texts it shows.
- `Strings`: the whitelist as a `TreeSet<String>` (a strictly ascending
  list), `StringUtils.join`, and Java's `String.split` on `"\r?\n"` and
  `";"`.
- `QueueUtils`: the queue and causality queries. Each query is a
  declarative function, plus a method with the source's loop that is proved
  to compute it.
- `Configuration`: the `ShutdownConfiguration` class.
- `Plugin`: the `PluginImpl` class, which keeps the per-node maps with
  toggle and get-or-create semantics.
- `ManageLink`: the `ShutdownManageLink` class, which keeps the global
  flag and the two global sets.
- `Preventer`: the `canRun` and `canTake` admission hooks, with their
  record-on-allow side effects.
- `SlaveAction`, `RunListener`, `NodeResetter`: the per-node drain
  lifecycle.
- `CliBase`, `QuietDownCommand`, `CancelCommand`, `ToggleCommand`: the
  CLI commands.

The model follows the plugin's code. Neither admission hook reads the
whitelist: it only affects `isWhiteListedProject` and the CLI printout. The
only admission state is the shutdown flag and the two sets that
`ShutdownManageLink` and `PluginImpl` hold. For a task that is not a Job,
`isApplicable` is false even when all job kinds are allowed, because the
code tests `instanceof Job` in that case.

## Model

| member | source | states |
|---|---|---|
| Substrate.Jenkins.AllNodes | src/main/java/com/sonymobile/jenkins/plugins/lenientshutdown/QueueUtils.java:143-144 | Every agent, in order, followed by the master. |
| Substrate.Jenkins.GetNode | src/main/java/com/sonymobile/jenkins/plugins/lenientshutdown/QueueUtils.java:117-120 | The name "" resolves to the master, and any node found carries the name asked for. |
| Substrate.GetNodeFound | src/main/java/com/sonymobile/jenkins/plugins/lenientshutdown/QueueUtils.java:117-120 | Any name other than the master's resolves exactly when an agent has that name. |
| Substrate.Jenkins.GetItem | src/main/java/com/sonymobile/jenkins/plugins/lenientshutdown/QueueUtils.java:124 | An item is found exactly when some queued item has the id, and the item found is queued with that id. |
| Strings.Insert | src/main/java/com/sonymobile/jenkins/plugins/lenientshutdown/ShutdownConfiguration.java:60 | TreeSet.add: the elements afterwards are the old ones plus the new name. |
| Strings.InsertSorted | src/main/java/com/sonymobile/jenkins/plugins/lenientshutdown/ShutdownConfiguration.java:60 | TreeSet.add keeps the list strictly ascending. |
| Strings.AddAll | src/main/java/com/sonymobile/jenkins/plugins/lenientshutdown/ShutdownConfiguration.java:166 | addAll: the elements afterwards are the old ones plus those of the list. |
| Strings.FromList | src/main/java/com/sonymobile/jenkins/plugins/lenientshutdown/ShutdownConfiguration.java:165-166 | clear then addAll: strictly ascending, holding exactly the names of the list. |
| Strings.SortedUnique | src/main/java/com/sonymobile/jenkins/plugins/lenientshutdown/ShutdownConfiguration.java:60 | Two strictly ascending lists with the same elements are equal, so the TreeSet is determined by its contents. |
| Strings.SplitLinesRaw | src/main/java/com/sonymobile/jenkins/plugins/lenientshutdown/ShutdownConfiguration.java:46 | Splitting on "\r?\n" always gives at least one piece, and no piece holds a "\n". |
| Strings.SplitOnCharRaw | src/main/java/com/sonymobile/jenkins/plugins/lenientshutdown/cli/LenientQuietDownCommandBase.java:44 | Splitting on one character always gives at least one piece, and no piece holds that character. |
| Strings.DropTrailingEmpty | src/main/java/com/sonymobile/jenkins/plugins/lenientshutdown/ShutdownConfiguration.java:166 | Java split drops trailing empty pieces: the result is a prefix that does not end with "", and every piece dropped is "". |
| Strings.SplitOnLineBreaks | src/main/java/com/sonymobile/jenkins/plugins/lenientshutdown/ShutdownConfiguration.java:166 | split("\\r?\\n"): "" gives [""]. Any other text gives its pieces with only the trailing empty ones removed, and no piece holds a "\n". |
| Strings.SplitOnSemicolons | src/main/java/com/sonymobile/jenkins/plugins/lenientshutdown/cli/LenientQuietDownCommandBase.java:96 | split(";"): "" gives [""]. Any other text gives its pieces with only the trailing empty ones removed, and no piece holds a ';'. |
| Strings.SplitOnCharRawThenJoin | src/main/java/com/sonymobile/jenkins/plugins/lenientshutdown/cli/LenientQuietDownCommandBase.java:96 | StringUtils.join with the separator undoes the split: joining the pieces gives the text back. |
| Strings.SplitLinesRawThenJoin | src/main/java/com/sonymobile/jenkins/plugins/lenientshutdown/ShutdownConfiguration.java:128-130 | StringUtils.join with "\n" undoes the split on "\r?\n" for a text without carriage returns. |
| Strings.SplitLinesRawJoin | src/main/java/com/sonymobile/jenkins/plugins/lenientshutdown/ShutdownConfiguration.java:128-130 | Names without line breaks, joined with "\n", split back into the same names. |
| Strings.SplitOnCharRawJoin | src/main/java/com/sonymobile/jenkins/plugins/lenientshutdown/cli/LenientQuietDownCommandBase.java:93-97 | Names without the separator, joined with it, split back into the same names. |
| QueueUtils.IsApplicable | src/main/java/com/sonymobile/jenkins/plugins/lenientshutdown/QueueUtils.java:96-101 | An AbstractProject is always applicable and a non-Job never is. Any other Job is applicable exactly when all job kinds are allowed. |
| QueueUtils.UpstreamQueueIdsMembers | src/main/java/com/sonymobile/jenkins/plugins/lenientshutdown/QueueUtils.java:190-203 | An id is an upstream queue id exactly when some UpstreamCause whose run still resolves points at a run with that queue id. Other causes and unresolved runs give nothing. |
| QueueUtils.GetUpstreamQueueIds | src/main/java/com/sonymobile/jenkins/plugins/lenientshutdown/QueueUtils.java:190-203 | The loop over the causes computes UpstreamQueueIds. |
| QueueUtils.UpstreamBuilds | src/main/java/com/sonymobile/jenkins/plugins/lenientshutdown/QueueUtils.java:210-223 | A run is an upstream build exactly when a resolving UpstreamCause points at it and it is an AbstractBuild. |
| QueueUtils.GetUpstreamBuilds | src/main/java/com/sonymobile/jenkins/plugins/lenientshutdown/QueueUtils.java:210-223 | The loop over the causes computes UpstreamBuilds. |
| QueueUtils.PermittedIdsMembers | src/main/java/com/sonymobile/jenkins/plugins/lenientshutdown/QueueUtils.java:65-85 | An id is permitted exactly when it belongs to a queued item that passes the test. The test: not applicable, or all queued items allowed, or some upstream build finished. |
| QueueUtils.CheckItemPermitted | src/main/java/com/sonymobile/jenkins/plugins/lenientshutdown/QueueUtils.java:67-82 | The per-item test, with the inner loop that stops at the first finished upstream build, decides exactly ItemPermitted. |
| QueueUtils.GetPermittedQueueItemIds | src/main/java/com/sonymobile/jenkins/plugins/lenientshutdown/QueueUtils.java:65-85 | The loop with its inner break loop computes PermittedIds. |
| QueueUtils.AllowAllQueuedPermitsAll | src/main/java/com/sonymobile/jenkins/plugins/lenientshutdown/QueueUtils.java:67-72 | With allowAllQueuedItems set, the permitted ids are exactly the ids of all queued items. |
| QueueUtils.NotApplicablePermitted | src/main/java/com/sonymobile/jenkins/plugins/lenientshutdown/QueueUtils.java:80-82 | A queued item whose task is not applicable is always permitted. |
| QueueUtils.ApplicablePermittedIffFinishedUpstream | src/main/java/com/sonymobile/jenkins/plugins/lenientshutdown/QueueUtils.java:73-78 | Without allowAllQueuedItems, an applicable item is permitted exactly when one of its upstream builds has finished. An item with no upstream build is excluded. This assumes queue ids are unique. |
| QueueUtils.NodePermittedIds | src/main/java/com/sonymobile/jenkins/plugins/lenientshutdown/QueueUtils.java:110-133 | A null name gives the global set. An unresolvable node gives the empty set. Otherwise the result is exactly the globally permitted ids of items still queued that no other node can build. It is always a subset of the global set. |
| QueueUtils.GetPermittedQueueItemIdsForNode | src/main/java/com/sonymobile/jenkins/plugins/lenientshutdown/QueueUtils.java:110-133 | The loop over the global ids computes NodePermittedIds. |
| QueueUtils.CanOtherNodeBuild | src/main/java/com/sonymobile/jenkins/plugins/lenientshutdown/QueueUtils.java:232-263 | A buildable item: true exactly when some online node other than this one accepts it. A waiting item: true unless a finished upstream build ran on this node. Any other item: false. |
| QueueUtils.ExecutingQueueIdsMembers | src/main/java/com/sonymobile/jenkins/plugins/lenientshutdown/QueueUtils.java:169-178 | An id is reported exactly when a regular or one-off executor runs an AbstractBuild with that queue id. |
| QueueUtils.RunningQueueIdsOn | src/main/java/com/sonymobile/jenkins/plugins/lenientshutdown/QueueUtils.java:158-183 | The result is empty when the name resolves to no node, or the node has no computer. |
| QueueUtils.RunningQueueIdsOnMembers | src/main/java/com/sonymobile/jenkins/plugins/lenientshutdown/QueueUtils.java:158-183 | An id is reported exactly when the name resolves to a node with a computer, and a regular or one-off executor there runs an AbstractBuild with that queue id. |
| QueueUtils.GetRunningQueueIdsOn | src/main/java/com/sonymobile/jenkins/plugins/lenientshutdown/QueueUtils.java:158-183 | The loop over the executors computes RunningQueueIdsOn. |
| QueueUtils.RunningQueueIdsOverMembers | src/main/java/com/sonymobile/jenkins/plugins/lenientshutdown/QueueUtils.java:146-148 | An id is running exactly when it runs on one of the nodes visited. |
| QueueUtils.GetRunningProjectQueueIds | src/main/java/com/sonymobile/jenkins/plugins/lenientshutdown/QueueUtils.java:140-150 | The result is the union of the per-node running ids over every agent and the master. |
| QueueUtils.IsBuilding | src/main/java/com/sonymobile/jenkins/plugins/lenientshutdown/QueueUtils.java:270-283 | True exactly when some regular or one-off executor is busy. |
| QueueUtils.HasNodeExclusiveItemInQueue | src/main/java/com/sonymobile/jenkins/plugins/lenientshutdown/QueueUtils.java:292-303 | True exactly when some queued item fails canOtherNodeBuild for the node. |
| Configuration.ShutdownConfiguration.constructor | src/main/java/com/sonymobile/jenkins/plugins/lenientshutdown/ShutdownConfiguration.java:51-60 | The default message, both flags off and an empty whitelist. |
| Configuration.ShutdownConfiguration.SetAllowAllQueuedItems | src/main/java/com/sonymobile/jenkins/plugins/lenientshutdown/ShutdownConfiguration.java:92-94 | Sets its own field and changes nothing else. |
| Configuration.ShutdownConfiguration.SetAllowWhiteListedProjects | src/main/java/com/sonymobile/jenkins/plugins/lenientshutdown/ShutdownConfiguration.java:101-103 | Sets its own field and changes nothing else. |
| Configuration.ShutdownConfiguration.SetShutdownMessage | src/main/java/com/sonymobile/jenkins/plugins/lenientshutdown/ShutdownConfiguration.java:119-121 | Sets its own field and changes nothing else. |
| Configuration.ShutdownConfiguration.ReplaceWhiteListedProjects | src/main/java/com/sonymobile/jenkins/plugins/lenientshutdown/ShutdownConfiguration.java:165-166 | clear then addAll: the whitelist holds exactly the given names, ascending, whatever it held before. |
| Configuration.ShutdownConfiguration.IsWhiteListedProject | src/main/java/com/sonymobile/jenkins/plugins/lenientshutdown/ShutdownConfiguration.java:147-149 | True exactly when whitelisted projects are allowed and the name is in the whitelist. With the flag off, nothing is whitelisted. |
| Configuration.ShutdownConfiguration.Configure | src/main/java/com/sonymobile/jenkins/plugins/lenientshutdown/ShutdownConfiguration.java:161-169 | Returns true. Sets the message and both flags, and replaces the whitelist (no merge) with the lines of the text. |
| Configuration.ShutdownConfiguration.GetWhiteListedProjectsText | src/main/java/com/sonymobile/jenkins/plugins/lenientshutdown/ShutdownConfiguration.java:128-130 | An empty whitelist gives "". Otherwise the text, split into lines and put into a TreeSet, reproduces the whitelist, provided no name holds a line break. |
| Configuration.WhiteListTextRoundTrip | src/main/java/com/sonymobile/jenkins/plugins/lenientshutdown/ShutdownConfiguration.java:128-130 | The whitelist text, saved back through the configuration form, reproduces a non-empty whitelist whose names contain no line break. |
| Configuration.EmptyWhiteListRoundTrip | src/main/java/com/sonymobile/jenkins/plugins/lenientshutdown/ShutdownConfiguration.java:166 | An empty whitelist comes back as the single name "". |
| Plugin.WithKey | src/main/java/com/sonymobile/jenkins/plugins/lenientshutdown/PluginImpl.java:170-177 | Get-or-create: afterwards the key is present, an absent key holds an empty set, and no lookup changes. |
| Plugin.WithKeyThenStore | src/main/java/com/sonymobile/jenkins/plugins/lenientshutdown/ShutdownSlaveAction.java:129-136 | Refilling a set fetched by get-or-create is the same as storing the new set directly. |
| Plugin.Toggled | src/main/java/com/sonymobile/jenkins/plugins/lenientshutdown/PluginImpl.java:94-101 | An absent node becomes true and a present one is negated. Whether it is shutting down flips, and no other node's entry changes. |
| Plugin.ToggleTwiceRestores | src/main/java/com/sonymobile/jenkins/plugins/lenientshutdown/PluginImpl.java:94-101 | Two toggles restore whether the node is shutting down. |
| Plugin.RecordedProjectPermitted | src/main/java/com/sonymobile/jenkins/plugins/lenientshutdown/PluginImpl.java:110-141 | After a project is recorded for a node, any names holding it are permitted there. Other nodes are unaffected. |
| Plugin.PluginImpl.constructor | src/main/java/com/sonymobile/jenkins/plugins/lenientshutdown/PluginImpl.java:52-68 | All four maps start empty. |
| Plugin.PluginImpl.IsNodeShuttingDown | src/main/java/com/sonymobile/jenkins/plugins/lenientshutdown/PluginImpl.java:85-88 | False for a node that was never toggled. |
| Plugin.PluginImpl.ToggleNodeShuttingDown | src/main/java/com/sonymobile/jenkins/plugins/lenientshutdown/PluginImpl.java:94-101 | The flag map becomes Toggled of the old one, so the node's shutting-down value is negated. |
| Plugin.PluginImpl.GetPermittedUpstreamProjects | src/main/java/com/sonymobile/jenkins/plugins/lenientshutdown/PluginImpl.java:170-177 | Returns the node's set, empty if it had none. Afterwards the key exists. A repeated call returns the same set and changes nothing. |
| Plugin.PluginImpl.GetAlreadyQueuedItemIds | src/main/java/com/sonymobile/jenkins/plugins/lenientshutdown/PluginImpl.java:185-192 | The same get-or-create behaviour, for the node's already-queued ids. |
| Plugin.PluginImpl.IsAnyPermittedUpstreamProject | src/main/java/com/sonymobile/jenkins/plugins/lenientshutdown/PluginImpl.java:110-118 | True exactly when the names meet the node's permitted set, so false for no names. Its one side effect is the get-or-create. |
| Plugin.PluginImpl.WasAlreadyQueued | src/main/java/com/sonymobile/jenkins/plugins/lenientshutdown/PluginImpl.java:127-130 | Membership in the node's id set. False for a node never analysed. Its one side effect is the get-or-create. |
| Plugin.PluginImpl.AddPermittedUpstreamProject | src/main/java/com/sonymobile/jenkins/plugins/lenientshutdown/PluginImpl.java:138-141 | The project's full name joins that node's set only. |
| Plugin.PluginImpl.SetOfflineByUser | src/main/java/com/sonymobile/jenkins/plugins/lenientshutdown/PluginImpl.java:148-150 | Stores the user, possibly null, for that node only. |
| Plugin.PluginImpl.GetOfflineByUser | src/main/java/com/sonymobile/jenkins/plugins/lenientshutdown/PluginImpl.java:157-163 | The recorded user, or the unknown user when none or null was recorded. |
| ManageLink.ShutdownManageLink.constructor | src/main/java/com/sonymobile/jenkins/plugins/lenientshutdown/ShutdownManageLink.java:59-62 | No shutdown active, and both sets empty. |
| ManageLink.ShutdownManageLink.GetDisplayName | src/main/java/com/sonymobile/jenkins/plugins/lenientshutdown/ShutdownManageLink.java:108-113 | The cancel title exactly when shutting down, the activate title otherwise. |
| ManageLink.ShutdownManageLink.GetUrlName | src/main/java/com/sonymobile/jenkins/plugins/lenientshutdown/ShutdownManageLink.java:121-123 | "cancelLenientShutdown" exactly when shutting down, "lenientshutdown" otherwise. |
| ManageLink.ShutdownManageLink.GetDescription | src/main/java/com/sonymobile/jenkins/plugins/lenientshutdown/ShutdownManageLink.java:132-138 | Null exactly when shutting down, the description otherwise. |
| ManageLink.ShutdownManageLink.ToggleGoingToShutdown | src/main/java/com/sonymobile/jenkins/plugins/lenientshutdown/ShutdownManageLink.java:153-155 | Negates the flag, so two toggles restore it. |
| ManageLink.ShutdownManageLink.PerformToggleGoingToShutdown | src/main/java/com/sonymobile/jenkins/plugins/lenientshutdown/ShutdownManageLink.java:193-209 | Negates the flag. A snapshot is scheduled exactly when the flag turns on. The sets are untouched here. |
| ManageLink.ShutdownManageLink.RunShutdownSnapshot | src/main/java/com/sonymobile/jenkins/plugins/lenientshutdown/ShutdownManageLink.java:199-206 | Afterwards alreadyQueuedItemIds equals the permitted queue-item ids. The permitted names are the running names plus the permitted-queue names. |
| ManageLink.ShutdownManageLink.DoCancelLenientShutdown | src/main/java/com/sonymobile/jenkins/plugins/lenientshutdown/ShutdownManageLink.java:170-176 | After the permission check, an unconditional toggle. Without permission, nothing changes. |
| ManageLink.ShutdownManageLink.DoLenientShutdown | src/main/java/com/sonymobile/jenkins/plugins/lenientshutdown/ShutdownManageLink.java:178-185 | After the permission check, the form's allowAllQueuedItems is stored, then the flag is toggled. |
| ManageLink.ShutdownManageLink.IsAnyPermittedUpstreamProject | src/main/java/com/sonymobile/jenkins/plugins/lenientshutdown/ShutdownManageLink.java:218-221 | True exactly when the names meet the permitted set, so false for no names. |
| ManageLink.ShutdownManageLink.AddPermittedUpstreamProject | src/main/java/com/sonymobile/jenkins/plugins/lenientshutdown/ShutdownManageLink.java:229-231 | Only grows the permitted set, by the project's full name. |
| ManageLink.ShutdownManageLink.WasAlreadyQueued | src/main/java/com/sonymobile/jenkins/plugins/lenientshutdown/ShutdownManageLink.java:240-242 | Plain membership in alreadyQueuedItemIds. |
| Preventer.GlobalVerdict | src/main/java/com/sonymobile/jenkins/plugins/lenientshutdown/BuildPreventer.java:56-81 | Allows everything when shutdown is off. An already-queued AbstractProject item is allowed. Any other AbstractProject item is blocked with GlobalShutdownBlockage exactly when none of its upstream names is permitted. A non-AbstractProject task fails the cast. |
| Preventer.CanRun | src/main/java/com/sonymobile/jenkins/plugins/lenientshutdown/BuildPreventer.java:56-81 | Decides as GlobalVerdict. When shutdown is on and the item is allowed, its full name joins the permitted set. Otherwise nothing changes. |
| Preventer.SnapshotItemsAllowed | src/main/java/com/sonymobile/jenkins/plugins/lenientshutdown/BuildPreventer.java:62-64 | An item the activation snapshot recorded is never blocked by canRun. |
| Preventer.AllowedProjectOpensDownstream | src/main/java/com/sonymobile/jenkins/plugins/lenientshutdown/BuildPreventer.java:74-78 | Once a project is allowed during a shutdown, an item listing it as upstream is allowed too. |
| Preventer.NodeVerdict | src/main/java/com/sonymobile/jenkins/plugins/lenientshutdown/BuildPreventer.java:93-119 | Allows everything on a node that is not shutting down, and items already queued for the node. Past the gates, allows exactly when no other node can build the item and some upstream name is permitted on the node. Otherwise the item is blocked with NodeShutdownBlockage. A non-AbstractProject task fails the cast. |
| Preventer.CanTake | src/main/java/com/sonymobile/jenkins/plugins/lenientshutdown/BuildPreventer.java:93-119 | Decides as NodeVerdict. On allow, with the node shutting down, the name joins only that node's set. The get-or-create accessors add empty entries exactly where the short-circuit reaches them. |
| Preventer.NodeAllowedProjectOpensDownstream | src/main/java/com/sonymobile/jenkins/plugins/lenientshutdown/BuildPreventer.java:112-116 | Once a project is allowed on a draining node, an item listing it as upstream is allowed there, unless another node can build it. |
| SlaveAction.DoIndex | src/main/java/com/sonymobile/jenkins/plugins/lenientshutdown/ShutdownSlaveAction.java:111-150 | Permission comes first. A draining node is only toggled off. A busy node, or one with a node-exclusive item, is toggled on and the current user is recorded. An idle node goes offline at once, with the current user or the unknown user, and is never marked as shutting down. |
| SlaveAction.RunNodeSnapshot | src/main/java/com/sonymobile/jenkins/plugins/lenientshutdown/ShutdownSlaveAction.java:128-136 | Replaces the node's permitted names and already-queued ids; the ids are getPermittedQueueItemIds(nodeName). Other nodes are unchanged. |
| SlaveAction.GetIconFileName | src/main/java/com/sonymobile/jenkins/plugins/lenientshutdown/ShutdownSlaveAction.java:75-90 | Null exactly when there is no computer, it is temporarily offline, or the user is missing or lacks permission. Otherwise the disable icon exactly when the node is shutting down, else the enable icon path. |
| SlaveAction.GetDisplayName | src/main/java/com/sonymobile/jenkins/plugins/lenientshutdown/ShutdownSlaveAction.java:93-99 | The cancel text exactly when the node is shutting down. |
| RunListener.OnCompleted | src/main/java/com/sonymobile/jenkins/plugins/lenientshutdown/ShutdownRunListener.java:55-84 | A 10-second idle check is scheduled exactly when the run has an executor, which has a computer, whose node is shutting down. |
| RunListener.RunIdleCheck | src/main/java/com/sonymobile/jenkins/plugins/lenientshutdown/ShutdownRunListener.java:66-78 | Takes the node offline exactly when, at check time, it is still shutting down, not already offline, not building, and has no node-exclusive item. The cause is getOfflineByUser. The flag is never changed, and a stale check does nothing. |
| NodeResetter.OnTemporarilyOnline | src/main/java/com/sonymobile/jenkins/plugins/lenientshutdown/ShutdownNodeResetter.java:57-62 | Afterwards the node is not shutting down. A node that was not shutting down is untouched, and a null plugin changes nothing. |
| NodeResetter.OnOnline | src/main/java/com/sonymobile/jenkins/plugins/lenientshutdown/ShutdownNodeResetter.java:47-49 | Behaves exactly as onTemporarilyOnline. |
| CliBase.FixEmpty | src/main/java/com/sonymobile/jenkins/plugins/lenientshutdown/cli/LenientQuietDownCommandBase.java:87 | Null exactly for null or "", the string itself otherwise. |
| CliBase.Configure | src/main/java/com/sonymobile/jenkins/plugins/lenientshutdown/cli/LenientQuietDownCommandBase.java:85-98 | The message is stored only when non-empty. Both flags are always overwritten. With -p the whitelist becomes exactly the ';' pieces; without it, the whitelist is untouched. |
| CliBase.PrintShutdownConfiguration | src/main/java/com/sonymobile/jenkins/plugins/lenientshutdown/cli/LenientQuietDownCommandBase.java:104-119 | The queued-items line, then the whitelist line. The whitelist text is printed only when whitelisted projects are allowed. |
| CliBase.SemicolonListRoundTrip | src/main/java/com/sonymobile/jenkins/plugins/lenientshutdown/cli/LenientQuietDownCommandBase.java:93-97 | A ';'-joined list whose last name is not empty splits back into exactly its names. |
| CliBase.ThreeProjectWhiteList | src/test/java/com/sonymobile/jenkins/plugins/lenientshutdown/cli/ToggleLenientQuietDownCommandTest.java:106-114 | -p "whitelisted;somename;anotherone" gives a whitelist of three names. |
| QuietDownCommand.Run | src/main/java/com/sonymobile/jenkins/plugins/lenientshutdown/cli/LenientQuietDownCommand.java:47-60 | Permission comes first. When inactive, the command turns shutdown on, applies the options and exits with 0. When already active, it prints an error, exits with 1 and changes nothing. The snapshot reads allowAllQueuedItems from before or after the options, depending on when it runs. |
| CancelCommand.Run | src/main/java/com/sonymobile/jenkins/plugins/lenientshutdown/cli/CancelLenientQuietDownCommand.java:46-58 | Permission comes first. Afterwards no shutdown is active, and the exit code is always 0, so a repeated run is harmless. Without an active shutdown, the command only prints an error. |
| ToggleCommand.GetShortDescription | src/main/java/com/sonymobile/jenkins/plugins/lenientshutdown/cli/ToggleLenientQuietDownCommand.java:54-60 | The cancel title exactly when shutting down. |
| ToggleCommand.Run | src/main/java/com/sonymobile/jenkins/plugins/lenientshutdown/cli/ToggleLenientQuietDownCommand.java:63-82 | Flips the flag and always exits with 0. A non-empty message is stored. The printed line reflects the new flag, and the snapshot runs when shutdown turns on. |
| ToggleCommand.RunTwice | src/test/java/com/sonymobile/jenkins/plugins/lenientshutdown/cli/ToggleLenientQuietDownCommandTest.java:65-74 | Two runs restore the shutdown flag. |

## Left out

- Background threads and timers. The snapshot bodies (`RunShutdownSnapshot`, `RunNodeSnapshot`) and the idle check (`RunIdleCheck`) are atomic methods that callers run explicitly. `OnCompleted` returns the check it would schedule. The model covers no interleavings, except that `QuietDownCommand.Run` may run the snapshot before or after the options are applied.
- The Jenkins substrate. Queue, Node, Computer, Executor, Run and User are values, fixed for one call. `Node.canTake` is the relation `accepts`. Nodes are told apart by name. HashSet iteration order does not matter to any result.
- Helpers that are not part of this model: `QueueUtils.getUpstreamProjectNames` is a field of the item. `getRunningProjectNames`, `getPermittedQueueProjectNames` and their per-node versions are fields of the snapshot, and so is `ShutdownConfiguration.isAllowAllJobs`. `printStatus` is not part of this model, so `QuietDownCommand.Run` prints nothing on success. `PluginImpl.setNodeOffline` and `ShutdownNodeAction` are not part of this model either.
- `LenientOfflineNodeCommand` is not part of this model. `ShutdownDecorator` is not part of this model either. Its getter reads the configuration's message, so `ToggleCommand.Run` stores the message in the configuration.
- Persistence. `load()` and every `save()` are not modelled.
- Permission checks are a boolean parameter. A denied check yields `AccessDenied` and changes nothing.
- Presentation: redirects, Stapler form parsing, the management link's fixed icon, `getRequiredPermission`, the `getInstance` lookups, message localisation and logging.
- Aliasing. Callers mutate the sets returned by the get-or-create accessors in place. The model reassigns the map entry instead. Synchronized collections and `CopyOnWriteMap` are modelled as plain maps and sets.
- Strings.Less: compares characters by code point. String.compareTo compares UTF-16 code units, so the whitelist order, the whitelist text and the CLI printout can differ from Java's when names hold characters outside the Basic Multilingual Plane.
- Ids are `Integer` in some places and `Long` in others. The model uses unbounded natural numbers, because Jenkins numbers queue items upwards from one. Overflow is not modelled.
- The ClassCastException at the `(AbstractProject)` casts is the `CastFailure` verdict. What Jenkins does with the exception is not modelled.
- SlaveAction.DoIndex: requires the action's computer. With a null computer the source fails with a NullPointerException, which is not modelled.
- The `--allow-queued`, `--allow-whitelisted` and `-p` options exercised in src/test/java/com/sonymobile/jenkins/plugins/lenientshutdown/cli/ToggleLenientQuietDownCommandTest.java:80-115 are not declared by `ToggleLenientQuietDownCommand`, and are not modelled on it.
