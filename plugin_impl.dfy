/** The per-node drain state kept by the plugin instance (PluginImpl). */
module Plugin {
  import opened Substrate

  /** The set stored under a key, or the empty set a fresh entry would hold. */
  function Lookup<V>(m: map<string, set<V>>, key: string): set<V>
  {
    if key in m then m[key] else {}
  }

  /** The map after a get-or-create access to key: the key is present, an
      absent key gets an empty set, and what any key looks up is unchanged. */
  function WithKey<V>(m: map<string, set<V>>, key: string): (r: map<string, set<V>>)
    ensures key in r && r.Keys == m.Keys + {key}
    ensures key in m ==> r == m
    ensures forall k :: Lookup(r, k) == Lookup(m, k)
  {
    if key in m then m else m[key := {}]
  }

  /** Storing under a key after a get-or-create access to it is storing
      under it directly. */
  lemma WithKeyThenStore<V>(m: map<string, set<V>>, key: string, value: set<V>)
    ensures WithKey(m, key)[key := value] == m[key := value]
  {
    var a := WithKey(m, key)[key := value];
    var b := m[key := value];
    assert a.Keys == b.Keys;
    assert forall k | k in a :: a[k] == b[k];
  }

  /** A node is shutting down when its entry is present and true. */
  predicate ShuttingDown(flags: map<string, bool>, nodeName: string)
  {
    nodeName in flags && flags[nodeName]
  }

  /** The flag map after toggling one node: an absent entry becomes true, a
      present one is negated. */
  function Toggled(flags: map<string, bool>, nodeName: string): (r: map<string, bool>)
    ensures nodeName in r
    ensures nodeName !in flags ==> r[nodeName]
    ensures ShuttingDown(r, nodeName) <==> !ShuttingDown(flags, nodeName)
    ensures forall n | n != nodeName :: (n in r <==> n in flags) && (n in r ==> r[n] == flags[n])
  {
    if nodeName in flags then flags[nodeName := !flags[nodeName]] else flags[nodeName := true]
  }

  /** Two toggles restore whether the node is shutting down. */
  lemma ToggleTwiceRestores(flags: map<string, bool>, nodeName: string)
    ensures ShuttingDown(Toggled(Toggled(flags, nodeName), nodeName), nodeName) == ShuttingDown(flags, nodeName)
  {
  }

  /** names meets the node's permitted upstream project names. */
  predicate AnyPermitted(permitted: map<string, set<string>>, names: set<string>, nodeName: string)
  {
    names * Lookup(permitted, nodeName) != {}
  }

  /** Once a project is recorded for a node, any set of names holding it is
      permitted on that node, and what other nodes permit is unchanged. */
  lemma RecordedProjectPermitted(permitted: map<string, set<string>>, nodeName: string, project: string, names: set<string>)
    requires project in names
    ensures AnyPermitted(permitted[nodeName := Lookup(permitted, nodeName) + {project}], names, nodeName)
    ensures forall other | other != nodeName ::
      AnyPermitted(permitted[nodeName := Lookup(permitted, nodeName) + {project}], names, other)
        == AnyPermitted(permitted, names, other)
  {
    assert project in names * (Lookup(permitted, nodeName) + {project});
  }

  class PluginImpl {
    /** Node name -> whether the node is in lenient offline mode. */
    var lenientOfflineSlaves: map<string, bool>
    /** Node name -> the user who put it in lenient offline mode; None is a
        stored null. */
    var userTriggers: map<string, Option<User>>
    /** Node name -> project names allowed to trigger a downstream build there. */
    var permittedSlaveUpstreamProjects: map<string, set<string>>
    /** Node name -> queue item ids allowed to build there. */
    var permittedSlaveQueuedItemIds: map<string, set<Id>>

    constructor()
      ensures lenientOfflineSlaves == map[] && userTriggers == map[]
      ensures permittedSlaveUpstreamProjects == map[] && permittedSlaveQueuedItemIds == map[]
    {
      lenientOfflineSlaves := map[];
      userTriggers := map[];
      permittedSlaveUpstreamProjects := map[];
      permittedSlaveQueuedItemIds := map[];
    }

    function IsNodeShuttingDown(nodeName: string): (r: bool)
      reads this
      ensures nodeName !in lenientOfflineSlaves ==> !r
    {
      ShuttingDown(lenientOfflineSlaves, nodeName)
    }

    method ToggleNodeShuttingDown(nodeName: string)
      modifies this`lenientOfflineSlaves
      ensures lenientOfflineSlaves == Toggled(old(lenientOfflineSlaves), nodeName)
      ensures IsNodeShuttingDown(nodeName) == !old(IsNodeShuttingDown(nodeName))
    {
      if nodeName !in lenientOfflineSlaves {
        lenientOfflineSlaves := lenientOfflineSlaves[nodeName := true];
      } else {
        var nodeShuttingDown := lenientOfflineSlaves[nodeName];
        lenientOfflineSlaves := lenientOfflineSlaves[nodeName := !nodeShuttingDown];
      }
    }

    /** Get-or-create: returns the node's set, storing an empty one first if
        the node has none. */
    method GetPermittedUpstreamProjects(nodeName: string) returns (names: set<string>)
      modifies this`permittedSlaveUpstreamProjects
      ensures names == Lookup(old(permittedSlaveUpstreamProjects), nodeName)
      ensures permittedSlaveUpstreamProjects == WithKey(old(permittedSlaveUpstreamProjects), nodeName)
      ensures names == permittedSlaveUpstreamProjects[nodeName]
    {
      if nodeName !in permittedSlaveUpstreamProjects {
        permittedSlaveUpstreamProjects := permittedSlaveUpstreamProjects[nodeName := {}];
      }
      names := permittedSlaveUpstreamProjects[nodeName];
    }

    /** Get-or-create for the node's already-queued item ids. */
    method GetAlreadyQueuedItemIds(nodeName: string) returns (ids: set<Id>)
      modifies this`permittedSlaveQueuedItemIds
      ensures ids == Lookup(old(permittedSlaveQueuedItemIds), nodeName)
      ensures permittedSlaveQueuedItemIds == WithKey(old(permittedSlaveQueuedItemIds), nodeName)
      ensures ids == permittedSlaveQueuedItemIds[nodeName]
    {
      if nodeName !in permittedSlaveQueuedItemIds {
        permittedSlaveQueuedItemIds := permittedSlaveQueuedItemIds[nodeName := {}];
      }
      ids := permittedSlaveQueuedItemIds[nodeName];
    }

    method IsAnyPermittedUpstreamProject(projectNames: set<string>, nodeName: string) returns (isPermitted: bool)
      modifies this`permittedSlaveUpstreamProjects
      ensures isPermitted <==> AnyPermitted(old(permittedSlaveUpstreamProjects), projectNames, nodeName)
      ensures projectNames == {} ==> !isPermitted
      ensures permittedSlaveUpstreamProjects == WithKey(old(permittedSlaveUpstreamProjects), nodeName)
    {
      var permittedProjectNames := GetPermittedUpstreamProjects(nodeName);
      var intersection := projectNames * permittedProjectNames;
      isPermitted := intersection != {};
    }

    method WasAlreadyQueued(id: Id, nodeName: string) returns (queued: bool)
      modifies this`permittedSlaveQueuedItemIds
      ensures queued <==> id in Lookup(old(permittedSlaveQueuedItemIds), nodeName)
      ensures nodeName !in old(permittedSlaveQueuedItemIds) ==> !queued
      ensures permittedSlaveQueuedItemIds == WithKey(old(permittedSlaveQueuedItemIds), nodeName)
    {
      var alreadyQueuedItemIds := GetAlreadyQueuedItemIds(nodeName);
      queued := id in alreadyQueuedItemIds;
    }

    /** Adds the project's full name to the node's permitted set, creating the
        set if needed; no other node's set changes. */
    method AddPermittedUpstreamProject(project: Task, nodeName: string)
      requires IsAbstractProject(project)
      modifies this`permittedSlaveUpstreamProjects
      ensures permittedSlaveUpstreamProjects ==
        old(permittedSlaveUpstreamProjects)[nodeName := Lookup(old(permittedSlaveUpstreamProjects), nodeName) + {project.fullName}]
    {
      var permittedUpstreamProjectNames := GetPermittedUpstreamProjects(nodeName);
      permittedSlaveUpstreamProjects := permittedSlaveUpstreamProjects[nodeName := permittedUpstreamProjectNames + {project.fullName}];
    }

    method SetOfflineByUser(nodeName: string, user: Option<User>)
      modifies this`userTriggers
      ensures userTriggers == old(userTriggers)[nodeName := user]
    {
      userTriggers := userTriggers[nodeName := user];
    }

    /** The recorded user, or the unknown user when none (or null) was stored. */
    function GetOfflineByUser(nodeName: string): (user: User)
      reads this
      ensures nodeName in userTriggers && userTriggers[nodeName].Some? ==> user == userTriggers[nodeName].value
      ensures nodeName !in userTriggers || userTriggers[nodeName].None? ==> user == UnknownUser
    {
      if nodeName in userTriggers && userTriggers[nodeName].Some? then userTriggers[nodeName].value
      else UnknownUser
    }
  }
}
