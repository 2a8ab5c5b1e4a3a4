/** The scheduler's tick on the leader: liveness, failover and group autoscaling
    (daemon/internal/scheduler/scheduler.go). */
module Scheduling {
  import opened Types
  import opened FsmModel
  import opened Tables
  import opened RaftFsm
  import opened ClusterApply
  import opened Placement
  import opened Sorting

  const SECOND := 1_000_000_000

  class Scheduler {
    const fsm: Fsm
    const cluster: Cluster
    const heartbeatDeadline: int
    const failoverGrace: int
    /** How many spawns have failed for want of their template. */
    ghost var templateMisses: nat

    constructor (cluster: Cluster, heartbeatDeadline: int, failoverGrace: int)
      ensures this.cluster == cluster && this.fsm == cluster.fsm && templateMisses == 0
      ensures this.heartbeatDeadline == if heartbeatDeadline == 0 then 1_000_000_000 else heartbeatDeadline
      ensures this.failoverGrace == if failoverGrace == 0 then 2_000_000_000 else failoverGrace
    {
      this.cluster, this.fsm := cluster, cluster.fsm;
      this.heartbeatDeadline := if heartbeatDeadline == 0 then SECOND else heartbeatDeadline;
      this.failoverGrace := if failoverGrace == 0 then 2 * SECOND else failoverGrace;
      templateMisses := 0;
    }

    ghost predicate Valid()
      reads this, fsm, fsm.Repr
    {
      cluster.fsm == fsm && fsm.Valid() && this !in fsm.Repr
    }

    function TimingAt(now: int): (t: Timing) {
      Timing(now, heartbeatDeadline, failoverGrace)
    }

    /** pickHost: an Up node with enough free memory and no other with more, if there is one. */
    method PickHost(spec: ServerSpec, exclude: string) returns (host: Option<Node>)
      requires Valid() && KeysMatch(fsm.Model())
      ensures var nodes := fsm.Model().nodes;
              match host
              case Some(n) => n.id in nodes && nodes[n.id] == n && BestHost(nodes, n.id, spec.memoryMB, exclude)
              case None => !HasHost(nodes, spec.memoryMB, exclude)
    {
      var all, keys := fsm.Nodes();
      var candidates: seq<Node> := [];
      for i := 0 to |all|
        invariant forall n :: n in candidates <==> n in all[..i] && Hosts(n, spec.memoryMB, exclude)
      {
        assert all[..i + 1] == all[..i] + [all[i]];
        if all[i].state != NodeUp || all[i].id == exclude { continue; }
        if all[i].resources.FreeMemoryMB() < spec.memoryMB { continue; }
        candidates := candidates + [all[i]];
      }
      assert all[..|all|] == all;
      ghost var nodes := fsm.Model().nodes;
      assert forall k | k in nodes :: nodes[k] in all;
      if |candidates| == 0 {
        return None;
      }
      var sorted, p := SortBy(candidates, (n: Node) => -(n.resources.FreeMemoryMB() as int));
      assert sorted[0] == candidates[p[0]];
      assert sorted[0] in candidates;
      forall k | k in nodes && Hosts(nodes[k], spec.memoryMB, exclude)
        ensures nodes[k].resources.FreeMemoryMB() <= sorted[0].resources.FreeMemoryMB()
      {
        assert nodes[k] in candidates;
        InSorted(candidates, sorted, p, nodes[k]);
      }
      return Some(sorted[0]);
    }

    method MarkNodeDown(nodeId: string)
      requires Valid() && KeysMatch(fsm.Model())
      modifies fsm.Repr
      ensures Valid() && fresh(fsm.Repr - old(fsm.Repr)) && old(fsm.Repr) <= fsm.Repr
      ensures var m := old(fsm.Model());
              fsm.Model() == m
              || (nodeId in m.nodes
                  && fsm.Model() == m.(nodes := m.nodes[nodeId := m.nodes[nodeId].(state := NodeDown)]))
      ensures var m := old(fsm.Model());
              cluster.reliable && nodeId in m.nodes ==>
                fsm.Model() == m.(nodes := m.nodes[nodeId := m.nodes[nodeId].(state := NodeDown)])
      ensures KeysMatch(fsm.Model())
    {
      var n := fsm.GetNode(nodeId);
      if n.None? {
        return;
      }
      var _ := cluster.UpsertNode(n.value.(state := NodeDown));
    }

    /** Orphans the node's servers, or, if they are highly available, re-schedules them. */
    method Evacuate(dead: string)
      requires Valid() && KeysMatch(fsm.Model())
      modifies fsm.Repr
      ensures Valid() && fresh(fsm.Repr - old(fsm.Repr)) && old(fsm.Repr) <= fsm.Repr
      ensures Evacuated(old(fsm.Model()), fsm.Model(), dead, cluster.reliable)
      ensures KeysMatch(fsm.Model())
    {
      hide FsmModel.KeysMatch, EvacuatedSoFar;
      ghost var m0 := fsm.Model();
      assert forall k | k in m0.servers :: m0.servers[k].spec.id == k by { ServerKeys(m0); }
      var orphans, keys := fsm.ServersOnNode(dead);
      ListedOnNode(m0, dead, orphans, keys);
      EvacuationStarts(m0, dead, cluster.reliable);
      for i := 0 to |orphans|
        invariant Valid() && fresh(fsm.Repr - old(fsm.Repr)) && old(fsm.Repr) <= fsm.Repr
        invariant EvacuatedSoFar(m0, fsm.Model(), dead, cluster.reliable, Seen(keys, i))
        invariant KeysMatch(fsm.Model())
      {
        assert Seen(keys, i + 1) == Seen(keys, i) + {keys[i]};
        EvacuateOne(orphans[i], dead, m0, Seen(keys, i));
      }
      EvacuationEnds(m0, fsm.Model(), dead, cluster.reliable, Seen(keys, |orphans|));
    }

    method EvacuateOne(srv: Server, dead: string, ghost m0: State, ghost done: set<string>)
      requires Valid() && KeysMatch(fsm.Model())
      requires EvacuatedSoFar(m0, fsm.Model(), dead, cluster.reliable, done)
      requires srv.spec.id in m0.servers && srv.spec.id !in done
      requires m0.servers[srv.spec.id] == srv && srv.nodeId == dead
      modifies fsm.Repr
      ensures Valid() && fresh(fsm.Repr - old(fsm.Repr)) && old(fsm.Repr) <= fsm.Repr
      ensures KeysMatch(fsm.Model())
      ensures EvacuatedSoFar(m0, fsm.Model(), dead, cluster.reliable, done + {srv.spec.id})
    {
      hide FsmModel.KeysMatch, EvacuatedSoFar;
      ghost var m, r1 := fsm.Model(), srv;
      if !srv.spec.haRequired {
        r1 := srv.(state := ServerOrphaned);
        var _ := cluster.UpsertServer(srv.(state := ServerOrphaned));
      } else {
        var target := PickHost(srv.spec, dead);
        if target.Some? {
          r1 := Moved(srv, target.value.id);
          var _ := cluster.UpsertServer(Moved(srv, target.value.id));
        }
      }
      assert Handled(m.nodes, dead, srv, r1, true);
      EvacuationStep(m0, m, fsm.Model(), dead, cluster.reliable, done, srv, r1);
    }

    /** The liveness loop of tick, over the nodes in any order. */
    method LivenessPass(now: int)
      requires Valid() && KeysMatch(fsm.Model())
      modifies fsm.Repr
      ensures Valid() && fresh(fsm.Repr - old(fsm.Repr)) && old(fsm.Repr) <= fsm.Repr
      ensures KeysMatch(fsm.Model())
      ensures Surveyed(old(fsm.Model()), fsm.Model(), old(fsm.Model()).nodes.Keys, TimingAt(now), cluster.reliable)
    {
      hide FsmModel.KeysMatch, Placement.Surveyed;
      ghost var m0 := fsm.Model();
      var nodes, keys := fsm.Nodes();
      ListedNodes(m0, nodes, keys);
      SurveyStarts(m0, TimingAt(now), cluster.reliable);
      for i := 0 to |nodes|
        invariant Valid() && fresh(fsm.Repr - old(fsm.Repr)) && old(fsm.Repr) <= fsm.Repr
        invariant KeysMatch(fsm.Model())
        invariant Surveyed(m0, fsm.Model(), Seen(keys, i), TimingAt(now), cluster.reliable)
      {
        assert Seen(keys, i + 1) == Seen(keys, i) + {keys[i]};
        LivenessStep(nodes[i], now, m0, Seen(keys, i));
      }
    }

    method LivenessStep(node: Node, now: int, ghost m0: State, ghost seen: set<string>)
      requires Valid() && KeysMatch(fsm.Model())
      requires Surveyed(m0, fsm.Model(), seen, TimingAt(now), cluster.reliable)
      requires node.id in m0.nodes && m0.nodes[node.id] == node && node.id !in seen
      modifies fsm.Repr
      ensures Valid() && fresh(fsm.Repr - old(fsm.Repr)) && old(fsm.Repr) <= fsm.Repr
      ensures KeysMatch(fsm.Model())
      ensures Surveyed(m0, fsm.Model(), seen + {node.id}, TimingAt(now), cluster.reliable)
    {
      hide FsmModel.KeysMatch, Evacuated;
      ghost var t, m := TimingAt(now), fsm.Model();
      if node.state == NodeDown {
        assert m.nodes == m.nodes[node.id := node];
        SurveyQuietNode(m0, m, m, seen, node.id, t, cluster.reliable);
      } else if now - node.lastHeartbeat > heartbeatDeadline + failoverGrace {
        MarkNodeDown(node.id);
        ghost var marked := fsm.Model();
        Evacuate(node.id);
        SurveyDeadNode(m0, m, marked, fsm.Model(), seen, node.id, t, cluster.reliable);
      } else if now - node.lastHeartbeat > heartbeatDeadline && node.state != NodeSuspect {
        var _ := cluster.UpsertNode(node.(state := NodeSuspect));
        SurveyQuietNode(m0, m, fsm.Model(), seen, node.id, t, cluster.reliable);
      } else {
        assert m.nodes == m.nodes[node.id := node];
        SurveyQuietNode(m0, m, m, seen, node.id, t, cluster.reliable);
      }
    }

    // ---- autoscaling --------------------------------------------------------

    /** spawnGroupInstance: a missing template is reported as such, and only then. */
    method SpawnGroupInstance(g: Group) returns (result: SpawnResult, ghost id: string)
      requires Valid() && KeysMatch(fsm.Model())
      modifies fsm.Repr, `templateMisses
      ensures Valid() && fresh(fsm.Repr - old(fsm.Repr)) && old(fsm.Repr) <= fsm.Repr
      ensures KeysMatch(fsm.Model())
      ensures var m := old(fsm.Model());
              && (result == TemplateMissing <==> g.templateId !in m.templates)
              && (result == NoHost <==> g.templateId in m.templates && !CanSpawn(m, g))
              && (cluster.reliable ==> result != CommitFailed)
              && templateMisses == (if result == TemplateMissing then old(templateMisses) + 1 else old(templateMisses))
              && if result == Spawned then Spawned1(m, fsm.Model(), g, id) else fsm.Model() == m
    {
      hide FsmModel.KeysMatch;
      var tpl := fsm.GetTemplate(g.templateId);
      id := "";
      if tpl.None? {
        templateMisses := templateMisses + 1;
        return TemplateMissing, id;
      }
      ghost var m := fsm.Model();
      assert tpl.value.id == g.templateId by { TemplateKeys(m); }
      var newId := NewId(fsm.servers.cells.Keys);
      assert newId !in m.servers;
      var suffix: string := *;
      var spec := ServerSpec(newId, g.name + "-" + suffix, tpl.value.id, g.id, tpl.value.image,
                             INSTANCE_MEMORY_MB, 1.0, map[], 25565, g.haRequired);
      var host := PickHost(spec, "");
      if host.None? {
        return NoHost, id;
      }
      var srv := Server(spec, host.value.id, ServerStarting, 0, 0, 0, "", 0);
      var ok := cluster.UpsertServer(srv);
      id := newId;
      return if ok then Spawned else CommitFailed, id;
    }

    method StopServer(id: string) returns (missing: bool)
      requires Valid() && KeysMatch(fsm.Model())
      modifies fsm.Repr
      ensures Valid() && fresh(fsm.Repr - old(fsm.Repr)) && old(fsm.Repr) <= fsm.Repr
      ensures KeysMatch(fsm.Model())
      ensures var m := old(fsm.Model());
              && missing == (id !in m.servers)
              && ((fsm.Model() == m && (missing || !cluster.reliable))
                  || (id in m.servers
                      && fsm.Model() == m.(servers := m.servers[id := m.servers[id].(state := ServerStopping)])))
    {
      hide FsmModel.KeysMatch;
      assert forall k | k in fsm.Model().servers :: fsm.Model().servers[k].spec.id == k by { ServerKeys(fsm.Model()); }
      var srv := fsm.GetServer(id);
      if srv.None? {
        return true;
      }
      var _ := cluster.UpsertServer(srv.value.(state := ServerStopping));
      return false;
    }

    /** `needed` attempts to spawn; without a template or a host none of them does anything, and
        without a template each of them is a miss. */
    method ScaleUp(g: Group, needed: nat)
      requires Valid() && KeysMatch(fsm.Model())
      modifies fsm.Repr, `templateMisses
      ensures Valid() && fresh(fsm.Repr - old(fsm.Repr)) && old(fsm.Repr) <= fsm.Repr
      ensures KeysMatch(fsm.Model())
      ensures Growing(old(fsm.Model()), fsm.Model(), g, needed, cluster.reliable)
      ensures templateMisses == old(templateMisses) + if g.templateId in old(fsm.Model()).templates then 0 else needed
    {
      hide FsmModel.KeysMatch, Growing, Spawned1;
      ghost var m0 := fsm.Model();
      GrowingStarts(m0, g, cluster.reliable);
      for i := 0 to needed
        invariant Valid() && fresh(fsm.Repr - old(fsm.Repr)) && old(fsm.Repr) <= fsm.Repr
        invariant KeysMatch(fsm.Model())
        invariant Growing(m0, fsm.Model(), g, i, cluster.reliable)
        invariant templateMisses == old(templateMisses) + if g.templateId in m0.templates then 0 else i
      {
        ghost var m := fsm.Model();
        GrowingKnows(m0, m, g, i, cluster.reliable);
        var result, id := SpawnGroupInstance(g);
        GrowingStep(m0, m, fsm.Model(), g, i, cluster.reliable, result, id);
      }
    }

    /** Sorts the instances by players in place and stops the first `drop` of them. */
    method ScaleDown(current: seq<Server>, drop: nat, ghost slice: map<string, Server>)
      requires Valid() && KeysMatch(fsm.Model())
      requires drop <= |current| && Roster(current, slice)
      requires forall k | k in slice :: k in fsm.Model().servers && fsm.Model().servers[k] == slice[k]
      modifies fsm.Repr
      ensures Valid() && fresh(fsm.Repr - old(fsm.Repr)) && old(fsm.Repr) <= fsm.Repr
      ensures KeysMatch(fsm.Model())
      ensures exists told :: LeastLoaded(slice, told, drop)
                          && Shrinking(old(fsm.Model()), fsm.Model(), told, cluster.reliable)
    {
      hide FsmModel.KeysMatch, Shrinking, LeastLoaded, Roster;
      var sorted, p := SortBy(current, (v: Server) => v.playerCount as int);
      RosterSorted(current, sorted, p, slice);
      LeastLoadedFirst(sorted, slice, drop);
      StopFirst(sorted, drop, slice);
    }

    method StopFirst(sorted: seq<Server>, drop: nat, ghost slice: map<string, Server>)
      requires Valid() && KeysMatch(fsm.Model())
      requires drop <= |sorted| && Roster(sorted, slice)
      requires forall k | k in slice :: k in fsm.Model().servers && fsm.Model().servers[k] == slice[k]
      modifies fsm.Repr
      ensures Valid() && fresh(fsm.Repr - old(fsm.Repr)) && old(fsm.Repr) <= fsm.Repr
      ensures KeysMatch(fsm.Model())
      ensures Shrinking(old(fsm.Model()), fsm.Model(), Ids(sorted, drop), cluster.reliable)
    {
      hide FsmModel.KeysMatch, Shrinking;
      ghost var m0 := fsm.Model();
      ShrinkingStarts(m0, cluster.reliable);
      assert Ids(sorted, 0) == {};
      assert forall i | 0 <= i < drop :: sorted[i].spec.id in m0.servers;
      hide Roster;
      for i := 0 to drop
        invariant Valid() && fresh(fsm.Repr - old(fsm.Repr)) && old(fsm.Repr) <= fsm.Repr
        invariant KeysMatch(fsm.Model())
        invariant Shrinking(m0, fsm.Model(), Ids(sorted, i), cluster.reliable)
      {
        assert Ids(sorted, i + 1) == Ids(sorted, i) + {sorted[i].spec.id};
        StopNext(sorted[i].spec.id, m0, Ids(sorted, i));
      }
    }

    method StopNext(id: string, ghost m0: State, ghost told: set<string>)
      requires Valid() && KeysMatch(fsm.Model())
      requires id in m0.servers && Shrinking(m0, fsm.Model(), told, cluster.reliable)
      modifies fsm.Repr
      ensures Valid() && fresh(fsm.Repr - old(fsm.Repr)) && old(fsm.Repr) <= fsm.Repr
      ensures KeysMatch(fsm.Model())
      ensures Shrinking(m0, fsm.Model(), told + {id}, cluster.reliable)
    {
      hide FsmModel.KeysMatch, Shrinking;
      ghost var m := fsm.Model();
      ShrinkingKnows(m0, m, told, cluster.reliable);
      var _ := StopServer(id);
      ShrinkingStep(m0, m, fsm.Model(), told, id, cluster.reliable);
    }

    /** The scaling of one group, given the servers that were in it when the tick began. */
    method ScaleGroup(g: Group, current: seq<Server>)
      requires Valid() && KeysMatch(fsm.Model())
      requires if g.id == "" then current == [] else Roster(current, Slice(fsm.Model().servers, g.id))
      modifies fsm.Repr, `templateMisses
      ensures Valid() && fresh(fsm.Repr - old(fsm.Repr)) && old(fsm.Repr) <= fsm.Repr
      ensures KeysMatch(fsm.Model())
      ensures ScaledOne(old(fsm.Model()), fsm.Model(), g, cluster.reliable)
      ensures g.templateId in old(fsm.Model()).templates ==> templateMisses == old(templateMisses)
    {
      hide FsmModel.KeysMatch, Growing, Shrinking, LeastLoaded, Placement.Scaled;
      ghost var m := fsm.Model();
      ghost var slice := Slice(m.servers, g.id);
      if g.id != "" {
        RosterSize(current, slice);
      }
      if |current| < g.minInstances {
        var needed := g.minInstances - |current|;
        ScaleUp(g, needed);
        ScaledUp(m, fsm.Model(), g, needed, cluster.reliable);
      } else if g.maxInstances > 0 && |current| > g.maxInstances {
        var drop := |current| - g.maxInstances;
        ScaleDown(current, drop, slice);
        ghost var told :| LeastLoaded(slice, told, drop) && Shrinking(m, fsm.Model(), told, cluster.reliable);
        ScaledDown(m, fsm.Model(), g, told, drop, cluster.reliable);
      } else {
        NotScaled(m, g, cluster.reliable);
      }
    }

    /** The autoscaling half of tick: servers and groups are listed once, at the start. */
    method AutoscalePass()
      requires Valid() && KeysMatch(fsm.Model())
      modifies fsm.Repr, `templateMisses
      ensures Valid() && fresh(fsm.Repr - old(fsm.Repr)) && old(fsm.Repr) <= fsm.Repr
      ensures KeysMatch(fsm.Model())
      ensures Autoscaled(old(fsm.Model()), fsm.Model(), old(fsm.Model()).groups.Keys, cluster.reliable)
      ensures (forall k | k in old(fsm.Model()).groups ::
                 old(fsm.Model()).groups[k].templateId in old(fsm.Model()).templates) ==>
                templateMisses == old(templateMisses)
    {
      hide FsmModel.KeysMatch, Placement.Autoscaled, ScaledOne, Roster;
      ghost var m0 := fsm.Model();
      var servers, serverKeys := fsm.Servers();
      var byGroup := ByGroup(servers);
      var groups, keys := fsm.Groups();
      ListedGroups(m0, groups, keys);
      AutoscaleStarts(m0, cluster.reliable);
      for i := 0 to |groups|
        invariant Valid() && fresh(fsm.Repr - old(fsm.Repr)) && old(fsm.Repr) <= fsm.Repr
        invariant KeysMatch(fsm.Model())
        invariant Autoscaled(m0, fsm.Model(), Seen(keys, i), cluster.reliable)
        invariant (forall k | k in m0.groups :: m0.groups[k].templateId in m0.templates) ==>
                    templateMisses == old(templateMisses)
      {
        var g := groups[i];
        var current := if g.id in byGroup then byGroup[g.id] else [];
        assert Seen(keys, i + 1) == Seen(keys, i) + {keys[i]};
        AutoscaleOne(g, current, m0, servers, serverKeys, Seen(keys, i));
      }
    }

    method AutoscaleOne(
      g: Group, current: seq<Server>, ghost m0: State, ghost servers: seq<Server>, ghost keys: seq<string>,
      ghost done: set<string>)
      requires Valid() && KeysMatch(fsm.Model()) && KeysMatch(m0)
      requires Lists(servers, m0.servers, keys)
      requires current == if g.id == "" then [] else FilterGroup(servers, g.id)
      requires g.id in m0.groups && m0.groups[g.id] == g && g.id !in done
      requires Autoscaled(m0, fsm.Model(), done, cluster.reliable)
      modifies fsm.Repr, `templateMisses
      ensures Valid() && fresh(fsm.Repr - old(fsm.Repr)) && old(fsm.Repr) <= fsm.Repr
      ensures KeysMatch(fsm.Model())
      ensures Autoscaled(m0, fsm.Model(), done + {g.id}, cluster.reliable)
      ensures g.templateId in m0.templates ==> templateMisses == old(templateMisses)
    {
      hide FsmModel.KeysMatch, Placement.Autoscaled, ScaledOne, Roster, Tables.Lists;
      ghost var m := fsm.Model();
      AutoscaleKnows(m0, m, done, g, cluster.reliable);
      if g.id != "" {
        FilterRoster(m0, servers, keys, g.id);
      }
      ScaleGroup(g, current);
      AutoscaleStep(m0, m, fsm.Model(), done, g, cluster.reliable);
    }

    /** One tick: the liveness pass leaves the state `mid` that autoscaling starts from. */
    method Tick(now: int) returns (ghost mid: State)
      requires Valid() && KeysMatch(fsm.Model())
      modifies fsm.Repr, `templateMisses
      ensures Valid() && fresh(fsm.Repr - old(fsm.Repr)) && old(fsm.Repr) <= fsm.Repr
      ensures KeysMatch(mid) && KeysMatch(fsm.Model())
      ensures Surveyed(old(fsm.Model()), mid, old(fsm.Model()).nodes.Keys, TimingAt(now), cluster.reliable)
      ensures Autoscaled(mid, fsm.Model(), mid.groups.Keys, cluster.reliable)
      ensures (forall k | k in mid.groups :: mid.groups[k].templateId in mid.templates) ==>
                templateMisses == old(templateMisses)
    {
      hide FsmModel.KeysMatch, Placement.Autoscaled, Placement.Surveyed;
      LivenessPass(now);
      mid := fsm.Model();
      AutoscalePass();
    }
  }

  ghost function Seen(keys: seq<string>, n: nat): (r: set<string>)
    requires n <= |keys|
  {
    set i | 0 <= i < n :: keys[i]
  }

  ghost predicate EvacuatedSoFar(m0: State, m: State, dead: string, reliable: bool, done: set<string>) {
    && m == m0.(servers := m.servers)
    && m.servers.Keys == m0.servers.Keys
    && forall k | k in m0.servers ::
         if k in done then Handled(m0.nodes, dead, m0.servers[k], m.servers[k], reliable)
         else m.servers[k] == m0.servers[k]
  }

  lemma ServerKeys(m: State)
    requires KeysMatch(m)
    ensures forall k | k in m.servers :: m.servers[k].spec.id == k
  {
  }

  lemma EvacuationStarts(m0: State, dead: string, reliable: bool)
    ensures EvacuatedSoFar(m0, m0, dead, reliable, {})
  {
  }

  lemma EvacuationStep(
    m0: State, m: State, m': State, dead: string, reliable: bool, done: set<string>, r0: Server, r1: Server)
    requires EvacuatedSoFar(m0, m, dead, reliable, done)
    requires r0.spec.id in m0.servers && r0.spec.id !in done && m0.servers[r0.spec.id] == r0
    requires Handled(m.nodes, dead, r0, r1, true)
    requires m' == m.(servers := m.servers[r0.spec.id := r1]) || (m' == m && (r1 == r0 || !reliable))
    ensures EvacuatedSoFar(m0, m', dead, reliable, done + {r0.spec.id})
  {
  }

  lemma EvacuationEnds(m0: State, m: State, dead: string, reliable: bool, done: set<string>)
    requires EvacuatedSoFar(m0, m, dead, reliable, done)
    requires forall k :: k in done <==> k in m0.servers && m0.servers[k].nodeId == dead
    ensures Evacuated(m0, m, dead, reliable)
  {
  }

  lemma ListedNodes(m: State, out: seq<Node>, keys: seq<string>)
    requires KeysMatch(m) && Lists(out, m.nodes, keys)
    ensures forall i | 0 <= i < |out| :: out[i].id == keys[i] && keys[i] in m.nodes && m.nodes[keys[i]] == out[i]
    ensures forall i | 0 <= i < |out| :: keys[i] !in Seen(keys, i)
    ensures |out| == |keys| && Seen(keys, |keys|) == m.nodes.Keys && Seen(keys, 0) == {}
  {
  }

  lemma SurveyStarts(m0: State, t: Timing, reliable: bool)
    ensures Surveyed(m0, m0, {}, t, reliable)
  {
  }

  lemma ListedOnNode(m: State, dead: string, out: seq<Server>, keys: seq<string>)
    requires forall k | k in m.servers :: m.servers[k].spec.id == k
    requires Lists(out, OnNode(m.servers, dead), keys)
    ensures |out| == |keys| && Seen(keys, 0) == {}
    ensures forall i | 0 <= i < |out| ::
              out[i].spec.id == keys[i] && keys[i] in m.servers && m.servers[keys[i]] == out[i] && out[i].nodeId == dead
    ensures forall i | 0 <= i < |out| :: keys[i] !in Seen(keys, i)
    ensures forall k :: k in Seen(keys, |keys|) <==> k in m.servers && m.servers[k].nodeId == dead
  {
    var s := OnNode(m.servers, dead);
    forall i | 0 <= i < |out|
      ensures out[i].spec.id == keys[i] && keys[i] in m.servers && m.servers[keys[i]] == out[i] && out[i].nodeId == dead
    {
      assert keys[i] in s && out[i] == s[keys[i]];
    }
    forall k
      ensures k in Seen(keys, |keys|) <==> k in m.servers && m.servers[k].nodeId == dead
    {
      assert k in Seen(keys, |keys|) <==> k in keys;
      assert k in keys <==> k in s;
    }
  }

  lemma InSorted<T>(xs: seq<T>, ys: seq<T>, p: seq<nat>, x: T)
    requires Rearranges(ys, xs, p) && x in xs
    ensures x in ys
  {
    var j :| 0 <= j < |xs| && xs[j] == x;
    assert j in p;
    var i :| 0 <= i < |p| && p[i] == j;
    assert ys[i] == x;
  }

  // ---- autoscaling, on values -------------------------------------------------

  datatype SpawnResult = Spawned | TemplateMissing | NoHost | CommitFailed

  /** Eight random bytes, taken never to repeat: some identifier that is not in use. */
  method NewId(taken: set<string>) returns (id: string)
    ensures id !in taken
  {
    id := "srv_";
    while id in taken
      decreases LongIds(taken, |id|)
    {
      assert id in LongIds(taken, |id|) && id !in LongIds(taken, |id| + 1);
      id := id + "0";
    }
  }

  ghost function LongIds(taken: set<string>, n: nat): (r: set<string>) {
    set k | k in taken && |k| >= n
  }

  lemma TemplateKeys(m: State)
    requires KeysMatch(m)
    ensures forall k | k in m.templates :: m.templates[k].id == k
  {
  }

  ghost predicate Spawned1(m: State, m': State, g: Group, id: string) {
    && g.templateId in m.templates
    && id !in m.servers && id in m'.servers
    && Instance(m'.servers[id], g, m.templates[g.templateId], m.nodes)
    && m' == m.(servers := m.servers[id := m'.servers[id]])
  }

  /** After `n` attempts. */
  ghost predicate Growing(m0: State, m: State, g: Group, n: nat, reliable: bool) {
    && m == m0.(servers := m.servers)
    && (forall k | k in m0.servers :: k in m.servers && m.servers[k] == m0.servers[k])
    && (forall k | k in m.servers && k !in m0.servers ::
          g.templateId in m0.templates && Instance(m.servers[k], g, m0.templates[g.templateId], m0.nodes))
    && (forall x | x != g.id :: Slice(m.servers, x) == Slice(m0.servers, x))
    && (reliable && CanSpawn(m0, g) ==> |Slice(m.servers, g.id)| == |Slice(m0.servers, g.id)| + n)
    && (!CanSpawn(m0, g) ==> m == m0)
  }

  lemma GrowingStarts(m0: State, g: Group, reliable: bool)
    ensures Growing(m0, m0, g, 0, reliable)
  {
  }

  lemma GrowingKnows(m0: State, m: State, g: Group, n: nat, reliable: bool)
    requires Growing(m0, m, g, n, reliable)
    ensures m.templates == m0.templates
  {
  }

  lemma OneMore<V>(s: map<string, V>, k: string, v: V)
    requires k !in s
    ensures |s[k := v]| == |s| + 1
  {
    assert s[k := v].Keys == s.Keys + {k};
  }

  lemma GrowingStep(m0: State, m: State, m': State, g: Group, n: nat, reliable: bool, result: SpawnResult, id: string)
    requires Growing(m0, m, g, n, reliable)
    requires result == Spawned || m' == m
    requires result == Spawned ==> Spawned1(m, m', g, id)
    requires reliable && CanSpawn(m, g) ==> result == Spawned
    ensures Growing(m0, m', g, n + 1, reliable)
  {
    if result == Spawned {
      var r := m'.servers[id];
      SliceUpdate(m.servers, id, r);
      assert HasHost(m.nodes, INSTANCE_MEMORY_MB, "");
      OneMore(Slice(m.servers, g.id), id, r);
    }
  }

  /** `out` lists the servers of `m`, each once. */
  ghost predicate Roster(out: seq<Server>, m: map<string, Server>) {
    && (forall i | 0 <= i < |out| :: out[i].spec.id in m && m[out[i].spec.id] == out[i])
    && (forall i, j | 0 <= i < j < |out| :: out[i].spec.id != out[j].spec.id)
    && (forall k | k in m :: m[k] in out)
    && (forall k | k in m :: m[k].spec.id == k)
  }

  lemma RosterSorted(xs: seq<Server>, ys: seq<Server>, p: seq<nat>, m: map<string, Server>)
    requires Roster(xs, m) && Rearranges(ys, xs, p)
    ensures Roster(ys, m)
  {
    forall k | k in m
      ensures m[k] in ys
    {
      InSorted(xs, ys, p, m[k]);
    }
  }

  ghost function Ids(s: seq<Server>, n: nat): (r: set<string>)
    requires n <= |s|
  {
    set i | 0 <= i < n :: s[i].spec.id
  }

  lemma {:induction false} IdsSize(s: seq<Server>, n: nat)
    requires n <= |s|
    requires forall i, j | 0 <= i < j < |s| :: s[i].spec.id != s[j].spec.id
    ensures |Ids(s, n)| == n
    decreases n
  {
    if n > 0 {
      IdsSize(s, n - 1);
      assert Ids(s, n) == Ids(s, n - 1) + {s[n - 1].spec.id};
      assert s[n - 1].spec.id !in Ids(s, n - 1);
    }
  }

  ghost predicate LeastLoaded(slice: map<string, Server>, told: set<string>, n: nat) {
    && told <= slice.Keys && |told| == n
    && forall a, b | a in told && b in slice && b !in told :: slice[a].playerCount <= slice[b].playerCount
  }

  lemma LeastLoadedFirst(sorted: seq<Server>, slice: map<string, Server>, n: nat)
    requires Roster(sorted, slice) && n <= |sorted|
    requires Ordered(sorted, (v: Server) => v.playerCount as int)
    ensures LeastLoaded(slice, Ids(sorted, n), n)
  {
    IdsSize(sorted, n);
    var key := (v: Server) => v.playerCount as int;
    forall a, b | a in Ids(sorted, n) && b in slice && b !in Ids(sorted, n)
      ensures slice[a].playerCount <= slice[b].playerCount
    {
      var i :| 0 <= i < n && sorted[i].spec.id == a;
      var j :| 0 <= j < |sorted| && sorted[j] == slice[b];
      assert j >= n;
      assert key(sorted[i]) <= key(sorted[j]);
    }
  }

  /** The servers in `told` have been told to stop, or some commit failed. */
  ghost predicate Shrinking(m0: State, m: State, told: set<string>, reliable: bool) {
    && m == m0.(servers := m.servers)
    && m.servers.Keys == m0.servers.Keys
    && forall k | k in m0.servers ::
         || m.servers[k] == (if k in told then m0.servers[k].(state := ServerStopping) else m0.servers[k])
         || (!reliable && m.servers[k] == m0.servers[k])
  }

  lemma ShrinkingStarts(m0: State, reliable: bool)
    ensures Shrinking(m0, m0, {}, reliable)
  {
  }

  lemma ShrinkingKnows(m0: State, m: State, told: set<string>, reliable: bool)
    requires Shrinking(m0, m, told, reliable)
    ensures m.servers.Keys == m0.servers.Keys
  {
  }

  lemma ShrinkingStep(m0: State, m: State, m': State, told: set<string>, id: string, reliable: bool)
    requires Shrinking(m0, m, told, reliable) && id in m.servers
    requires (m' == m && !reliable) || m' == m.(servers := m.servers[id := m.servers[id].(state := ServerStopping)])
    ensures Shrinking(m0, m', told + {id}, reliable)
  {
  }

  ghost predicate ScaledOne(m0: State, m: State, g: Group, reliable: bool) {
    && m == m0.(servers := m.servers)
    && SpecsKept(m0.servers, m.servers)
    && (forall x | x != g.id :: Slice(m.servers, x) == Slice(m0.servers, x))
    && (reliable ==> Scaled(Slice(m0.servers, g.id), Slice(m.servers, g.id), m0, g))
  }

  lemma RosterSize(out: seq<Server>, m: map<string, Server>)
    requires Roster(out, m)
    ensures |out| == |m|
  {
    IdsSize(out, |out|);
    forall k | k in m
      ensures k in Ids(out, |out|)
    {
      var i :| 0 <= i < |out| && out[i] == m[k];
      assert out[i].spec.id == k;
    }
    assert Ids(out, |out|) == m.Keys;
  }

  lemma ScaledUp(m0: State, m: State, g: Group, needed: nat, reliable: bool)
    requires Growing(m0, m, g, needed, reliable)
    requires needed == g.minInstances - Counted(m0.servers, g.id) && needed > 0
    ensures ScaledOne(m0, m, g, reliable)
  {
    var before, after := Slice(m0.servers, g.id), Slice(m.servers, g.id);
    if reliable && CanSpawn(m0, g) {
      forall k | k in before
        ensures k in after && after[k] == before[k]
      {
        assert m.servers[k] == m0.servers[k];
      }
      assert Grew(before, after, needed, m0, g);
    }
  }

  lemma ScaledDown(m0: State, m: State, g: Group, told: set<string>, drop: nat, reliable: bool)
    requires LeastLoaded(Slice(m0.servers, g.id), told, drop) && Shrinking(m0, m, told, reliable)
    requires g.id != "" && g.maxInstances > 0 && drop == Counted(m0.servers, g.id) - g.maxInstances && drop > 0
    requires Counted(m0.servers, g.id) >= g.minInstances
    ensures ScaledOne(m0, m, g, reliable)
  {
    hide Placement.CanSpawn, Placement.Grew;
    var before, after := Slice(m0.servers, g.id), Slice(m.servers, g.id);
    ShrinkingFrame(m0, m, g.id, told, reliable);
    if reliable {
      assert Shed(before, after, drop, told);
      assert ShedSome(before, after, drop);
    }
  }

  lemma ShrinkingFrame(m0: State, m: State, gid: string, told: set<string>, reliable: bool)
    requires Shrinking(m0, m, told, reliable) && told <= Slice(m0.servers, gid).Keys
    ensures SpecsKept(m0.servers, m.servers)
    ensures forall x | x != gid :: Slice(m.servers, x) == Slice(m0.servers, x)
    ensures Slice(m.servers, gid).Keys == Slice(m0.servers, gid).Keys
  {
    assert forall k | k in told :: k in Slice(m0.servers, gid);
    forall x | x != gid
      ensures Slice(m.servers, x) == Slice(m0.servers, x)
    {
    }
  }

  lemma NotScaled(m: State, g: Group, reliable: bool)
    requires var n := Counted(m.servers, g.id);
             n >= g.minInstances && (g.maxInstances <= 0 || n <= g.maxInstances)
    ensures ScaledOne(m, m, g, reliable)
  {
  }

  lemma AutoscaleStarts(m0: State, reliable: bool)
    ensures Autoscaled(m0, m0, {}, reliable)
  {
  }

  lemma AutoscaleKnows(m0: State, m: State, done: set<string>, g: Group, reliable: bool)
    requires Autoscaled(m0, m, done, reliable) && g.id !in done
    ensures Slice(m.servers, g.id) == Slice(m0.servers, g.id)
    ensures m.templates == m0.templates && m.nodes == m0.nodes
  {
  }

  lemma AutoscaleStep(m0: State, m: State, m': State, done: set<string>, g: Group, reliable: bool)
    requires Autoscaled(m0, m, done, reliable) && g.id !in done
    requires g.id in m0.groups && m0.groups[g.id] == g
    requires ScaledOne(m, m', g, reliable)
    ensures Autoscaled(m0, m', done + {g.id}, reliable)
  {
    var before, after := Slice(m0.servers, g.id), Slice(m'.servers, g.id);
    if reliable {
      assert Slice(m.servers, g.id) == before;
      SameScaled(before, after, m, m0, g);
      forall x | x in done && x in m0.groups
        ensures Scaled(Slice(m0.servers, x), Slice(m'.servers, x), m0, m0.groups[x])
      {
        assert Slice(m'.servers, x) == Slice(m.servers, x);
      }
    }
  }

  /** Scaling reads the templates and the nodes, which autoscaling does not change. */
  lemma SameScaled(before: map<string, Server>, after: map<string, Server>, m: State, m0: State, g: Group)
    requires m.templates == m0.templates && m.nodes == m0.nodes && Scaled(before, after, m, g)
    ensures Scaled(before, after, m0, g)
  {
  }

  lemma ListedGroups(m: State, out: seq<Group>, keys: seq<string>)
    requires KeysMatch(m) && Lists(out, m.groups, keys)
    ensures |out| == |keys| && Seen(keys, |keys|) == m.groups.Keys && Seen(keys, 0) == {}
    ensures forall i | 0 <= i < |out| :: out[i].id == keys[i] && keys[i] in m.groups && m.groups[keys[i]] == out[i]
    ensures forall i | 0 <= i < |out| :: keys[i] !in Seen(keys, i)
  {
  }

  /** The members of a group, in listing order. */
  function FilterGroup(list: seq<Server>, gid: string): (r: seq<Server>) {
    if list == [] then []
    else
      var n := |list| - 1;
      FilterGroup(list[..n], gid) + if list[n].spec.groupId == gid then [list[n]] else []
  }

  method ByGroup(servers: seq<Server>) returns (byGroup: map<string, seq<Server>>)
    ensures "" !in byGroup
    ensures forall gid | gid != "" ::
              (if gid in byGroup then byGroup[gid] else []) == FilterGroup(servers, gid)
  {
    byGroup := map[];
    for i := 0 to |servers|
      invariant "" !in byGroup
      invariant forall gid | gid != "" ::
                  (if gid in byGroup then byGroup[gid] else []) == FilterGroup(servers[..i], gid)
    {
      var srv := servers[i];
      assert servers[..i + 1][..i] == servers[..i];
      if srv.spec.groupId == "" { continue; }
      var gid := srv.spec.groupId;
      byGroup := byGroup[gid := (if gid in byGroup then byGroup[gid] else []) + [srv]];
    }
    assert servers[..|servers|] == servers;
  }

  ghost predicate DistinctIds(s: seq<Server>) {
    forall i, j | 0 <= i < j < |s| :: s[i].spec.id != s[j].spec.id
  }

  lemma DistinctIdsAppend(s: seq<Server>, v: Server)
    requires DistinctIds(s) && forall i | 0 <= i < |s| :: s[i].spec.id != v.spec.id
    ensures DistinctIds(s + [v])
  {
  }

  lemma {:induction false} FilterMembers(list: seq<Server>, gid: string)
    requires DistinctIds(list)
    ensures forall v :: v in FilterGroup(list, gid) <==> v in list && v.spec.groupId == gid
    ensures DistinctIds(FilterGroup(list, gid))
    decreases |list|
  {
    if list != [] {
      var n := |list| - 1;
      FilterMembers(list[..n], gid);
      assert list == list[..n] + [list[n]];
      var head := FilterGroup(list[..n], gid);
      forall i | 0 <= i < |head|
        ensures head[i].spec.id != list[n].spec.id
      {
        assert head[i] in head;
        var j :| 0 <= j < n && list[j] == head[i];
      }
      DistinctIdsAppend(head, list[n]);
      forall v
        ensures v in FilterGroup(list, gid) <==> v in list && v.spec.groupId == gid
      {
        assert v in list <==> v in list[..n] || v == list[n];
      }
    }
  }

  lemma FilterRoster(m: State, list: seq<Server>, keys: seq<string>, gid: string)
    requires KeysMatch(m) && Lists(list, m.servers, keys)
    ensures Roster(FilterGroup(list, gid), Slice(m.servers, gid))
  {
    var f, s := FilterGroup(list, gid), Slice(m.servers, gid);
    assert forall i | 0 <= i < |list| :: list[i].spec.id == keys[i];
    FilterMembers(list, gid);
    forall i | 0 <= i < |f|
      ensures f[i].spec.id in s && s[f[i].spec.id] == f[i]
    {
      assert f[i] in f;
      var j :| 0 <= j < |list| && list[j] == f[i];
    }
    forall k | k in s
      ensures s[k] in f
    {
      var j :| 0 <= j < |keys| && keys[j] == k;
      assert list[j] == s[k];
    }
  }
}
