/** Which node can take a server, and what evacuation may do to one
    (daemon/internal/scheduler/scheduler.go), on values. */
module Placement {
  import opened Types
  import opened FsmModel

  /** A candidate of pickHost. */
  predicate Hosts(n: Node, memoryMB: uint64, exclude: string) {
    n.state == NodeUp && n.id != exclude && n.resources.FreeMemoryMB() >= memoryMB
  }

  predicate HasHost(nodes: map<string, Node>, memoryMB: uint64, exclude: string) {
    exists k | k in nodes :: Hosts(nodes[k], memoryMB, exclude)
  }

  /** A candidate that no other candidate beats on free memory. */
  ghost predicate BestHost(nodes: map<string, Node>, id: string, memoryMB: uint64, exclude: string) {
    && id in nodes && Hosts(nodes[id], memoryMB, exclude)
    && forall k | k in nodes && Hosts(nodes[k], memoryMB, exclude) ::
         nodes[k].resources.FreeMemoryMB() <= nodes[id].resources.FreeMemoryMB()
  }

  /** The record of a server that has been re-scheduled. */
  function Moved(r: Server, nodeId: string): (m: Server) {
    r.(nodeId := nodeId, state := ServerStarting, containerId := "", hostPort := 0)
  }

  /** What evacuate owes one server of the dead node; a failed commit leaves it alone. */
  ghost predicate Handled(nodes: map<string, Node>, dead: string, r0: Server, r1: Server, reliable: bool) {
    || (!reliable && r1 == r0)
    || (if !r0.spec.haRequired then r1 == r0.(state := ServerOrphaned)
        else if HasHost(nodes, r0.spec.memoryMB, dead) then
          BestHost(nodes, r1.nodeId, r0.spec.memoryMB, dead) && r1 == Moved(r0, r1.nodeId)
        else r1 == r0)
  }

  ghost predicate Evacuated(m: State, m': State, dead: string, reliable: bool) {
    && m' == m.(servers := m'.servers)
    && m'.servers.Keys == m.servers.Keys
    && forall k | k in m.servers ::
         if m.servers[k].nodeId == dead then Handled(m.nodes, dead, m.servers[k], m'.servers[k], reliable)
         else m'.servers[k] == m.servers[k]
  }

  // ---- the liveness pass ----------------------------------------------------

  datatype Timing = Timing(now: int, heartbeatDeadline: int, failoverGrace: int)

  /** This pass declares the node dead. */
  predicate Overdue(n: Node, t: Timing) {
    n.state != NodeDown && t.now - n.lastHeartbeat > t.heartbeatDeadline + t.failoverGrace
  }

  function NodeAfter(n: Node, t: Timing): (r: Node) {
    if Overdue(n, t) then n.(state := NodeDown)
    else if n.state != NodeDown && n.state != NodeSuspect && t.now - n.lastHeartbeat > t.heartbeatDeadline
    then n.(state := NodeSuspect)
    else n
  }

  /** Everything the pass may have done to a server over any number of moves. */
  ghost predicate Fate(nodes: map<string, Node>, r0: Server, r1: Server) {
    || r1 == r0
    || (!r0.spec.haRequired && r1 == r0.(state := ServerOrphaned))
    || (r0.spec.haRequired && r1 == Moved(r0, r1.nodeId)
        && r1.nodeId in nodes && nodes[r1.nodeId].state == NodeUp)
  }

  /** The pass so far, with the nodes `seen` looked at. */
  ghost predicate Surveyed(m0: State, m: State, seen: set<string>, t: Timing, reliable: bool) {
    && m == m0.(nodes := m.nodes, servers := m.servers)
    && m.nodes.Keys == m0.nodes.Keys && m.servers.Keys == m0.servers.Keys
    && (forall k | k in m0.nodes && k !in seen :: m.nodes[k] == m0.nodes[k])
    && (forall k | k in m0.nodes ::
          m.nodes[k] == NodeAfter(m0.nodes[k], t) || (m.nodes[k] == m0.nodes[k] && !(reliable && k in seen)))
    && (forall k | k in m0.servers :: Fate(m0.nodes, m0.servers[k], m.servers[k]))
    && (forall k | k in m0.servers && m.servers[k] != m0.servers[k] ::
          m0.servers[k].nodeId in m0.nodes && m0.servers[k].nodeId in seen
          && Overdue(m0.nodes[m0.servers[k].nodeId], t))
    && (reliable ==> forall k | k in m.servers :: Settled(m0, m, seen, t, m.servers[k]))
    && (reliable ==> forall k | k in m0.servers :: NotBack(m0.servers[k], m.servers[k]))
  }

  /** A re-scheduled server never ends where it was. */
  ghost predicate NotBack(r0: Server, r: Server) {
    r0.spec.haRequired && r != r0 ==> r.nodeId != r0.nodeId
  }

  /** A server that stands on a node this pass declared dead is either orphaned, or wants a
      new host and there is none. */
  ghost predicate Settled(m0: State, m: State, seen: set<string>, t: Timing, r: Server) {
    r.nodeId in seen && r.nodeId in m0.nodes && Overdue(m0.nodes[r.nodeId], t) ==>
      if r.spec.haRequired
      then forall n | n in m.nodes :: !Hosts(m.nodes[n], r.spec.memoryMB, r.nodeId)
      else r.state == ServerOrphaned
  }

  /** One node the pass only marks suspect, or leaves as it is. */
  lemma SurveyQuietNode(m0: State, m: State, m': State, seen: set<string>, id: string, t: Timing, reliable: bool)
    requires Surveyed(m0, m, seen, t, reliable)
    requires id in m0.nodes && id !in seen && !Overdue(m0.nodes[id], t)
    requires m' == m.(nodes := m'.nodes)
    requires m'.nodes == m.nodes[id := NodeAfter(m0.nodes[id], t)] || (!reliable && m' == m)
    ensures Surveyed(m0, m', seen + {id}, t, reliable)
  {
    assert forall k | k in m.nodes :: m'.nodes[k] == m.nodes[k] || m'.nodes[k].state != NodeUp;
    forall k | k in m'.servers && reliable
      ensures Settled(m0, m', seen + {id}, t, m'.servers[k])
    {
      assert Settled(m0, m, seen, t, m.servers[k]);
    }
  }

  /** One node the pass declares dead and evacuates. */
  lemma SurveyDeadNode(
    m0: State, m: State, marked: State, m': State, seen: set<string>, id: string, t: Timing, reliable: bool)
    requires Surveyed(m0, m, seen, t, reliable)
    requires id in m0.nodes && id !in seen && Overdue(m0.nodes[id], t)
    requires marked == m.(nodes := m.nodes[id := NodeAfter(m0.nodes[id], t)]) || (!reliable && marked == m)
    requires Evacuated(marked, m', id, reliable)
    ensures Surveyed(m0, m', seen + {id}, t, reliable)
  {
    forall k | k in m0.servers
      ensures Fate(m0.nodes, m0.servers[k], m'.servers[k])
      ensures m'.servers[k] != m0.servers[k] ==>
                m0.servers[k].nodeId in m0.nodes && m0.servers[k].nodeId in seen + {id}
                && Overdue(m0.nodes[m0.servers[k].nodeId], t)
    {
      FateStep(m0, m, marked, m', seen, id, t, reliable, k);
    }
    if reliable {
      forall k | k in m'.servers
        ensures Settled(m0, m', seen + {id}, t, m'.servers[k])
      {
        SettledStep(m0, m, marked, m', seen, id, t, k);
      }
      forall k | k in m0.servers
        ensures NotBack(m0.servers[k], m'.servers[k])
      {
        NotBackStep(m0, m, marked, m', seen, id, t, k);
      }
    }
  }

  lemma FateStep(
    m0: State, m: State, marked: State, m': State, seen: set<string>, id: string, t: Timing, reliable: bool, k: string)
    requires Surveyed(m0, m, seen, t, reliable)
    requires id in m0.nodes && id !in seen && Overdue(m0.nodes[id], t)
    requires marked == m.(nodes := m.nodes[id := NodeAfter(m0.nodes[id], t)]) || (!reliable && marked == m)
    requires Evacuated(marked, m', id, reliable)
    requires k in m0.servers
    ensures Fate(m0.nodes, m0.servers[k], m'.servers[k])
    ensures m'.servers[k] != m0.servers[k] ==>
              m0.servers[k].nodeId in m0.nodes && m0.servers[k].nodeId in seen + {id}
              && Overdue(m0.nodes[m0.servers[k].nodeId], t)
  {
    var r0, r, r1 := m0.servers[k], m.servers[k], m'.servers[k];
    assert Fate(m0.nodes, r0, r);
    if r.nodeId == id && r1 != r && r0.spec.haRequired {
      assert Hosts(marked.nodes[r1.nodeId], r.spec.memoryMB, id);
      assert m0.nodes[r1.nodeId].state == NodeUp;
    }
  }

  lemma SettledStep(
    m0: State, m: State, marked: State, m': State, seen: set<string>, id: string, t: Timing, k: string)
    requires Surveyed(m0, m, seen, t, true)
    requires id in m0.nodes && id !in seen && Overdue(m0.nodes[id], t)
    requires marked == m.(nodes := m.nodes[id := NodeAfter(m0.nodes[id], t)])
    requires Evacuated(marked, m', id, true)
    requires k in m'.servers
    ensures Settled(m0, m', seen + {id}, t, m'.servers[k])
  {
    hide Fate, NotBack;
    var r, r1 := m.servers[k], m'.servers[k];
    assert Settled(m0, m, seen, t, r);
    assert id in m.nodes && marked.nodes[id].state == NodeDown && m0.nodes.Keys == m.nodes.Keys;
    assert r1.nodeId in m0.nodes && m.nodes[r1.nodeId].state == NodeUp && r1.nodeId in seen
           ==> !Overdue(m0.nodes[r1.nodeId], t);
    hide Surveyed;
    if r.nodeId == id {
      assert Handled(marked.nodes, id, r, r1, true);
      if r.spec.haRequired && HasHost(marked.nodes, r.spec.memoryMB, id) {
        assert m'.nodes[r1.nodeId].state == NodeUp;
      }
    } else {
      assert r1 == r;
    }
  }

  lemma NotBackStep(
    m0: State, m: State, marked: State, m': State, seen: set<string>, id: string, t: Timing, k: string)
    requires Surveyed(m0, m, seen, t, true)
    requires id in m0.nodes && id !in seen && Overdue(m0.nodes[id], t)
    requires marked == m.(nodes := m.nodes[id := NodeAfter(m0.nodes[id], t)])
    requires Evacuated(marked, m', id, true)
    requires k in m0.servers
    ensures NotBack(m0.servers[k], m'.servers[k])
  {
    var r0, r, r1 := m0.servers[k], m.servers[k], m'.servers[k];
    assert Fate(m0.nodes, r0, r) && NotBack(r0, r);
    if r0.spec.haRequired && r1 != r {
      assert Hosts(marked.nodes[r1.nodeId], r.spec.memoryMB, id) && r.nodeId == id;
      if r != r0 {
        assert Overdue(m0.nodes[r0.nodeId], t) && r0.nodeId in seen;
        assert m.nodes[r0.nodeId] == NodeAfter(m0.nodes[r0.nodeId], t);
      }
    }
  }

  /** A node's record after the pass: Down if it was or has been silent for longer than deadline
      and grace together, Suspect if not and it was or has been silent for longer than the
      deadline, and nothing but the state of it changes. */
  ghost predicate Judged(n0: Node, n: Node, t: Timing) {
    var silent := t.now - n0.lastHeartbeat;
    && (n.state == NodeDown <==> n0.state == NodeDown || silent > t.heartbeatDeadline + t.failoverGrace)
    && (n.state == NodeSuspect <==>
          n.state != NodeDown && (n0.state == NodeSuspect || silent > t.heartbeatDeadline))
    && (n.state != NodeDown && n.state != NodeSuspect ==> n.state == n0.state)
    && n.id == n0.id && n.address == n0.address && n.resources == n0.resources
    && n.lastHeartbeat == n0.lastHeartbeat && n.isLeader == n0.isLeader && n.version == n0.version
  }

  /** A server's record after the pass. One that has changed its node is highly available and
      starts anew, without a container or a port; one that has changed on its node is orphaned
      and otherwise as before. */
  ghost predicate Kept(r0: Server, r: Server, nodes: map<string, Node>) {
    && r.spec == r0.spec && r.playerCount == r0.playerCount && r.maxPlayers == r0.maxPlayers
    && r.startedAt == r0.startedAt
    && (r.nodeId != r0.nodeId ==>
          && r0.spec.haRequired && r.state == ServerStarting && r.containerId == "" && r.hostPort == 0
          && r.nodeId in nodes && nodes[r.nodeId].state == NodeUp)
    && (r.nodeId == r0.nodeId && r != r0 ==>
          && !r0.spec.haRequired && r.state == ServerOrphaned
          && r.containerId == r0.containerId && r.hostPort == r0.hostPort)
  }

  /** Room, in numbers: what is used and what is asked for fit into the total, or nothing is
      asked for. */
  lemma RoomExactly(n: Node, memoryMB: uint64, exclude: string)
    ensures Hosts(n, memoryMB, exclude) <==>
              && n.state == NodeUp && n.id != exclude
              && (memoryMB == 0 || n.resources.memoryUsedMB + memoryMB <= n.resources.memoryTotalMB)
  {
  }

  /** The pass over all nodes, when every commit succeeds. It declares dead exactly the nodes
      that were overdue. A highly available server it leaves on one of them has no Up node
      with enough free memory anywhere in the final state; any other server there is
      orphaned. No server appears, disappears or changes its specification, a re-scheduled one
      starts anew on a node that was Up, and one that
      stood on a node not declared dead now, one already down included, is not touched. */
  lemma LivenessTheorem(m0: State, m: State, t: Timing)
    requires KeysMatch(m0) && Surveyed(m0, m, m0.nodes.Keys, t, true)
    ensures m.nodes.Keys == m0.nodes.Keys && m.servers.Keys == m0.servers.Keys
    ensures forall n | n in m0.nodes ::
              (m0.nodes[n].state != NodeDown && m.nodes[n].state == NodeDown) <==> Overdue(m0.nodes[n], t)
    ensures forall k | k in m.servers ::
              var r := m.servers[k];
              r.nodeId in m.nodes && m0.nodes[r.nodeId].state != NodeDown && m.nodes[r.nodeId].state == NodeDown ==>
                if r.spec.haRequired
                then forall n | n in m.nodes && m.nodes[n].state == NodeUp ::
                       m.nodes[n].resources.FreeMemoryMB() < r.spec.memoryMB
                else r.state == ServerOrphaned
    ensures forall n | n in m0.nodes :: Judged(m0.nodes[n], m.nodes[n], t)
    ensures forall k | k in m.servers :: Kept(m0.servers[k], m.servers[k], m0.nodes)
    ensures forall k | k in m0.servers ::
              (m0.servers[k].nodeId !in m0.nodes || !Overdue(m0.nodes[m0.servers[k].nodeId], t)) ==>
                m.servers[k] == m0.servers[k]
  {
    forall k | k in m.servers
      ensures Kept(m0.servers[k], m.servers[k], m0.nodes)
      ensures Settled(m0, m, m0.nodes.Keys, t, m.servers[k])
    {
      assert Fate(m0.nodes, m0.servers[k], m.servers[k]);
    }
  }

  // ---- group autoscaling ----------------------------------------------------

  const INSTANCE_MEMORY_MB: uint64 := 2048

  /** The servers that name a group. */
  ghost function Slice(servers: map<string, Server>, gid: string): (r: map<string, Server>) {
    map k | k in servers && servers[k].spec.groupId == gid :: servers[k]
  }

  /** The instances tick counts: servers that name no group are in no group. */
  ghost function Counted(servers: map<string, Server>, gid: string): (n: nat) {
    if gid == "" then 0 else |Slice(servers, gid)|
  }

  /** What spawnGroupInstance creates. */
  ghost predicate Instance(r: Server, g: Group, tpl: Template, nodes: map<string, Node>) {
    && r.spec.groupId == g.id && r.spec.templateId == tpl.id && r.spec.image == tpl.image
    && r.spec.memoryMB == 2048 && r.spec.cpuQuota == 1.0 && r.spec.env == map[]
    && r.spec.minecraftPort == 25565 && r.spec.haRequired == g.haRequired
    && r.state == ServerStarting && r.playerCount == 0 && r.maxPlayers == 0
    && r.containerId == "" && r.hostPort == 0 && r.startedAt == 0 && g.name + "-" <= r.spec.name
    && BestHost(nodes, r.nodeId, 2048, "")
  }

  ghost predicate CanSpawn(m: State, g: Group) {
    g.templateId in m.templates && HasHost(m.nodes, 2048, "")
  }

  /** `n` new instances, and nothing else. */
  ghost predicate Grew(before: map<string, Server>, after: map<string, Server>, n: nat, m: State, g: Group) {
    && g.templateId in m.templates
    && before.Keys <= after.Keys && |after| == |before| + n
    && (forall k | k in before :: after[k] == before[k])
    && (forall k | k in after && k !in before :: Instance(after[k], g, m.templates[g.templateId], m.nodes))
  }

  /** `n` servers told to stop, none with more players than any that was not, and nothing else. */
  ghost predicate Shed(before: map<string, Server>, after: map<string, Server>, n: nat, told: set<string>) {
    && told <= before.Keys && |told| == n
    && (forall a, b | a in told && b in before && b !in told :: before[a].playerCount <= before[b].playerCount)
    && after.Keys == before.Keys
    && (forall k | k in before ::
          after[k] == if k in told then before[k].(state := ServerStopping) else before[k])
  }

  ghost predicate ShedSome(before: map<string, Server>, after: map<string, Server>, n: nat) {
    exists told :: Shed(before, after, n, told)
  }

  /** What one tick does to the servers of one group when every commit succeeds. */
  ghost predicate Scaled(before: map<string, Server>, after: map<string, Server>, m: State, g: Group) {
    var count := if g.id == "" then 0 else |before|;
    if count < g.minInstances then
      if CanSpawn(m, g) then Grew(before, after, g.minInstances - count, m, g) else after == before
    else if g.maxInstances > 0 && count > g.maxInstances then
      ShedSome(before, after, count - g.maxInstances)
    else
      after == before
  }

  /** The autoscaling loop so far: the groups in `done` have been scaled, and no server
      outside them has been touched. No server goes away or changes its specification. */
  ghost predicate Autoscaled(m0: State, m: State, done: set<string>, reliable: bool) {
    && m == m0.(servers := m.servers)
    && SpecsKept(m0.servers, m.servers)
    && (forall g | g !in done :: Slice(m.servers, g) == Slice(m0.servers, g))
    && (reliable ==> forall g | g in done && g in m0.groups ::
          Scaled(Slice(m0.servers, g), Slice(m.servers, g), m0, m0.groups[g]))
  }

  ghost predicate SpecsKept(before: map<string, Server>, after: map<string, Server>) {
    forall k | k in before :: k in after && after[k].spec == before[k].spec
  }

  /** After one tick the number of servers of a group is the larger of what it was and the
      minimum, provided its template is there and some node has room; otherwise it has not
      changed. Members told to stop still count, and a group without an identifier, whose
      members are never counted, grows by its minimum every time. */
  lemma CountAfterTick(m0: State, m: State, gid: string)
    requires KeysMatch(m0) && Autoscaled(m0, m, m0.groups.Keys, true) && gid in m0.groups
    ensures var g, was, now := m0.groups[gid], |Slice(m0.servers, gid)|, |Slice(m.servers, gid)|;
            now == if Counted(m0.servers, gid) < g.minInstances && CanSpawn(m0, g)
                   then (if gid == "" then was + g.minInstances else g.minInstances) else was
    ensures gid != "" && CanSpawn(m0, m0.groups[gid]) ==>
              var g, was := m0.groups[gid], |Slice(m0.servers, gid)|;
              |Slice(m.servers, gid)| == if was < g.minInstances then g.minInstances else was
  {
    var g, before, after := m0.groups[gid], Slice(m0.servers, gid), Slice(m.servers, gid);
    assert Scaled(before, after, m0, g);
    if after.Keys == before.Keys {
      assert |after| == |after.Keys| && |before| == |before.Keys|;
    }
  }

  /** Of the group's members, `n` that nobody left out undercuts in players. */
  ghost predicate ToldToStop(m0: State, mid: State, m: State, gid: string, n: nat, told: set<string>) {
    && told <= Slice(m0.servers, gid).Keys && |told| == n
    && (forall a, b | a in told && b in Slice(m0.servers, gid) && b !in told ::
          m0.servers[a].playerCount <= m0.servers[b].playerCount)
    && (forall k | k in Slice(m0.servers, gid) && k in mid.servers && k in m.servers ::
          m.servers[k] == if k in told then mid.servers[k].(state := ServerStopping) else mid.servers[k])
  }

  ghost predicate SomeToldToStop(m0: State, mid: State, m: State, gid: string, n: nat) {
    exists told :: ToldToStop(m0, mid, m, gid, n, told)
  }

  /** A group over its maximum sheds the difference. */
  lemma ShedAfterTick(m0: State, m: State, gid: string)
    requires Autoscaled(m0, m, m0.groups.Keys, true) && gid in m0.groups && m0.groups[gid].id == gid && gid != ""
    requires m0.groups[gid].minInstances <= |Slice(m0.servers, gid)|
    requires 0 < m0.groups[gid].maxInstances < |Slice(m0.servers, gid)|
    ensures ShedSome(Slice(m0.servers, gid), Slice(m.servers, gid),
                     |Slice(m0.servers, gid)| - m0.groups[gid].maxInstances)
  {
    hide Grew, CanSpawn;
    assert Scaled(Slice(m0.servers, gid), Slice(m.servers, gid), m0, m0.groups[gid]);
  }

  /** A whole tick, against the state it started from: the liveness pass before it changes no
      group's members and nobody's player count. */
  lemma TickTheorem(m0: State, mid: State, m: State, t: Timing, gid: string)
    requires KeysMatch(m0) && KeysMatch(mid) && gid in m0.groups && gid != ""
    requires Surveyed(m0, mid, m0.nodes.Keys, t, true) && Autoscaled(mid, m, mid.groups.Keys, true)
    ensures m.servers.Keys >= m0.servers.Keys
    ensures var g, was := m0.groups[gid], |Slice(m0.servers, gid)|;
            |Slice(m.servers, gid)| == if was < g.minInstances && CanSpawn(mid, g) then g.minInstances else was
    ensures var g, was := m0.groups[gid], |Slice(m0.servers, gid)|;
            g.minInstances <= was && 0 < g.maxInstances < was ==>
              SomeToldToStop(m0, mid, m, gid, was - g.maxInstances)
  {
    hide Surveyed, Autoscaled, Scaled, CanSpawn, FsmModel.KeysMatch, Shed, SomeToldToStop;
    SameMembers(m0, mid, t, gid);
    GroupKeys(mid);
    SpecsKeptKeys(mid, m);
    SameSize(Slice(mid.servers, gid), Slice(m0.servers, gid));
    CountAfterTick(mid, m, gid);
    var g, was := m0.groups[gid], |Slice(m0.servers, gid)|;
    if g.minInstances <= was && 0 < g.maxInstances < was {
      ShedAfterTick(mid, m, gid);
      var told :| Shed(Slice(mid.servers, gid), Slice(m.servers, gid), was - g.maxInstances, told);
      ShedIsTold(m0, mid, m, gid, was - g.maxInstances, told);
    }
  }

  lemma SameSize<V>(a: map<string, V>, b: map<string, V>)
    requires a.Keys == b.Keys
    ensures |a| == |b|
  {
    assert |a| == |a.Keys| && |b| == |b.Keys|;
  }

  lemma ShedIsTold(m0: State, mid: State, m: State, gid: string, n: nat, told: set<string>)
    requires Shed(Slice(mid.servers, gid), Slice(m.servers, gid), n, told)
    requires Slice(mid.servers, gid).Keys == Slice(m0.servers, gid).Keys && mid.servers.Keys == m0.servers.Keys
    requires forall k | k in m0.servers :: mid.servers[k].playerCount == m0.servers[k].playerCount
    ensures SomeToldToStop(m0, mid, m, gid, n)
  {
    var before, middle, after := Slice(m0.servers, gid), Slice(mid.servers, gid), Slice(m.servers, gid);
    forall k | k in before && k in mid.servers && k in m.servers
      ensures m.servers[k] == if k in told then mid.servers[k].(state := ServerStopping) else mid.servers[k]
    {
      assert k in middle && k in after;
    }
    forall a, b | a in told && b in before && b !in told
      ensures m0.servers[a].playerCount <= m0.servers[b].playerCount
    {
      assert a in middle && b in middle;
    }
    assert ToldToStop(m0, mid, m, gid, n, told);
  }

  lemma GroupKeys(m: State)
    requires KeysMatch(m)
    ensures forall k | k in m.groups :: m.groups[k].id == k
  {
  }

  lemma SpecsKeptKeys(m0: State, m: State)
    requires Autoscaled(m0, m, m0.groups.Keys, true)
    ensures m.servers.Keys >= m0.servers.Keys
  {
  }

  lemma SameMembers(m0: State, mid: State, t: Timing, gid: string)
    requires Surveyed(m0, mid, m0.nodes.Keys, t, true)
    ensures mid.groups == m0.groups && mid.servers.Keys == m0.servers.Keys
    ensures Slice(mid.servers, gid).Keys == Slice(m0.servers, gid).Keys
    ensures forall k | k in m0.servers :: mid.servers[k].playerCount == m0.servers[k].playerCount
  {
    forall k | k in m0.servers
      ensures mid.servers[k].spec == m0.servers[k].spec && mid.servers[k].playerCount == m0.servers[k].playerCount
    {
      assert Fate(m0.nodes, m0.servers[k], mid.servers[k]);
    }
  }

  /** Adding a record under a new key, or rewriting one in its group, shows in that group only. */
  lemma SliceUpdate(servers: map<string, Server>, k: string, r: Server)
    requires k in servers ==> servers[k].spec.groupId == r.spec.groupId
    ensures forall x :: Slice(servers[k := r], x) ==
              if x == r.spec.groupId then Slice(servers, x)[k := r] else Slice(servers, x)
  {
    forall x
      ensures Slice(servers[k := r], x) ==
              if x == r.spec.groupId then Slice(servers, x)[k := r] else Slice(servers, x)
    {
      var s := Slice(servers[k := r], x);
      if x == r.spec.groupId {
        assert s == Slice(servers, x)[k := r];
      } else {
        assert s == Slice(servers, x);
      }
    }
  }
}
