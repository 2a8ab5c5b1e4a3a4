/** The server endpoints of the REST API (daemon/internal/api/rest.go): read a record, change
    it, commit it, answer with a status code. */
module RestHandlers {
  import opened Types
  import opened FsmModel
  import opened RaftFsm
  import opened ClusterApply
  import opened Placement
  import opened Scheduling
  import opened SpecRaces

  /** The decoded body of a start request. */
  datatype StartBody = StartBody(
    templateId: string, groupId: string, name: string, memoryMB: uint64, cpuQuota: real,
    env: map<string, string>, ha: bool)

  datatype Response = Created(server: Server) | Ok | Found(server: Server) | Status(code: nat)

  datatype HttpMethod = Get | Delete | OtherMethod

  const DEFAULT_MEMORY_MB: uint64 := 2048

  function MemoryOf(body: StartBody): (m: uint64) {
    if body.memoryMB == 0 then DEFAULT_MEMORY_MB else body.memoryMB
  }

  /** What a start request asks for; zero stands for the defaults. */
  ghost predicate Requested(spec: ServerSpec, body: StartBody, tpl: Template) {
    && spec.name == body.name && spec.templateId == tpl.id && spec.groupId == body.groupId
    && spec.image == tpl.image && spec.env == body.env && spec.minecraftPort == 25565
    && spec.haRequired == body.ha
    && spec.memoryMB == (if body.memoryMB == 0 then 2048 else body.memoryMB)
    && spec.cpuQuota == (if body.cpuQuota == 0.0 then 1.0 else body.cpuQuota)
  }

  /** A new record for what was asked, on a host that had the most memory to offer. */
  ghost predicate Placed(m: State, body: StartBody, v: Server) {
    && body.templateId in m.templates && v.spec.id !in m.servers
    && Requested(v.spec, body, m.templates[body.templateId])
    && BestHost(m.nodes, v.nodeId, v.spec.memoryMB, "")
    && v == Server(v.spec, v.nodeId, ServerStarting, 0, 0, 0, "", 0)
  }

  class Handlers {
    const fsm: Fsm
    const cluster: Cluster
    const scheduler: Scheduler

    constructor (scheduler: Scheduler)
      ensures this.scheduler == scheduler && this.cluster == scheduler.cluster && this.fsm == scheduler.fsm
    {
      this.scheduler, this.cluster, this.fsm := scheduler, scheduler.cluster, scheduler.fsm;
    }

    ghost predicate Valid()
      reads this, scheduler, fsm, fsm.Repr
    {
      scheduler.fsm == fsm && scheduler.cluster == cluster && scheduler.Valid() && KeysMatch(fsm.Model())
    }

    method HandleStartServer(body: Option<StartBody>) returns (r: Response)
      requires Valid()
      modifies fsm.Repr
      ensures Valid()
      ensures var m := old(fsm.Model());
              && (r == Status(400) <==> body.None? || body.value.templateId !in m.templates)
              && (r == Status(503) <==>
                    body.Some? && body.value.templateId in m.templates
                    && !HasHost(m.nodes, if body.value.memoryMB == 0 then 2048 else body.value.memoryMB, ""))
              && (r.Created? || r in {Status(400), Status(503), Status(500)})
              && (cluster.reliable ==> r != Status(500))
              && (r.Created? ==>
                    && Placed(m, body.value, r.server)
                    && fsm.Model() == m.(servers := m.servers[r.server.spec.id := r.server]))
              && (!r.Created? ==> fsm.Model() == m)
    {
      hide FsmModel.KeysMatch, Placement.BestHost;
      if body.None? {
        return Status(400);
      }
      var b := body.value;
      var tpl := fsm.GetTemplate(b.templateId);
      if tpl.None? {
        return Status(400);
      }
      var memoryMB := MemoryOf(b);
      var cpuQuota := if b.cpuQuota == 0.0 then 1.0 else b.cpuQuota;
      var id := NewId(fsm.servers.cells.Keys);
      assert id !in fsm.Model().servers;
      var spec := ServerSpec(id, b.name, tpl.value.id, b.groupId, tpl.value.image,
                             memoryMB, cpuQuota, b.env, 25565, b.ha);
      var host := scheduler.PickHost(spec, "");
      if host.None? {
        return Status(503);
      }
      var srv := Server(spec, host.value.id, ServerStarting, 0, 0, 0, "", 0);
      assert Placed(fsm.Model(), b, srv);
      hide Placed;
      var ok := cluster.UpsertServer(srv);
      if !ok {
        return Status(500);
      }
      return Created(srv);
    }

    /** Stop and restart commit a changed copy of the whole record they have read. */
    method HandleStopServer(id: string) returns (r: Response)
      requires Valid()
      modifies fsm.Repr
      ensures Valid()
      ensures Rewrites(old(fsm.Model()), fsm.Model(), id, Stop, r, cluster.reliable)
      ensures id in old(fsm.Model()).servers ==>
                && id in fsm.Model().servers
                && fsm.Model().servers[id]
                   == old(fsm.Model()).servers[id].(state := if r == Ok then ServerStopping
                                                            else old(fsm.Model()).servers[id].state)
    {
      r := Rewrite(id, Stop);
    }

    method HandleRestartServer(id: string) returns (r: Response)
      requires Valid()
      modifies fsm.Repr
      ensures Valid()
      ensures Rewrites(old(fsm.Model()), fsm.Model(), id, Restart, r, cluster.reliable)
      ensures id in old(fsm.Model()).servers ==>
                && id in fsm.Model().servers
                && fsm.Model().servers[id]
                   == old(fsm.Model()).servers[id].(state := if r == Ok then ServerStarting
                                                            else old(fsm.Model()).servers[id].state)
    {
      r := Rewrite(id, Restart);
    }

    method Rewrite(id: string, intent: Intent) returns (r: Response)
      requires Valid() && (intent == Stop || intent == Restart)
      modifies fsm.Repr
      ensures Valid()
      ensures Rewrites(old(fsm.Model()), fsm.Model(), id, intent, r, cluster.reliable)
    {
      assert forall k | k in fsm.Model().servers :: fsm.Model().servers[k].spec.id == k;
      hide FsmModel.KeysMatch;
      var srv := fsm.GetServer(id);
      if srv.None? {
        return Status(404);
      }
      var v := srv.value.(state := if intent == Stop then ServerStopping else ServerStarting);
      var ok := cluster.UpsertServer(v);
      return if ok then Ok else Status(500);
    }

    method HandleOneServer(m: HttpMethod, id: string) returns (r: Response)
      requires Valid()
      modifies fsm.Repr
      ensures Valid()
      ensures var s := old(fsm.Model());
              match m
              case Get => fsm.Model() == s && r == if id in s.servers then Found(s.servers[id]) else Status(404)
              case Delete =>
                && fsm.Model() == (if r == Ok then s.(servers := s.servers - {id}) else s)
                && (r == Ok || (r == Status(500) && !cluster.reliable))
              case OtherMethod => fsm.Model() == s && r == Status(405)
    {
      hide FsmModel.KeysMatch;
      match m {
        case Get =>
          var srv := fsm.GetServer(id);
          return if srv.Some? then Found(srv.value) else Status(404);
        case Delete =>
          var ok := cluster.Apply(ServerRemove(id));
          return if ok then Ok else Status(500);
        case OtherMethod =>
          return Status(405);
      }
    }
  }

  /** Undisturbed, a stop or restart is one read and one commit of the racing writers' model. */
  ghost predicate Rewrites(m: State, m': State, id: string, intent: Intent, r: Response, reliable: bool) {
    if id !in m.servers then r == Status(404) && m' == m
    else
      || (r == Ok && m' == m.(servers := m.servers[id := Prepare(Held(m.servers[id], intent), "")]))
      || (r == Status(500) && m' == m && !reliable)
  }
}
