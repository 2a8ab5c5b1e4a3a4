/** Groups and templates (daemon/internal/tasks/groups.go), and the integrity they keep
    together with the scheduler when operations run one at a time. */
module Tasks {
  import opened Types
  import opened FsmModel
  import opened RaftFsm
  import opened ClusterApply
  import opened Scheduling

  predicate ValidBounds(g: Group) {
    && g.minInstances >= 0 && g.maxInstances >= 0
    && (g.maxInstances == 0 || g.maxInstances >= g.minInstances)
  }

  /** Every group names a template that is there, and its bounds make sense. */
  ghost predicate Integrity(s: State) {
    forall k | k in s.groups :: s.groups[k].templateId in s.templates && ValidBounds(s.groups[k])
  }

  datatype TaskResult =
    Done | NegativeBounds | MaxBelowMin | UnknownTemplate | BadMode | TemplateInUse | NotCommitted

  function GroupWithId(g: Group): (r: Group) {
    if g.id == "" then g.(id := "grp_" + g.name) else g
  }

  function TemplateWithId(t: Template): (r: Template) {
    if t.id == "" then t.(id := "tpl_" + t.name) else t
  }

  /** What DeleteGroup leaves of the servers. */
  ghost predicate GroupStopped(before: map<string, Server>, after: map<string, Server>, gid: string, reliable: bool) {
    && after.Keys == before.Keys
    && forall k | k in before :: StoppedOne(before[k], after[k], gid, reliable)
  }

  ghost predicate StoppedOne(r0: Server, r1: Server, gid: string, reliable: bool) {
    || r1 == (if r0.spec.groupId == gid then r0.(state := ServerStopping) else r0)
    || (!reliable && r1 == r0)
  }

  /** The members among the first `i` of `keys` have been dealt with. */
  ghost predicate StoppedSoFar(
    m0: map<string, Server>, m: map<string, Server>, keys: seq<string>, i: nat, gid: string, reliable: bool)
    requires i <= |keys|
  {
    && m.Keys == m0.Keys
    && forall k | k in m0 :: if k in keys[..i] then StoppedOne(m0[k], m[k], gid, reliable) else m[k] == m0[k]
  }

  lemma NoneStopped(m0: map<string, Server>, gid: string, reliable: bool)
    ensures forall keys: seq<string> :: StoppedSoFar(m0, m0, keys, 0, gid, reliable)
  {
  }

  lemma StopOneMore(
    m0: map<string, Server>, m: map<string, Server>, m': map<string, Server>, keys: seq<string>, i: nat,
    gid: string, reliable: bool)
    requires i < |keys| && keys[i] in m0 && (forall j | 0 <= j < i :: keys[j] != keys[i])
    requires StoppedSoFar(m0, m, keys, i, gid, reliable)
    requires var v := m0[keys[i]];
             || m' == (if v.spec.groupId == gid then m[keys[i] := v.(state := ServerStopping)] else m)
             || (!reliable && m' == m)
    ensures StoppedSoFar(m0, m', keys, i + 1, gid, reliable)
  {
    assert keys[..i + 1] == keys[..i] + [keys[i]];
    assert keys[i] !in keys[..i];
  }

  lemma AllStopped(
    m0: map<string, Server>, m: map<string, Server>, keys: seq<string>, gid: string, reliable: bool)
    requires StoppedSoFar(m0, m, keys, |keys|, gid, reliable) && forall k | k in m0 :: k in keys
    ensures GroupStopped(m0, m, gid, reliable)
  {
    assert keys[..|keys|] == keys;
  }

  class Service {
    const fsm: Fsm
    const cluster: Cluster

    constructor (cluster: Cluster)
      ensures this.cluster == cluster && this.fsm == cluster.fsm
    {
      this.cluster, this.fsm := cluster, cluster.fsm;
    }

    ghost predicate Valid()
      reads this, fsm, fsm.Repr
    {
      cluster.fsm == fsm && fsm.Valid()
    }

    method CreateGroup(group: Group) returns (result: TaskResult)
      requires Valid() && KeysMatch(fsm.Model())
      modifies fsm.Repr
      ensures Valid() && fresh(fsm.Repr - old(fsm.Repr)) && old(fsm.Repr) <= fsm.Repr
      ensures KeysMatch(fsm.Model())
      ensures var m, g := old(fsm.Model()), GroupWithId(group);
              && (result == NegativeBounds <==> g.minInstances < 0 || g.maxInstances < 0)
              && (result in {Done, NegativeBounds, MaxBelowMin, UnknownTemplate, NotCommitted})
              && (result == MaxBelowMin <==> 0 < g.maxInstances < g.minInstances)
              && (result == UnknownTemplate <==> ValidBounds(g) && g.templateId !in m.templates)
              && (result == Done ==> ValidBounds(g) && g.templateId in m.templates)
              && (cluster.reliable ==> result != NotCommitted)
              && fsm.Model() == (if result == Done then m.(groups := m.groups[g.id := g]) else m)
              && g == group.(id := if group.id == "" then "grp_" + group.name else group.id)
      ensures Integrity(old(fsm.Model())) ==> Integrity(fsm.Model())
    {
      hide FsmModel.KeysMatch;
      var g := group;
      if g.id == "" {
        g := g.(id := "grp_" + g.name);
      }
      if g.minInstances < 0 || g.maxInstances < 0 {
        return NegativeBounds;
      }
      if g.maxInstances != 0 && g.maxInstances < g.minInstances {
        return MaxBelowMin;
      }
      var tpl := fsm.GetTemplate(g.templateId);
      if tpl.None? {
        return UnknownTemplate;
      }
      var ok := cluster.Apply(GroupUpsert(g));
      return if ok then Done else NotCommitted;
    }

    /** Tells every member to stop, then removes the group; each commit may fail on its own. */
    method DeleteGroup(id: string) returns (result: TaskResult)
      requires Valid() && KeysMatch(fsm.Model())
      modifies fsm.Repr
      ensures Valid() && fresh(fsm.Repr - old(fsm.Repr)) && old(fsm.Repr) <= fsm.Repr
      ensures KeysMatch(fsm.Model())
      ensures var m := old(fsm.Model());
              && GroupStopped(m.servers, fsm.Model().servers, id, cluster.reliable)
              && (cluster.reliable ==> result == Done)
              && fsm.Model() == m.(servers := fsm.Model().servers,
                                   groups := if result == Done then m.groups - {id} else m.groups)
      ensures Integrity(old(fsm.Model())) ==> Integrity(fsm.Model())
    {
      hide FsmModel.KeysMatch, GroupStopped;
      StopMembers(id);
      var ok := cluster.Apply(GroupRemove(id));
      return if ok then Done else NotCommitted;
    }

    method StopMembers(id: string)
      requires Valid() && KeysMatch(fsm.Model())
      modifies fsm.Repr
      ensures Valid() && fresh(fsm.Repr - old(fsm.Repr)) && old(fsm.Repr) <= fsm.Repr
      ensures KeysMatch(fsm.Model())
      ensures fsm.Model() == old(fsm.Model()).(servers := fsm.Model().servers)
      ensures GroupStopped(old(fsm.Model()).servers, fsm.Model().servers, id, cluster.reliable)
    {
      hide FsmModel.KeysMatch, StoppedOne, StoppedSoFar, GroupStopped;
      ghost var m0 := fsm.Model();
      ServersUnderIds(m0);
      NoneStopped(m0.servers, id, cluster.reliable);
      var servers, keys := fsm.Servers();
      for i := 0 to |servers|
        invariant Valid() && fresh(fsm.Repr - old(fsm.Repr)) && old(fsm.Repr) <= fsm.Repr
        invariant KeysMatch(fsm.Model())
        invariant fsm.Model() == m0.(servers := fsm.Model().servers)
        invariant StoppedSoFar(m0.servers, fsm.Model().servers, keys, i, id, cluster.reliable)
      {
        var srv := servers[i];
        assert srv == m0.servers[keys[i]] && srv.spec.id == keys[i];
        ghost var before := fsm.Model().servers;
        if srv.spec.groupId == id {
          var _ := cluster.UpsertServer(srv.(state := ServerStopping));
        }
        StopOneMore(m0.servers, before, fsm.Model().servers, keys, i, id, cluster.reliable);
      }
      AllStopped(m0.servers, fsm.Model().servers, keys, id, cluster.reliable);
    }

    method CreateTemplate(template: Template) returns (result: TaskResult)
      requires Valid() && KeysMatch(fsm.Model())
      modifies fsm.Repr
      ensures Valid() && fresh(fsm.Repr - old(fsm.Repr)) && old(fsm.Repr) <= fsm.Repr
      ensures KeysMatch(fsm.Model())
      ensures var m, t := old(fsm.Model()), TemplateWithId(template);
              && (result == BadMode <==> t.mode != "static" && t.mode != "dynamic")
              && result in {Done, BadMode, NotCommitted}
              && (cluster.reliable ==> result != NotCommitted)
              && fsm.Model() == (if result == Done then m.(templates := m.templates[t.id := t]) else m)
              && t == template.(id := if template.id == "" then "tpl_" + template.name else template.id)
      ensures Integrity(old(fsm.Model())) ==> Integrity(fsm.Model())
    {
      hide FsmModel.KeysMatch;
      var t := template;
      if t.id == "" {
        t := t.(id := "tpl_" + t.name);
      }
      if t.mode != "static" && t.mode != "dynamic" {
        return BadMode;
      }
      var ok := cluster.Apply(TemplateUpsert(t));
      return if ok then Done else NotCommitted;
    }

    /** Refused exactly while some group uses the template. */
    method DeleteTemplate(id: string) returns (result: TaskResult)
      requires Valid() && KeysMatch(fsm.Model())
      modifies fsm.Repr
      ensures Valid() && fresh(fsm.Repr - old(fsm.Repr)) && old(fsm.Repr) <= fsm.Repr
      ensures KeysMatch(fsm.Model())
      ensures var m := old(fsm.Model());
              && (result == TemplateInUse <==> exists k | k in m.groups :: m.groups[k].templateId == id)
              && result in {Done, TemplateInUse, NotCommitted}
              && (cluster.reliable ==> result != NotCommitted)
              && fsm.Model() == if result == Done then m.(templates := m.templates - {id}) else m
      ensures Integrity(old(fsm.Model())) ==> Integrity(fsm.Model())
    {
      hide FsmModel.KeysMatch;
      var groups, keys := fsm.Groups();
      for i := 0 to |groups|
        invariant forall j | 0 <= j < i :: groups[j].templateId != id
      {
        if groups[i].templateId == id {
          assert fsm.Model().groups[keys[i]].templateId == id;
          return TemplateInUse;
        }
      }
      assert forall k | k in fsm.Model().groups :: fsm.Model().groups[k] in groups;
      var ok := cluster.Apply(TemplateRemove(id));
      return if ok then Done else NotCommitted;
    }
  }

  lemma ServersUnderIds(m: State)
    requires KeysMatch(m)
    ensures forall k | k in m.servers :: m.servers[k].spec.id == k
  {
  }

  // ---- runs -------------------------------------------------------------------

  datatype Operation =
    | CreateGroup(group: Group)
    | DeleteGroup(id: string)
    | CreateTemplate(template: Template)
    | DeleteTemplate(id: string)
    | Tick(now: int)

  /** Any number of operations, one at a time, each of whose commits may fail: integrity is
      never lost, so no tick ever finds a group's template missing. */
  method Run(service: Service, scheduler: Scheduler, operations: seq<Operation>)
    requires service.Valid() && scheduler.Valid() && service.fsm == scheduler.fsm
    requires KeysMatch(service.fsm.Model()) && Integrity(service.fsm.Model())
    modifies service.fsm.Repr, scheduler`templateMisses
    ensures service.Valid() && scheduler.Valid()
    ensures KeysMatch(service.fsm.Model()) && Integrity(service.fsm.Model())
    ensures scheduler.templateMisses == old(scheduler.templateMisses)
  {
    hide FsmModel.KeysMatch, Integrity;
    for i := 0 to |operations|
      invariant service.Valid() && scheduler.Valid()
      invariant fresh(service.fsm.Repr - old(service.fsm.Repr))
      invariant KeysMatch(service.fsm.Model()) && Integrity(service.fsm.Model())
      invariant scheduler.templateMisses == old(scheduler.templateMisses)
    {
      match operations[i] {
        case CreateGroup(g) => var _ := service.CreateGroup(g);
        case DeleteGroup(id) => var _ := service.DeleteGroup(id);
        case CreateTemplate(t) => var _ := service.CreateTemplate(t);
        case DeleteTemplate(id) => var _ := service.DeleteTemplate(id);
        case Tick(now) => TickKeepsIntegrity(scheduler, now);
      }
    }
  }

  method TickKeepsIntegrity(scheduler: Scheduler, now: int)
    requires scheduler.Valid() && KeysMatch(scheduler.fsm.Model()) && Integrity(scheduler.fsm.Model())
    modifies scheduler.fsm.Repr, scheduler`templateMisses
    ensures scheduler.Valid()
    ensures fresh(scheduler.fsm.Repr - old(scheduler.fsm.Repr))
    ensures KeysMatch(scheduler.fsm.Model()) && Integrity(scheduler.fsm.Model())
    ensures scheduler.templateMisses == old(scheduler.templateMisses)
  {
    hide FsmModel.KeysMatch, Placement.Settled, Placement.Fate, Placement.Scaled;
    ghost var _ := scheduler.Tick(now);
  }
}
