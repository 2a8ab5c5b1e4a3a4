/** Every writer of server records reads one, changes it and commits it some time later:
    the REST handlers (daemon/internal/api/rest.go), the scheduler and the group service. Here
    their reads and commits interleave in every order. */
module SpecRaces {
  import opened Types
  import opened FsmModel
  import opened Placement

  /** What a writer is going to do to the copy it has read. */
  datatype Intent = Start | Stop | Restart | StopGroup | ScaleDown | Orphan | Evacuate

  datatype Held = Held(copy: Server, intent: Intent)

  /** The record a writer commits; an evacuation picks its target between read and commit. */
  function Prepare(h: Held, target: string): (r: Server) {
    match h.intent
    case Start => h.copy
    case Stop => h.copy.(state := ServerStopping)
    case Restart => h.copy.(state := ServerStarting)
    case StopGroup => h.copy.(state := ServerStopping)
    case ScaleDown => h.copy.(state := ServerStopping)
    case Orphan => h.copy.(state := ServerOrphaned)
    case Evacuate => Moved(h.copy, target)
  }

  /** What each writer changes, field by field: the state, and an evacuation the place as well. */
  lemma PrepareExactly(h: Held, target: string)
    ensures var r, v := Prepare(h, target), h.copy;
            && r.spec == v.spec && r.playerCount == v.playerCount && r.maxPlayers == v.maxPlayers
            && r.startedAt == v.startedAt
            && (h.intent == Start ==> r.state == v.state)
            && (h.intent == Stop || h.intent == StopGroup || h.intent == ScaleDown ==> r.state == ServerStopping)
            && (h.intent == Restart ==> r.state == ServerStarting)
            && (h.intent == Orphan ==> r.state == ServerOrphaned)
            && (if h.intent == Evacuate then
                  r.state == ServerStarting && r.nodeId == target && r.containerId == "" && r.hostPort == 0
                else
                  r.nodeId == v.nodeId && r.containerId == v.containerId && r.hostPort == v.hostPort)
  {
  }

  /** `registered` remembers which specification each identifier was first given to. */
  datatype World = World(fsm: State, held: seq<Held>, registered: map<string, ServerSpec>)

  datatype Step =
    | Create(spec: ServerSpec, nodeId: string)
    | Read(id: string, intent: Intent)
    | Commit(which: nat, target: string, ok: bool)
    | Other(cmd: Command)

  /** Identifiers are never generated twice; every other command may be committed at any time,
      removals, set_state and set_host included. */
  predicate Enabled(w: World, s: Step) {
    match s
    case Create(spec, _) => spec.id !in w.registered
    case Read(id, intent) => id in w.fsm.servers && intent != Start
    case Commit(which, _, _) => which < |w.held|
    case Other(cmd) => !cmd.ServerUpsert?
  }

  function Next(w: World, s: Step): (r: World)
    requires Enabled(w, s)
  {
    match s
    case Create(spec, nodeId) =>
      w.(held := w.held + [Held(Server(spec, nodeId, ServerStarting, 0, 0, 0, "", 0), Start)],
         registered := w.registered[spec.id := spec])
    case Read(id, intent) =>
      w.(held := w.held + [Held(w.fsm.servers[id], intent)])
    case Commit(which, target, ok) =>
      var rest := w.held[..which] + w.held[which + 1..];
      if ok then World(Execute(w.fsm, ServerUpsert(Prepare(w.held[which], target))).state, rest, w.registered)
      else w.(held := rest)
    case Other(cmd) =>
      w.(fsm := Execute(w.fsm, cmd).state)
  }

  /** Every record in flight or stored carries the specification its identifier began with. */
  ghost predicate SpecsAgree(w: World) {
    && (forall i | 0 <= i < |w.held| :: Registered(w, w.held[i].copy.spec))
    && (forall k | k in w.fsm.servers :: w.fsm.servers[k].spec.id == k && Registered(w, w.fsm.servers[k].spec))
  }

  ghost predicate Registered(w: World, spec: ServerSpec) {
    spec.id in w.registered && w.registered[spec.id] == spec
  }

  predicate IsRun(w: World, steps: seq<Step>)
    decreases steps
  {
    steps == [] || (Enabled(w, steps[0]) && IsRun(Next(w, steps[0]), steps[1..]))
  }

  function After(w: World, steps: seq<Step>): (r: World)
    requires IsRun(w, steps)
    decreases steps
  {
    if steps == [] then w else After(Next(w, steps[0]), steps[1..])
  }

  lemma {:induction false} NoCommandMakesSpecs(s: State, c: Command)
    requires !c.ServerUpsert?
    ensures forall k | k in Execute(s, c).state.servers ::
              k in s.servers && Execute(s, c).state.servers[k].spec == s.servers[k].spec
  {
    match c
    case ServerSetState(_, _) =>
    case ServerSetHost(_, _, _, _) =>
    case ServerRemove(_) =>
    case _ => OthersKeepServers(s, c);
  }

  lemma {:induction false} OthersKeepServers(s: State, c: Command)
    requires !WritesServers(c)
    ensures Execute(s, c).state.servers == s.servers
  {
  }

  lemma {:induction false} StepKeepsSpecs(w: World, s: Step)
    requires SpecsAgree(w) && Enabled(w, s)
    ensures SpecsAgree(Next(w, s))
    ensures forall k | k in w.registered :: k in Next(w, s).registered && Next(w, s).registered[k] == w.registered[k]
  {
    match s
    case Create(_, _) =>
    case Read(_, _) =>
    case Commit(which, target, _) =>
      assert Prepare(w.held[which], target).spec == w.held[which].copy.spec;
      assert Registered(w, w.held[which].copy.spec);
    case Other(cmd) =>
      NoCommandMakesSpecs(w.fsm, cmd);
  }

  /** Whatever the interleaving, a specification never changes: neither in the store nor in
      what any writer is about to commit, and not even after a removal. */
  lemma {:induction false} SpecsNeverChange(w: World, steps: seq<Step>)
    requires SpecsAgree(w) && IsRun(w, steps)
    ensures SpecsAgree(After(w, steps))
    ensures forall k | k in w.registered ::
              k in After(w, steps).registered && After(w, steps).registered[k] == w.registered[k]
    decreases steps
  {
    if steps != [] {
      StepKeepsSpecs(w, steps[0]);
      SpecsNeverChange(Next(w, steps[0]), steps[1..]);
    }
  }

  // ---- removals ---------------------------------------------------------------

  predicate Removes(s: Step, id: string) {
    s.Other? && s.cmd == ServerRemove(id)
  }

  /** A successful commit of a copy that somebody holds of this record. */
  predicate Commits(w: World, s: Step, id: string)
    requires Enabled(w, s)
  {
    s.Commit? && s.ok && w.held[s.which].copy.spec.id == id
  }

  predicate NotRemoved(steps: seq<Step>, id: string) {
    forall i | 0 <= i < |steps| :: !Removes(steps[i], id)
  }

  /** Some held copy of the record is committed, and no removal of it follows. */
  ghost predicate CommittedLast(w: World, steps: seq<Step>, id: string)
    requires IsRun(w, steps)
    decreases steps
  {
    steps != []
    && ((Commits(w, steps[0], id) && NotRemoved(steps[1..], id)) || CommittedLast(Next(w, steps[0]), steps[1..], id))
  }

  lemma {:induction false} OneStepPresence(w: World, s: Step, id: string)
    requires Enabled(w, s)
    ensures id in Next(w, s).fsm.servers <==>
              Commits(w, s, id) || (id in w.fsm.servers && !Removes(s, id))
  {
    match s
    case Create(_, _) =>
    case Read(_, _) =>
    case Commit(which, target, _) =>
      assert Prepare(w.held[which], target).spec == w.held[which].copy.spec;
    case Other(cmd) => OtherPresence(w.fsm, cmd, id);
  }

  lemma {:induction false} OtherPresence(s: State, c: Command, id: string)
    requires !c.ServerUpsert?
    ensures id in Execute(s, c).state.servers <==> id in s.servers && c != ServerRemove(id)
  {
    if !WritesServers(c) {
      OthersKeepServers(s, c);
      hide Execute;
    }
  }

  /** Over every interleaving a record is there at the end exactly if it was there at the start
      and was not removed, or a copy of it was committed after its last removal. */
  lemma {:induction false} PresenceExactly(w: World, steps: seq<Step>, id: string)
    requires IsRun(w, steps)
    ensures id in After(w, steps).fsm.servers <==>
              (id in w.fsm.servers && NotRemoved(steps, id)) || CommittedLast(w, steps, id)
    decreases steps
  {
    hide Next, Enabled, Removes, Commits;
    if steps != [] {
      var rest := steps[1..];
      OneStepPresence(w, steps[0], id);
      PresenceExactly(Next(w, steps[0]), rest, id);
      assert NotRemoved(steps, id) <==> !Removes(steps[0], id) && NotRemoved(rest, id) by {
        assert forall i | 0 <= i < |rest| :: rest[i] == steps[i + 1];
        if !Removes(steps[0], id) && NotRemoved(rest, id) {
          forall i | 0 <= i < |steps|
            ensures !Removes(steps[i], id)
          {
            assert i > 0 ==> steps[i] == rest[i - 1];
          }
        }
      }
    }
  }

  /** A removal is undone exactly by a commit of a copy that follows the last removal of the
      record, this one included. */
  lemma RemovalUndoneExactly(w: World, id: string, steps: seq<Step>)
    requires IsRun(Next(w, Other(ServerRemove(id))), steps)
    ensures var removed := Next(w, Other(ServerRemove(id)));
            id in After(removed, steps).fsm.servers <==> CommittedLast(removed, steps, id)
  {
    PresenceExactly(Next(w, Other(ServerRemove(id))), steps, id);
  }

  /** What such a commit brings back is the record as it was read, changed as the writer means
      to change it. */
  lemma LateCommitResurrects(w: World, which: nat, target: string)
    requires which < |w.held|
    ensures var h := w.held[which];
            var removed := Next(w, Other(ServerRemove(h.copy.spec.id)));
            && h.copy.spec.id !in removed.fsm.servers
            && Enabled(removed, Commit(which, target, true))
            && var after := Next(removed, Commit(which, target, true)).fsm.servers;
               h.copy.spec.id in after && after[h.copy.spec.id] == Prepare(h, target)
  {
    assert Prepare(w.held[which], target).spec == w.held[which].copy.spec;
  }
}
