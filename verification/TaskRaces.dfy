/** The task service's operations look at the state, and commit some time later
    (daemon/internal/tasks/groups.go). Here their checks and their commits interleave, with each
    other and with the scheduler's spawns. */
module TaskRaces {
  import opened Types
  import opened FsmModel
  import opened Tasks

  /** What an operation is about to commit, or a group that a tick has listed and is going to
      spawn an instance of. */
  datatype Pending =
    | PutGroup(group: Group)
    | DropGroup(id: string)
    | PutTemplate(template: Template)
    | DropTemplate(id: string)
    | Spawn(group: Group)

  predicate Unused(s: State, templateId: string) {
    forall k | k in s.groups :: s.groups[k].templateId != templateId
  }

  /** The checks an operation makes before it prepares its commit. */
  predicate Ready(s: State, p: Pending) {
    match p
    case PutGroup(g) => ValidBounds(g) && g.templateId in s.templates
    case DropGroup(_) => true
    case PutTemplate(t) => t.mode == "static" || t.mode == "dynamic"
    case DropTemplate(id) => Unused(s, id)
    case Spawn(g) => exists k :: k in s.groups && s.groups[k] == g
  }

  /** A spawn writes a server, which is one of the other commands. */
  function Committed(s: State, p: Pending): (r: State) {
    match p
    case PutGroup(g) => Execute(s, GroupUpsert(g)).state
    case DropGroup(id) => Execute(s, GroupRemove(id)).state
    case PutTemplate(t) => Execute(s, TemplateUpsert(t)).state
    case DropTemplate(id) => Execute(s, TemplateRemove(id)).state
    case Spawn(_) => s
  }

  /** The check would fail if it were made again now. */
  predicate Stale(s: State, p: Pending) {
    match p
    case PutGroup(g) => g.templateId !in s.templates
    case DropTemplate(id) => !Unused(s, id)
    case _ => false
  }

  /** A commit breaks the integrity exactly if its check no longer holds. */
  lemma {:induction false} CommitExactly(s: State, p: Pending)
    requires Integrity(s) && (p.PutGroup? ==> ValidBounds(p.group))
    ensures Integrity(Committed(s, p)) <==> !Stale(s, p)
  {
    var s' := Committed(s, p);
    match p
    case PutGroup(g) =>
      assert s'.groups[g.id] == g;
    case DropTemplate(id) =>
      if Stale(s, p) {
        var k :| k in s.groups && s.groups[k].templateId == id;
        assert k in s'.groups && s'.groups[k].templateId !in s'.templates;
      }
    case DropGroup(_) =>
    case PutTemplate(_) =>
    case Spawn(_) =>
  }

  // ---- two operations ---------------------------------------------------------

  /** One creates a group from the template the other deletes. */
  predicate Clash(a: Pending, b: Pending) {
    || (a.PutGroup? && b.DropTemplate? && a.group.templateId == b.id)
    || (b.PutGroup? && a.DropTemplate? && b.group.templateId == a.id)
  }

  /** Any two operations that made their checks in the same state: committing both, in this
      order, keeps the integrity exactly if they do not clash. */
  lemma {:induction false} PairExactly(s: State, a: Pending, b: Pending)
    requires Integrity(s) && Ready(s, a) && Ready(s, b)
    ensures Integrity(Committed(Committed(s, a), b)) <==> !Clash(a, b)
  {
    ReadyIsFresh(s, a);
    CommitExactly(s, a);
    CommitExactly(Committed(s, a), b);
    StaleAfter(s, a, b);
    hide Integrity, Ready, Committed, Stale, Clash;
  }

  lemma {:induction false} ReadyIsFresh(s: State, p: Pending)
    requires Ready(s, p)
    ensures !Stale(s, p)
  {
  }

  lemma {:induction false} StaleAfter(s: State, a: Pending, b: Pending)
    requires Ready(s, a) && Ready(s, b)
    ensures Stale(Committed(s, a), b) <==> Clash(a, b)
  {
    var s' := Committed(s, a);
    if a.PutGroup? && b.DropTemplate? {
      assert s'.groups[a.group.id] == a.group;
      assert forall k | k in s'.groups :: s'.groups[k] == a.group || (k in s.groups && s'.groups[k] == s.groups[k]);
    }
  }

  /** CreateGroup and DeleteTemplate, in either order of their commits. */
  lemma OverlapExactly(s: State, g: Group, id: string)
    requires Integrity(s) && ValidBounds(g) && g.templateId in s.templates && Unused(s, id)
    ensures Integrity(Execute(Execute(s, TemplateRemove(id)).state, GroupUpsert(g)).state) <==> g.templateId != id
    ensures Integrity(Execute(Execute(s, GroupUpsert(g)).state, TemplateRemove(id)).state) <==> g.templateId != id
  {
    PairExactly(s, DropTemplate(id), PutGroup(g));
    PairExactly(s, PutGroup(g), DropTemplate(id));
  }

  // ---- runs -------------------------------------------------------------------

  datatype World = World(fsm: State, held: seq<Pending>)

  datatype Step =
    | Check(pending: Pending)
    | Commit(which: nat, ok: bool)
    | Other(cmd: Command)

  predicate Enabled(w: World, s: Step) {
    match s
    case Check(p) => Ready(w.fsm, p)
    case Commit(which, _) => which < |w.held|
    case Other(cmd) => !WritesCatalog(cmd)
  }

  function Next(w: World, s: Step): (r: World)
    requires Enabled(w, s)
  {
    match s
    case Check(p) => w.(held := w.held + [p])
    case Commit(which, ok) =>
      World(if ok then Committed(w.fsm, w.held[which]) else w.fsm, w.held[..which] + w.held[which + 1..])
    case Other(cmd) => w.(fsm := Execute(w.fsm, cmd).state)
  }

  predicate IsRun(w: World, steps: seq<Step>)
    decreases steps
  {
    steps == [] || (Enabled(w, steps[0]) && IsRun(Next(w, steps[0]), steps[1..]))
  }

  /** Everything in flight has passed the checks that look at nothing but the request. */
  ghost predicate Sound(w: World) {
    forall p | p in w.held && p.PutGroup? :: ValidBounds(p.group)
  }

  ghost predicate AlwaysIntact(w: World, steps: seq<Step>)
    requires IsRun(w, steps)
    decreases steps
  {
    Integrity(w.fsm) && (steps != [] ==> AlwaysIntact(Next(w, steps[0]), steps[1..]))
  }

  predicate StaleCommit(w: World, s: Step)
    requires Enabled(w, s)
  {
    s.Commit? && s.ok && Stale(w.fsm, w.held[s.which])
  }

  ghost predicate NoStaleCommit(w: World, steps: seq<Step>)
    requires IsRun(w, steps)
    decreases steps
  {
    steps != [] ==> !StaleCommit(w, steps[0]) && NoStaleCommit(Next(w, steps[0]), steps[1..])
  }

  lemma {:induction false} OtherKeepsCatalog(s: State, c: Command)
    requires !WritesCatalog(c)
    ensures Execute(s, c).state.groups == s.groups && Execute(s, c).state.templates == s.templates
  {
  }

  lemma {:induction false} StepExactly(w: World, s: Step)
    requires Integrity(w.fsm) && Sound(w) && Enabled(w, s)
    ensures Integrity(Next(w, s).fsm) <==> !StaleCommit(w, s)
    ensures Sound(Next(w, s))
  {
    match s
    case Check(_) =>
    case Commit(which, ok) =>
      assert w.held[which] in w.held;
      CommitExactly(w.fsm, w.held[which]);
      hide Integrity, Committed, Stale;
    case Other(cmd) =>
      OtherKeepsCatalog(w.fsm, cmd);
      hide Execute;
  }

  /** Over every interleaving: groups name existing templates and have valid bounds throughout
      exactly if no commit goes through whose check no longer holds. */
  lemma {:induction false} IntegrityExactly(w: World, steps: seq<Step>)
    requires Integrity(w.fsm) && Sound(w) && IsRun(w, steps)
    ensures AlwaysIntact(w, steps) <==> NoStaleCommit(w, steps)
    decreases steps
  {
    hide Integrity, Sound, Next, Enabled, StaleCommit;
    if steps != [] {
      StepExactly(w, steps[0]);
      if StaleCommit(w, steps[0]) {
        assert !AlwaysIntact(Next(w, steps[0]), steps[1..]);
      } else {
        IntegrityExactly(Next(w, steps[0]), steps[1..]);
      }
    }
  }

  // ---- templates --------------------------------------------------------------

  predicate Drops(w: World, s: Step, templateId: string)
    requires Enabled(w, s)
  {
    s.Commit? && s.ok && w.held[s.which] == DropTemplate(templateId)
  }

  predicate Puts(w: World, s: Step, templateId: string)
    requires Enabled(w, s)
  {
    s.Commit? && s.ok && w.held[s.which].PutTemplate? && w.held[s.which].template.id == templateId
  }

  ghost predicate NeverPut(w: World, steps: seq<Step>, templateId: string)
    requires IsRun(w, steps)
    decreases steps
  {
    steps != [] ==> !Puts(w, steps[0], templateId) && NeverPut(Next(w, steps[0]), steps[1..], templateId)
  }

  /** Some removal of the template is committed, and it is not put again afterwards. */
  ghost predicate DroppedLast(w: World, steps: seq<Step>, templateId: string)
    requires IsRun(w, steps)
    decreases steps
  {
    steps != []
    && ((Drops(w, steps[0], templateId) && NeverPut(Next(w, steps[0]), steps[1..], templateId))
        || DroppedLast(Next(w, steps[0]), steps[1..], templateId))
  }

  lemma {:induction false} TemplateStep(w: World, s: Step, templateId: string)
    requires Enabled(w, s)
    ensures templateId !in Next(w, s).fsm.templates <==>
              !Puts(w, s, templateId) && (Drops(w, s, templateId) || templateId !in w.fsm.templates)
    ensures !(Puts(w, s, templateId) && Drops(w, s, templateId))
  {
    match s
    case Check(_) =>
    case Commit(which, _) =>
    case Other(cmd) =>
      OtherKeepsCatalog(w.fsm, cmd);
      hide Execute;
  }

  /** Over every interleaving a template is missing at the end exactly if it was dropped and not
      put again, or was missing at the start and never put. */
  lemma {:induction false} TemplateMissingExactly(w: World, steps: seq<Step>, templateId: string)
    requires IsRun(w, steps)
    ensures templateId !in After(w, steps).fsm.templates <==>
              DroppedLast(w, steps, templateId)
              || (templateId !in w.fsm.templates && NeverPut(w, steps, templateId))
    decreases steps
  {
    hide Next, Enabled, Puts, Drops;
    if steps != [] {
      TemplateStep(w, steps[0], templateId);
      TemplateMissingExactly(Next(w, steps[0]), steps[1..], templateId);
    }
  }

  function After(w: World, steps: seq<Step>): (r: World)
    requires IsRun(w, steps)
    decreases steps
  {
    if steps == [] then w else After(Next(w, steps[0]), steps[1..])
  }

  // ---- spawns -----------------------------------------------------------------

  /** A tick lists a group in an intact state, and spawns from what it listed after any
      interleaving of the others: it misses the template exactly if that was dropped meanwhile
      and not put again. Then no group that is stored names it, unless a commit was stale. */
  lemma SpawnMissesExactly(w: World, g: Group, steps: seq<Step>)
    requires Integrity(w.fsm) && Sound(w) && Ready(w.fsm, Spawn(g)) && IsRun(w, steps)
    ensures g.templateId !in After(w, steps).fsm.templates <==> DroppedLast(w, steps, g.templateId)
    ensures g.templateId !in After(w, steps).fsm.templates && NoStaleCommit(w, steps) ==>
              Unused(After(w, steps).fsm, g.templateId)
  {
    TemplateMissingExactly(w, steps, g.templateId);
    if NoStaleCommit(w, steps) {
      IntegrityExactly(w, steps);
      IntactAtEnd(w, steps);
    }
  }

  lemma {:induction false} IntactAtEnd(w: World, steps: seq<Step>)
    requires IsRun(w, steps) && AlwaysIntact(w, steps)
    ensures Integrity(After(w, steps).fsm)
    decreases steps
  {
    hide Integrity, Next, Enabled;
    if steps != [] {
      IntactAtEnd(Next(w, steps[0]), steps[1..]);
    }
  }

  /** No single operation that overlaps with a spawn takes its template away. */
  lemma {:induction false} SpawnSurvivesOne(s: State, g: Group, p: Pending)
    requires Integrity(s) && Ready(s, Spawn(g)) && Ready(s, p)
    ensures g.templateId in Committed(s, p).templates
  {
    var k :| k in s.groups && s.groups[k] == g;
    match p
    case DropTemplate(id) =>
    case PutTemplate(_) =>
    case _ =>
  }

  /** Two do, although every check and every commit is in order: the group goes, then the
      template, then the tick spawns from what it had listed. */
  lemma SpawnCanMiss(s: State, g: Group)
    requires Integrity(s) && KeysMatch(s) && Ready(s, Spawn(g))
    requires forall k | k in s.groups && k != g.id :: s.groups[k].templateId != g.templateId
    ensures var s1 := Committed(s, DropGroup(g.id));
            var s2 := Committed(s1, DropTemplate(g.templateId));
            && Ready(s1, DropTemplate(g.templateId)) && Integrity(s1) && Integrity(s2)
            && g.templateId !in s2.templates
  {
  }
}
