/** Node records are written whole, by the heartbeat broadcaster, which samples a record and
    commits it (daemon/internal/heartbeat/heartbeat.go, broadcast), and by the scheduler, which
    reads one, changes its state and commits it (daemon/internal/scheduler/scheduler.go, tick and
    markNodeDown). Here samples, reads and commits interleave in every order. */
module NodeRaces {
  import opened Types
  import opened FsmModel

  /** A record about to be committed: a heartbeat, or the copy of a record with a new state. */
  datatype Pending = Beat(node: Node) | Mark(copy: Node, to: NodeState)

  function Record(p: Pending): (r: Node) {
    match p
    case Beat(n) => n
    case Mark(copy, to) => copy.(state := to)
  }

  function CommandOf(p: Pending): (r: Command) {
    match p
    case Beat(n) => Heartbeat(n)
    case Mark(copy, to) => NodeUpsert(copy.(state := to))
  }

  datatype World = World(fsm: State, held: seq<Pending>)

  datatype Step =
    | Sample(node: Node)
    | Read(id: string, to: NodeState)
    | Commit(which: nat, ok: bool)
    | Other(cmd: Command)

  predicate Enabled(w: World, s: Step) {
    match s
    case Sample(n) => n.state == NodeUp
    case Read(id, to) => id in w.fsm.nodes && (to == NodeDown || to == NodeSuspect)
    case Commit(which, _) => which < |w.held|
    case Other(cmd) => !cmd.NodeUpsert? && !cmd.Heartbeat?
  }

  function Next(w: World, s: Step): (r: World)
    requires Enabled(w, s)
  {
    match s
    case Sample(n) => w.(held := w.held + [Beat(n)])
    case Read(id, to) => w.(held := w.held + [Mark(w.fsm.nodes[id], to)])
    case Commit(which, ok) =>
      var rest := w.held[..which] + w.held[which + 1..];
      if ok then World(Execute(w.fsm, CommandOf(w.held[which])).state, rest) else w.(held := rest)
    case Other(cmd) => w.(fsm := Execute(w.fsm, cmd).state)
  }

  predicate IsRun(w: World, steps: seq<Step>)
    decreases steps
  {
    steps == [] || (Enabled(w, steps[0]) && IsRun(Next(w, steps[0]), steps[1..]))
  }

  function After(w: World, steps: seq<Step>): (r: World)
    requires IsRun(w, steps)
    decreases steps
  {
    if steps == [] then w else After(Next(w, steps[0]), steps[1..])
  }

  predicate Stored(s: State, id: string, r: Option<Node>) {
    if r.Some? then id in s.nodes && s.nodes[id] == r.value else id !in s.nodes
  }

  // ---- what is stored -------------------------------------------------------------

  /** A step that writes the node's record, or removes it. */
  predicate Writes(w: World, s: Step, id: string)
    requires Enabled(w, s)
  {
    match s
    case Commit(which, ok) => ok && Record(w.held[which]).id == id
    case Other(cmd) => cmd == NodeRemove(id)
    case _ => false
  }

  function Written(w: World, s: Step): (r: Option<Node>)
    requires Enabled(w, s) && (s.Commit? || s.Other?)
  {
    if s.Commit? then Some(Record(w.held[s.which])) else None
  }

  lemma {:induction false} OtherNodes(s: State, c: Command, id: string)
    requires !c.NodeUpsert? && !c.Heartbeat? && c != NodeRemove(id)
    ensures id in Execute(s, c).state.nodes <==> id in s.nodes
    ensures id in s.nodes ==> Execute(s, c).state.nodes[id] == s.nodes[id]
  {
    if c.NodeRemove? {
    } else {
      SameNodes(s, c);
      hide Execute;
    }
  }

  lemma {:induction false} SameNodes(s: State, c: Command)
    requires !WritesNodes(c)
    ensures Execute(s, c).state.nodes == s.nodes
  {
  }

  lemma {:induction false} StepWrites(w: World, s: Step, id: string, r: Option<Node>)
    requires Enabled(w, s) && Stored(w.fsm, id, r)
    ensures Stored(Next(w, s).fsm, id, if Writes(w, s, id) then Written(w, s) else r)
  {
    match s
    case Sample(_) =>
    case Read(_, _) =>
    case Commit(which, _) =>
      match w.held[which] {
        case Beat(_) =>
        case Mark(_, _) =>
      }
    case Other(cmd) =>
      if cmd != NodeRemove(id) {
        OtherNodes(w.fsm, cmd, id);
        hide Execute;
      }
  }

  ghost predicate NotWritten(w: World, steps: seq<Step>, id: string)
    requires IsRun(w, steps)
    decreases steps
  {
    steps != [] ==> !Writes(w, steps[0], id) && NotWritten(Next(w, steps[0]), steps[1..], id)
  }

  // ---- overwritten heartbeats -------------------------------------------------------

  /** A commit of a record of the node whose heartbeat is later than `t`. */
  predicate CommitsFresher(w: World, s: Step, id: string, t: int)
    requires Enabled(w, s)
  {
    s.Commit? && Writes(w, s, id) && Record(w.held[s.which]).lastHeartbeat > t
  }

  /** Some record with a later heartbeat is committed, and none of the node's is committed or
      removed after it. */
  ghost predicate FresherLast(w: World, steps: seq<Step>, id: string, t: int)
    requires IsRun(w, steps)
    decreases steps
  {
    steps != []
    && ((CommitsFresher(w, steps[0], id, t) && NotWritten(Next(w, steps[0]), steps[1..], id))
        || FresherLast(Next(w, steps[0]), steps[1..], id, t))
  }

  ghost predicate FresherStored(s: State, id: string, t: int) {
    id in s.nodes && s.nodes[id].lastHeartbeat > t
  }

  lemma {:induction false} StepFresher(w: World, s: Step, id: string, t: int)
    requires Enabled(w, s)
    ensures FresherStored(Next(w, s).fsm, id, t) <==>
              CommitsFresher(w, s, id, t) || (!Writes(w, s, id) && FresherStored(w.fsm, id, t))
  {
    StepWrites(w, s, id, if id in w.fsm.nodes then Some(w.fsm.nodes[id]) else None);
    hide Next;
  }

  lemma {:induction false} FresherExactly(w: World, steps: seq<Step>, id: string, t: int)
    requires IsRun(w, steps)
    ensures FresherStored(After(w, steps).fsm, id, t) <==>
              FresherLast(w, steps, id, t) || (FresherStored(w.fsm, id, t) && NotWritten(w, steps, id))
    decreases steps
  {
    hide Next, Enabled, FresherStored, CommitsFresher, Writes;
    if steps != [] {
      StepFresher(w, steps[0], id, t);
      if CommitsFresher(w, steps[0], id, t) {
        FresherIsWrite(w, steps[0], id, t);
      }
      FresherExactly(Next(w, steps[0]), steps[1..], id, t);
    }
  }

  lemma FresherIsWrite(w: World, s: Step, id: string, t: int)
    requires Enabled(w, s) && CommitsFresher(w, s, id, t)
    ensures Writes(w, s, id)
  {
  }

  /** The scheduler reads a record, any steps of others follow, and its commit goes through: it
      puts a later heartbeat back to the one it had read exactly if a record with a later one
      was committed in between, and was the last of the node's to be written. */
  lemma OverwritesExactly(w: World, steps: seq<Step>, id: string, to: NodeState)
    requires id in w.fsm.nodes && w.fsm.nodes[id].id == id && IsRun(w, steps)
    ensures var copy, s := w.fsm.nodes[id], After(w, steps).fsm;
            var s' := Execute(s, CommandOf(Mark(copy, to))).state;
            && s'.nodes == s.nodes[id := copy.(state := to)]
            && ((id in s.nodes && s.nodes[id].lastHeartbeat > s'.nodes[id].lastHeartbeat) <==>
                  FresherLast(w, steps, id, copy.lastHeartbeat))
  {
    hide Execute;
    var copy, s := w.fsm.nodes[id], After(w, steps).fsm;
    MarkWrites(s, copy, to);
    FresherExactly(w, steps, id, copy.lastHeartbeat);
  }

  lemma MarkWrites(s: State, copy: Node, to: NodeState)
    ensures Execute(s, CommandOf(Mark(copy, to))).state.nodes == s.nodes[copy.id := copy.(state := to)]
  {
  }

  /** Where a later heartbeat comes from: as long as nobody holds one at the read, one that is
      stored or held afterwards was sampled in between. */
  ghost predicate NoneFresher(w: World, id: string, t: int) {
    && !FresherStored(w.fsm, id, t)
    && forall p | p in w.held && Record(p).id == id :: Record(p).lastHeartbeat <= t
  }

  predicate SamplesFresher(s: Step, id: string, t: int) {
    s.Sample? && s.node.id == id && s.node.lastHeartbeat > t
  }

  lemma {:induction false} NoneFresherStep(w: World, s: Step, id: string, t: int)
    requires Enabled(w, s) && NoneFresher(w, id, t) && KeysMatch(w.fsm) && !SamplesFresher(s, id, t)
    ensures NoneFresher(Next(w, s), id, t) && KeysMatch(Next(w, s).fsm)
  {
    StepFresher(w, s, id, t);
    if s.Commit? {
      assert w.held[s.which] in w.held;
      ExecuteKeepsKeysMatch(w.fsm, CommandOf(w.held[s.which]));
    } else if s.Other? {
      ExecuteKeepsKeysMatch(w.fsm, s.cmd);
    } else if s.Read? {
      assert w.fsm.nodes[s.id].id == s.id;
    }
    hide Execute, KeysMatch;
  }

  /** So the commit of the scheduler can lose nothing but heartbeats sampled since its read. */
  lemma {:induction false} LosesOnlyLaterSamples(w: World, steps: seq<Step>, id: string, t: int)
    requires IsRun(w, steps) && NoneFresher(w, id, t) && KeysMatch(w.fsm)
    requires forall i | 0 <= i < |steps| :: !SamplesFresher(steps[i], id, t)
    ensures NoneFresher(After(w, steps), id, t) && !FresherLast(w, steps, id, t)
    decreases steps
  {
    hide Next, Enabled, NoneFresher, KeysMatch, CommitsFresher, SamplesFresher;
    if steps != [] {
      NoneFresherStep(w, steps[0], id, t);
      assert forall i | 0 <= i < |steps| - 1 :: steps[1..][i] == steps[i + 1];
      NotCommittedFresher(w, steps[0], id, t);
      LosesOnlyLaterSamples(Next(w, steps[0]), steps[1..], id, t);
    }
  }

  lemma NotCommittedFresher(w: World, s: Step, id: string, t: int)
    requires Enabled(w, s) && NoneFresher(w, id, t)
    ensures !CommitsFresher(w, s, id, t)
  {
    if s.Commit? {
      assert w.held[s.which] in w.held;
    }
  }

  /** The case at hand: a heartbeat arrives between the read and the commit, and the node, alive,
      is left Down with its old heartbeat, until the next one. */
  lemma BeatThenDown(w: World, id: string, beat: Node)
    requires w.held == [] && id in w.fsm.nodes && w.fsm.nodes[id].id == id == beat.id && beat.state == NodeUp
    requires beat.lastHeartbeat > w.fsm.nodes[id].lastHeartbeat
    ensures var w1 := Next(Next(w, Read(id, NodeDown)), Sample(beat));
            var w2 := Next(Next(w1, Commit(1, true)), Commit(0, true));
            && w2.fsm.nodes[id] == w.fsm.nodes[id].(state := NodeDown)
            && Execute(w2.fsm, Heartbeat(beat)).state.nodes[id] == beat
  {
    var w1 := Next(Next(w, Read(id, NodeDown)), Sample(beat));
    assert w1.held == [Mark(w.fsm.nodes[id], NodeDown), Beat(beat)];
    assert w1.held[..1] + w1.held[2..] == [Mark(w.fsm.nodes[id], NodeDown)];
  }
}
