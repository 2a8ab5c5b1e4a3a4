/** Committing a command (daemon/internal/cluster/cluster.go, Apply): one atomic step on the
    state machine, which either happens or, on a lost leadership or a timeout, does not. */
module ClusterApply {
  import opened Types
  import opened FsmModel
  import opened RaftFsm

  class Cluster {
    const fsm: Fsm
    /** Set for the runs in which every commit succeeds. */
    const reliable: bool

    constructor (fsm: Fsm, reliable: bool)
      ensures this.fsm == fsm && this.reliable == reliable
    {
      this.fsm, this.reliable := fsm, reliable;
    }

    method Apply(c: Command) returns (ok: bool)
      requires fsm.Valid()
      modifies fsm.Repr
      ensures fsm.Valid() && fresh(fsm.Repr - old(fsm.Repr)) && old(fsm.Repr) <= fsm.Repr
      ensures reliable ==> ok
      ensures fsm.Model() == if ok then Execute(old(fsm.Model()), c).state else old(fsm.Model())
      ensures KeysMatch(old(fsm.Model())) ==> KeysMatch(fsm.Model())
    {
      hide FsmModel.Execute, FsmModel.KeysMatch;
      if KeysMatch(fsm.Model()) {
        ExecuteKeepsKeysMatch(fsm.Model(), c);
      }
      ok := *;
      if reliable || ok {
        ok := true;
        var index: int := *;
        var _ := fsm.Apply(LogEntry(index, Envelope("", c)));
      }
    }

    method UpsertNode(n: Node) returns (ok: bool)
      requires fsm.Valid()
      modifies fsm.Repr
      ensures fsm.Valid() && fresh(fsm.Repr - old(fsm.Repr)) && old(fsm.Repr) <= fsm.Repr
      ensures reliable ==> ok
      ensures var m := old(fsm.Model());
              fsm.Model() == if ok then m.(nodes := m.nodes[n.id := n]) else m
      ensures KeysMatch(old(fsm.Model())) ==> KeysMatch(fsm.Model())
    {
      hide FsmModel.KeysMatch;
      ok := Apply(NodeUpsert(n));
    }

    method UpsertServer(v: Server) returns (ok: bool)
      requires fsm.Valid()
      modifies fsm.Repr
      ensures fsm.Valid() && fresh(fsm.Repr - old(fsm.Repr)) && old(fsm.Repr) <= fsm.Repr
      ensures reliable ==> ok
      ensures var m := old(fsm.Model());
              fsm.Model() == if ok then m.(servers := m.servers[v.spec.id := v]) else m
      ensures KeysMatch(old(fsm.Model())) ==> KeysMatch(fsm.Model())
    {
      hide FsmModel.KeysMatch;
      ok := Apply(ServerUpsert(v));
    }
  }
}
