/** The replicated state machine as the daemon keeps it: seven maps, of which the servers'
    records are written in place by set_state and set_host, deep-copy snapshots, restore,
    and subscribers (daemon/internal/raftfsm/fsm.go).

    Nothing ever writes through the pointers of the other maps, so those maps hold values. */
module RaftFsm {
  import opened Types
  import opened FsmModel
  import opened EventBus
  import opened Tables

  /** A snapshot owns its records: the state machine does not point at any of them. */
  class Snapshot {
    const nodes: map<string, Node>
    const servers: Table<Server>
    const groups: map<string, Group>
    const templates: map<string, Template>
    const databases: map<string, Database>
    const tokens: map<string, Token>
    const idem: map<string, int>

    ghost predicate Valid()
      reads this, servers, servers.Repr
    {
      servers.Valid()
    }

    ghost function Model(): (r: State)
      reads this, servers
    {
      State(nodes, servers.m, groups, templates, databases, tokens, idem)
    }

    constructor (
      nodes: map<string, Node>, servers: Table<Server>, groups: map<string, Group>,
      templates: map<string, Template>, databases: map<string, Database>,
      tokens: map<string, Token>, idem: map<string, int>)
      requires servers.Valid()
      ensures Valid() && this.servers == servers
      ensures Model() == State(nodes, servers.m, groups, templates, databases, tokens, idem)
    {
      this.nodes, this.servers, this.groups := nodes, servers, groups;
      this.templates, this.databases, this.tokens, this.idem := templates, databases, tokens, idem;
    }

    /** Persist: the encoder walks the snapshot's records, possibly long after it was taken,
        and writes a document that stands for the whole state; if the sink does not take it the
        sink is cancelled, and there is no document. */
    method Persist(sinkTakes: bool) returns (doc: Option<State>)
      requires Valid()
      ensures doc == if sinkTakes then Some(Model()) else None
    {
      var ss := servers.Values();
      if !sinkTakes {
        return None;
      }
      return Some(State(nodes, ss, groups, templates, databases, tokens, idem));
    }
  }

  class Fsm {
    var nodes: map<string, Node>
    var servers: Table<Server>
    var groups: map<string, Group>
    var templates: map<string, Template>
    var databases: map<string, Database>
    var tokens: map<string, Token>
    var idem: map<string, int>
    const bus: Bus

    /** The state the maps and records stand for. */
    ghost function Model(): (r: State)
      reads this, servers
    {
      State(nodes, servers.m, groups, templates, databases, tokens, idem)
    }

    ghost var Repr: set<object>

    ghost predicate Valid()
      reads this, Repr
    {
      && this in Repr && servers in Repr && bus in Repr
      && servers.Repr <= Repr && bus.Repr <= Repr
      && this !in servers.Repr && this !in bus.Repr && servers.Repr !! bus.Repr
      && servers.Valid() && bus.Valid()
    }

    constructor ()
      ensures Valid() && fresh(Repr)
      ensures Model() == EMPTY && bus.published == [] && bus.subscribers == []
    {
      nodes, groups, templates, databases, tokens, idem := map[], map[], map[], map[], map[], map[];
      var ss := new Table<Server>();
      var b := new Bus();
      servers, bus := ss, b;
      Repr := {this} + ss.Repr + b.Repr;
    }

    /** Apply: one committed log entry. */
    method Apply(e: LogEntry) returns (out: Outcome)
      requires Valid()
      modifies Repr
      ensures Valid() && fresh(Repr - old(Repr)) && old(Repr) <= Repr
      ensures Model() == FsmModel.Apply(old(Model()), e).state
      ensures out == FsmModel.Apply(old(Model()), e).outcome
      ensures bus.subscribers == old(bus.subscribers) && bus.joined == old(bus.joined)
      ensures bus.published == old(bus.published) + FsmModel.Apply(old(Model()), e).events
      ensures forall i | 0 <= i < |bus.subscribers| ::
                if FsmModel.Apply(old(Model()), e).events == [] then unchanged(bus.subscribers[i])
                else Offered(bus.subscribers[i], FsmModel.Apply(old(Model()), e).events[0])
    {
      if e.data.Malformed? {
        return EnvelopeError;
      }
      if e.data.idem != "" {
        if e.data.idem in idem {
          return Nil;
        }
        idem := idem[e.data.idem := e.index];
      }
      var ev;
      out, ev := Run(e.data.cmd);
      if ev.Some? {
        bus.Publish(ev.value);
      }
    }

    /** The part of Apply that changes the maps, with the event it has to publish. */
    method Run(c: Command) returns (out: Outcome, ev: Option<Event>)
      requires Valid()
      modifies this, servers.Repr
      ensures Valid() && fresh(Repr - old(Repr)) && old(Repr) <= Repr
      ensures Model() == Execute(old(Model()), c).state && out == Execute(old(Model()), c).outcome
      ensures Execute(old(Model()), c).events == if ev.Some? then [ev.value] else []
    {
      hide Execute;
      out, ev := Nil, None;
      if WritesNodes(c) {
        ev := RunNode(c);
      } else if WritesServers(c) {
        ev := RunServer(c);
      } else if WritesCatalog(c) {
        ev := RunCatalog(c);
      } else if WritesAccess(c) {
        ev := RunAccess(c);
      } else {
        out := if c.BadPayload? then PayloadError else UnknownTypeError;
        FailuresChangeNothing(Model());
      }
    }

    method RunNode(c: Command) returns (ev: Option<Event>)
      requires WritesNodes(c)
      modifies `nodes
      ensures Model() == Execute(old(Model()), c).state && Execute(old(Model()), c).outcome == Nil
      ensures Execute(old(Model()), c).events == if ev.Some? then [ev.value] else []
    {
      match c {
        case NodeUpsert(n) =>
          nodes := nodes[n.id := n];
          ev := Some(NodeWritten(n, false));
        case Heartbeat(n) =>
          nodes := nodes[n.id := n];
          ev := Some(NodeWritten(n, true));
        case NodeRemove(id) =>
          nodes := nodes - {id};
          ev := Some(NodeRemoved(id));
      }
    }

    /** Groups and templates. */
    method RunCatalog(c: Command) returns (ev: Option<Event>)
      requires WritesCatalog(c)
      modifies `groups, `templates
      ensures Model() == Execute(old(Model()), c).state && Execute(old(Model()), c).outcome == Nil
      ensures Execute(old(Model()), c).events == if ev.Some? then [ev.value] else []
    {
      match c {
        case GroupUpsert(g) =>
          groups := groups[g.id := g];
          ev := Some(GroupUpserted(g));
        case GroupRemove(id) =>
          groups := groups - {id};
          ev := Some(GroupRemoved(id));
        case TemplateUpsert(t) =>
          templates := templates[t.id := t];
          ev := Some(TemplateUpserted(t));
        case TemplateRemove(id) =>
          templates := templates - {id};
          ev := Some(TemplateRemoved(id));
      }
    }

    /** Databases and tokens. */
    method RunAccess(c: Command) returns (ev: Option<Event>)
      requires WritesAccess(c)
      modifies `databases, `tokens
      ensures Model() == Execute(old(Model()), c).state && Execute(old(Model()), c).outcome == Nil
      ensures Execute(old(Model()), c).events == if ev.Some? then [ev.value] else []
    {
      ev := None;
      match c {
        case DatabaseUpsert(d) =>
          databases := databases[d.id := d];
          ev := Some(DatabaseUpserted(d));
        case DatabaseRemove(id) =>
          databases := databases - {id};
          ev := Some(DatabaseRemoved(id));
        case TokenUpsert(t) => tokens := tokens[t.id := t];
        case TokenRemove(id) => tokens := tokens - {id};
      }
    }

    /** The server commands. set_state and set_host assign to the fields of the record that
        is already in the map. */
    method RunServer(c: Command) returns (ev: Option<Event>)
      requires Valid() && WritesServers(c)
      modifies `Repr, servers.Repr
      ensures Valid() && fresh(Repr - old(Repr)) && old(Repr) <= Repr
      ensures Model() == Execute(old(Model()), c).state && Execute(old(Model()), c).outcome == Nil
      ensures Execute(old(Model()), c).events == if ev.Some? then [ev.value] else []
    {
      ev := None;
      match c {
        case ServerUpsert(v) =>
          servers.Put(v.spec.id, v);
          Repr := Repr + servers.Repr;
          ev := Some(ServerUpserted(v));
        case ServerRemove(id) =>
          servers.Delete(id);
          ev := Some(ServerRemoved(id));
        case ServerSetState(id, st) =>
          var srv := servers.Get(id);
          if srv.Some? {
            var v := srv.value.(state := st);
            servers.Overwrite(id, v);
            ev := Some(ServerStateSet(v));
          }
        case ServerSetHost(id, nodeId, containerId, hostPort) =>
          var srv := servers.Get(id);
          if srv.Some? {
            var v := srv.value.(nodeId := nodeId, containerId := containerId, hostPort := hostPort);
            servers.Overwrite(id, v);
            ev := Some(ServerHostSet(v));
          }
      }
    }

    /** Snapshot copies every record that is ever written in place. */
    method TakeSnapshot() returns (snap: Snapshot)
      requires Valid()
      ensures snap.Valid() && fresh(snap) && fresh(snap.servers.Repr)
      ensures snap.Model() == Model()
    {
      var ss := servers.Copy();
      snap := new Snapshot(nodes, ss, groups, templates, databases, tokens, idem);
    }

    /** Restore replaces everything by a decoded document, or nothing if it does not decode.
        It publishes no event and keeps the subscribers. */
    method Restore(doc: Option<State>) returns (ok: bool)
      requires Valid()
      modifies this
      ensures Valid() && fresh(Repr - old(Repr))
      ensures ok == doc.Some?
      ensures Model() == if ok then doc.value else old(Model())
    {
      if doc.None? {
        return false;
      }
      var s := doc.value;
      var ss := Decode(s.servers);
      nodes, servers, groups := s.nodes, ss, s.groups;
      templates, databases, tokens, idem := s.templates, s.databases, s.tokens, s.idem;
      Repr := Repr + ss.Repr;
      return true;
    }

    method Subscribe(buf: nat) returns (ch: Channel)
      requires Valid()
      modifies `Repr, bus
      ensures Valid() && fresh(ch) && Repr == old(Repr) + {ch}
      ensures Model() == old(Model())
      ensures bus.subscribers == old(bus.subscribers) + [ch]
      ensures bus.joined == old(bus.joined) + [|bus.published|] && bus.published == old(bus.published)
      ensures ch.capacity == buf && ch.buffer == [] && ch.consumed == [] && ch.offered == [] && ch.drops == 0
    {
      ch := bus.Subscribe(buf);
      Repr := Repr + {ch};
    }

    // ---- read accessors: copies of the records -------------------------------

    method GetNode(id: string) returns (r: Option<Node>)
      ensures r == if id in Model().nodes then Some(Model().nodes[id]) else None
    {
      return if id in nodes then Some(nodes[id]) else None;
    }

    method GetServer(id: string) returns (r: Option<Server>)
      requires Valid()
      ensures r == if id in Model().servers then Some(Model().servers[id]) else None
    {
      r := servers.Get(id);
    }

    method GetTemplate(id: string) returns (r: Option<Template>)
      ensures r == if id in Model().templates then Some(Model().templates[id]) else None
    {
      return if id in templates then Some(templates[id]) else None;
    }

    method Nodes() returns (out: seq<Node>, ghost keys: seq<string>)
      ensures Lists(out, Model().nodes, keys)
    {
      out, keys := Range(nodes);
    }

    method Servers() returns (out: seq<Server>, ghost keys: seq<string>)
      requires Valid()
      ensures Lists(out, Model().servers, keys)
    {
      out, keys := servers.List();
    }

    method Groups() returns (out: seq<Group>, ghost keys: seq<string>)
      ensures Lists(out, Model().groups, keys)
    {
      out, keys := Range(groups);
    }

    method ServersOnNode(nodeId: string) returns (out: seq<Server>, ghost keys: seq<string>)
      requires Valid()
      ensures Lists(out, OnNode(Model().servers, nodeId), keys)
    {
      var all, order := servers.List();
      out, keys := [], [];
      for i := 0 to |all|
        invariant Lists(all, servers.m, order)
        invariant |out| == |keys|
        invariant forall k :: k in keys <==> k in order[..i] && servers.m[k].nodeId == nodeId
        invariant forall j | 0 <= j < |keys| :: keys[j] in servers.m && out[j] == servers.m[keys[j]]
        invariant forall j, l | 0 <= j < l < |keys| :: keys[j] != keys[l]
      {
        assert order[..i + 1] == order[..i] + [order[i]];
        if all[i].nodeId == nodeId {
          assert order[i] !in keys;
          out := out + [all[i]];
          keys := keys + [order[i]];
        }
      }
      assert order[..|all|] == order;
    }
  }

  ghost function OnNode(servers: map<string, Server>, nodeId: string): (r: map<string, Server>) {
    map k | k in servers && servers[k].nodeId == nodeId :: servers[k]
  }
}
