/** What one committed log entry does to the replicated state machine, on values
    (daemon/internal/raftfsm/fsm.go, daemon/internal/raftfsm/command.go). The class in
    RaftFsm.dfy, which works on records in the heap, is proved against these functions. */
module FsmModel {
  import opened Types

  datatype State = State(
    nodes: map<string, Node>,
    servers: map<string, Server>,
    groups: map<string, Group>,
    templates: map<string, Template>,
    databases: map<string, Database>,
    tokens: map<string, Token>,
    idem: map<string, int>)

  const EMPTY := State(map[], map[], map[], map[], map[], map[], map[])

  /** A command whose payload has been looked at: the fifteen kinds with a payload that
      decodes, a known kind whose payload does not decode, and an unknown kind. */
  datatype Command =
    | NodeUpsert(node: Node)
    | Heartbeat(node: Node)
    | NodeRemove(id: string)
    | ServerUpsert(server: Server)
    | ServerRemove(id: string)
    | ServerSetState(id: string, state: ServerState)
    | ServerSetHost(id: string, nodeId: string, containerId: string, hostPort: uint32)
    | GroupUpsert(group: Group)
    | GroupRemove(id: string)
    | TemplateUpsert(template: Template)
    | TemplateRemove(id: string)
    | DatabaseUpsert(database: Database)
    | DatabaseRemove(id: string)
    | TokenUpsert(token: Token)
    | TokenRemove(id: string)
    | BadPayload
    | UnknownType

  predicate WritesNodes(c: Command) {
    c.NodeUpsert? || c.Heartbeat? || c.NodeRemove?
  }

  predicate WritesServers(c: Command) {
    c.ServerUpsert? || c.ServerRemove? || c.ServerSetState? || c.ServerSetHost?
  }

  predicate WritesCatalog(c: Command) {
    c.GroupUpsert? || c.GroupRemove? || c.TemplateUpsert? || c.TemplateRemove?
  }

  predicate WritesAccess(c: Command) {
    c.DatabaseUpsert? || c.DatabaseRemove? || c.TokenUpsert? || c.TokenRemove?
  }

  /** The bytes of a log entry: an envelope that decodes, or not. */
  datatype Envelope = Malformed | Envelope(idem: string, cmd: Command)

  datatype LogEntry = LogEntry(index: int, data: Envelope)

  datatype Event =
    | NodeWritten(node: Node, heartbeat: bool)
    | NodeRemoved(id: string)
    | ServerUpserted(server: Server)
    | ServerStateSet(server: Server)
    | ServerHostSet(server: Server)
    | ServerRemoved(id: string)
    | GroupUpserted(group: Group)
    | GroupRemoved(id: string)
    | TemplateUpserted(template: Template)
    | TemplateRemoved(id: string)
    | DatabaseUpserted(database: Database)
    | DatabaseRemoved(id: string)

  /** What Apply returns to Raft: nil, or one of its three errors. */
  datatype Outcome = Nil | EnvelopeError | PayloadError | UnknownTypeError

  datatype Effect = Effect(state: State, outcome: Outcome, events: seq<Event>)

  /** The switch on the command type. At most one event is published, and none by the
      token commands or by a write to a server that is not there. */
  function Execute(s: State, c: Command): (r: Effect) {
    match c
    case NodeUpsert(n) => Effect(s.(nodes := s.nodes[n.id := n]), Nil, [NodeWritten(n, false)])
    case Heartbeat(n) => Effect(s.(nodes := s.nodes[n.id := n]), Nil, [NodeWritten(n, true)])
    case NodeRemove(id) => Effect(s.(nodes := s.nodes - {id}), Nil, [NodeRemoved(id)])
    case ServerUpsert(v) => Effect(s.(servers := s.servers[v.spec.id := v]), Nil, [ServerUpserted(v)])
    case ServerRemove(id) => Effect(s.(servers := s.servers - {id}), Nil, [ServerRemoved(id)])
    case ServerSetState(id, st) =>
      if id in s.servers then
        var v := s.servers[id].(state := st);
        Effect(s.(servers := s.servers[id := v]), Nil, [ServerStateSet(v)])
      else
        Effect(s, Nil, [])
    case ServerSetHost(id, nodeId, containerId, hostPort) =>
      if id in s.servers then
        var v := s.servers[id].(nodeId := nodeId, containerId := containerId, hostPort := hostPort);
        Effect(s.(servers := s.servers[id := v]), Nil, [ServerHostSet(v)])
      else
        Effect(s, Nil, [])
    case GroupUpsert(g) => Effect(s.(groups := s.groups[g.id := g]), Nil, [GroupUpserted(g)])
    case GroupRemove(id) => Effect(s.(groups := s.groups - {id}), Nil, [GroupRemoved(id)])
    case TemplateUpsert(t) => Effect(s.(templates := s.templates[t.id := t]), Nil, [TemplateUpserted(t)])
    case TemplateRemove(id) => Effect(s.(templates := s.templates - {id}), Nil, [TemplateRemoved(id)])
    case DatabaseUpsert(d) => Effect(s.(databases := s.databases[d.id := d]), Nil, [DatabaseUpserted(d)])
    case DatabaseRemove(id) => Effect(s.(databases := s.databases - {id}), Nil, [DatabaseRemoved(id)])
    case TokenUpsert(t) => Effect(s.(tokens := s.tokens[t.id := t]), Nil, [])
    case TokenRemove(id) => Effect(s.(tokens := s.tokens - {id}), Nil, [])
    case BadPayload => Effect(s, PayloadError, [])
    case UnknownType => Effect(s, UnknownTypeError, [])
  }

  lemma FailuresChangeNothing(s: State)
    ensures Execute(s, BadPayload) == Effect(s, PayloadError, [])
    ensures Execute(s, UnknownType) == Effect(s, UnknownTypeError, [])
  {
  }

  /** `k` holds `v`, and every other key what it held. */
  ghost predicate Puts<V(!new)>(m: map<string, V>, m': map<string, V>, k: string, v: V) {
    && k in m' && m'[k] == v
    && forall j | j != k :: (j in m' <==> j in m) && (j in m ==> m'[j] == m[j])
  }

  /** `k` is absent, and every other key holds what it held. */
  ghost predicate Drops<V(!new)>(m: map<string, V>, m': map<string, V>, k: string) {
    && k !in m'
    && forall j | j != k :: (j in m' <==> j in m) && (j in m ==> m'[j] == m[j])
  }

  /** A record of which the state, or the place and address, have been overwritten. */
  ghost predicate SameButState(v: Server, v': Server) {
    && v'.spec == v.spec && v'.nodeId == v.nodeId && v'.playerCount == v.playerCount
    && v'.maxPlayers == v.maxPlayers && v'.startedAt == v.startedAt
    && v'.containerId == v.containerId && v'.hostPort == v.hostPort
  }

  ghost predicate SameButHost(v: Server, v': Server) {
    && v'.spec == v.spec && v'.state == v.state && v'.playerCount == v.playerCount
    && v'.maxPlayers == v.maxPlayers && v'.startedAt == v.startedAt
  }

  /** Nodes and servers, command by command, key by key and field by field, with the event. */
  lemma {:induction false} PlacementCommandsExactly(s: State, c: Command)
    requires WritesNodes(c) || WritesServers(c)
    ensures var r := Execute(s, c);
            && r.outcome == Nil
            && r.state == s.(nodes := r.state.nodes, servers := r.state.servers)
            && (WritesNodes(c) ==> r.state.servers == s.servers)
            && (WritesServers(c) ==> r.state.nodes == s.nodes)
            && (c.NodeUpsert? ==>
                  Puts(s.nodes, r.state.nodes, c.node.id, c.node) && r.events == [NodeWritten(c.node, false)])
            && (c.Heartbeat? ==>
                  Puts(s.nodes, r.state.nodes, c.node.id, c.node) && r.events == [NodeWritten(c.node, true)])
            && (c.NodeRemove? ==> Drops(s.nodes, r.state.nodes, c.id) && r.events == [NodeRemoved(c.id)])
            && (c.ServerUpsert? ==>
                  && Puts(s.servers, r.state.servers, c.server.spec.id, c.server)
                  && r.events == [ServerUpserted(c.server)])
            && (c.ServerRemove? ==> Drops(s.servers, r.state.servers, c.id) && r.events == [ServerRemoved(c.id)])
            && (c.ServerSetState? || c.ServerSetHost? ==>
                  if c.id !in s.servers then r.state.servers == s.servers && r.events == []
                  else
                    && c.id in r.state.servers
                    && var v := r.state.servers[c.id];
                       && Puts(s.servers, r.state.servers, c.id, v)
                       && (c.ServerSetState? ==>
                             && v.state == c.state && SameButState(s.servers[c.id], v)
                             && r.events == [ServerStateSet(v)])
                       && (c.ServerSetHost? ==>
                             && v.nodeId == c.nodeId && v.containerId == c.containerId && v.hostPort == c.hostPort
                             && SameButHost(s.servers[c.id], v) && r.events == [ServerHostSet(v)]))
  {
  }

  /** Groups, templates, databases and tokens likewise; and what does not decode. */
  lemma {:induction false} OtherCommandsExactly(s: State, c: Command)
    requires !WritesNodes(c) && !WritesServers(c)
    ensures var r := Execute(s, c);
            && r.state.nodes == s.nodes && r.state.servers == s.servers && r.state.idem == s.idem
            && (!c.GroupUpsert? && !c.GroupRemove? ==> r.state.groups == s.groups)
            && (!c.TemplateUpsert? && !c.TemplateRemove? ==> r.state.templates == s.templates)
            && (!c.DatabaseUpsert? && !c.DatabaseRemove? ==> r.state.databases == s.databases)
            && (!c.TokenUpsert? && !c.TokenRemove? ==> r.state.tokens == s.tokens)
            && (c.GroupUpsert? ==>
                  Puts(s.groups, r.state.groups, c.group.id, c.group) && r.events == [GroupUpserted(c.group)])
            && (c.GroupRemove? ==> Drops(s.groups, r.state.groups, c.id) && r.events == [GroupRemoved(c.id)])
            && (c.TemplateUpsert? ==>
                  && Puts(s.templates, r.state.templates, c.template.id, c.template)
                  && r.events == [TemplateUpserted(c.template)])
            && (c.TemplateRemove? ==>
                  Drops(s.templates, r.state.templates, c.id) && r.events == [TemplateRemoved(c.id)])
            && (c.DatabaseUpsert? ==>
                  && Puts(s.databases, r.state.databases, c.database.id, c.database)
                  && r.events == [DatabaseUpserted(c.database)])
            && (c.DatabaseRemove? ==>
                  Drops(s.databases, r.state.databases, c.id) && r.events == [DatabaseRemoved(c.id)])
            && (c.TokenUpsert? ==> Puts(s.tokens, r.state.tokens, c.token.id, c.token) && r.events == [])
            && (c.TokenRemove? ==> Drops(s.tokens, r.state.tokens, c.id) && r.events == [])
            && (c.BadPayload? || c.UnknownType? ==> r.events == [])
            && r.outcome == if c.BadPayload? then PayloadError else if c.UnknownType? then UnknownTypeError else Nil
  {
  }

  /** What the Raft layer is told about an entry, and what each way to fail leaves: an envelope
      that does not decode and a duplicate change nothing, and a duplicate counts as done; a
      payload that does not decode and an unknown kind leave only the key behind. */
  lemma OutcomeExactly(s: State, e: LogEntry)
    ensures var r := Apply(s, e);
            var duplicate := e.data.Envelope? && e.data.idem != "" && e.data.idem in s.idem;
            && (r.outcome == EnvelopeError <==> e.data.Malformed?)
            && (r.outcome == PayloadError <==> e.data.Envelope? && !duplicate && e.data.cmd.BadPayload?)
            && (r.outcome == UnknownTypeError <==> e.data.Envelope? && !duplicate && e.data.cmd.UnknownType?)
            && (e.data.Malformed? || duplicate ==> r.state == s && r.events == [])
            && (r.outcome != Nil ==>
                  && r.events == [] && r.state == s.(idem := r.state.idem)
                  && (e.data.Envelope? && e.data.idem != "" ==> e.data.idem in r.state.idem))
  {
    if e.data.Envelope? {
      OneOutcome(s, e.data.cmd);
      OneOutcome(s.(idem := s.idem[e.data.idem := e.index]), e.data.cmd);
      hide Execute;
    }
  }

  lemma {:induction false} OneOutcome(s: State, c: Command)
    ensures var r := Execute(s, c);
            && r.outcome == (if c.BadPayload? then PayloadError else if c.UnknownType? then UnknownTypeError else Nil)
            && (c.BadPayload? || c.UnknownType? ==> r.state == s && r.events == [])
  {
  }

  /** Apply: a key is recorded before the command runs, whether or not the command works. */
  function Apply(s: State, e: LogEntry): (r: Effect) {
    match e.data
    case Malformed => Effect(s, EnvelopeError, [])
    case Envelope(idem, cmd) =>
      if idem == "" then Execute(s, cmd)
      else if idem in s.idem then Effect(s, Nil, [])
      else Execute(s.(idem := s.idem[idem := e.index]), cmd)
  }

  /** No command touches the recorded keys. */
  lemma {:induction false} ExecuteKeepsIdem(s: State, c: Command)
    ensures Execute(s, c).state.idem == s.idem
  {
    match c
    case NodeUpsert(_) =>
    case Heartbeat(_) =>
    case NodeRemove(_) =>
    case ServerUpsert(_) =>
    case ServerRemove(_) =>
    case ServerSetState(_, _) =>
    case ServerSetHost(_, _, _, _) =>
    case GroupUpsert(_) =>
    case GroupRemove(_) =>
    case TemplateUpsert(_) =>
    case TemplateRemove(_) =>
    case DatabaseUpsert(_) =>
    case DatabaseRemove(_) =>
    case TokenUpsert(_) =>
    case TokenRemove(_) =>
    case BadPayload =>
    case UnknownType =>
  }

  function ApplyAll(s: State, log: seq<LogEntry>): (r: State)
    decreases log
  {
    if log == [] then s else ApplyAll(Apply(s, log[0]).state, log[1..])
  }

  /** The events published while a log is applied, in order. */
  function EventsOf(s: State, log: seq<LogEntry>): (r: seq<Event>)
    decreases log
  {
    if log == [] then [] else Apply(s, log[0]).events + EventsOf(Apply(s, log[0]).state, log[1..])
  }

  /** Every record is stored under its own identifier. */
  ghost predicate KeysMatch(s: State) {
    && (forall k | k in s.nodes :: s.nodes[k].id == k)
    && (forall k | k in s.servers :: s.servers[k].spec.id == k)
    && (forall k | k in s.groups :: s.groups[k].id == k)
    && (forall k | k in s.templates :: s.templates[k].id == k)
    && (forall k | k in s.databases :: s.databases[k].id == k)
    && (forall k | k in s.tokens :: s.tokens[k].id == k)
  }

  lemma {:induction false} NodesKeepKeysMatch(s: State, c: Command)
    requires KeysMatch(s) && WritesNodes(c)
    ensures KeysMatch(Execute(s, c).state)
  {
    match c
    case NodeUpsert(_) =>
    case Heartbeat(_) =>
    case NodeRemove(_) =>
  }

  lemma {:induction false} ServersKeepKeysMatch(s: State, c: Command)
    requires KeysMatch(s) && WritesServers(c)
    ensures KeysMatch(Execute(s, c).state)
  {
    var s' := Execute(s, c).state;
    assert s' == s.(servers := s'.servers);
    assert forall k | k in s'.servers :: s'.servers[k].spec.id == k;
    hide Execute;
  }

  lemma {:induction false} ExecuteKeepsKeysMatch(s: State, c: Command)
    requires KeysMatch(s)
    ensures KeysMatch(Execute(s, c).state)
  {
    if WritesNodes(c) {
      hide Execute, KeysMatch;
      NodesKeepKeysMatch(s, c);
    } else if WritesServers(c) {
      hide Execute, KeysMatch;
      ServersKeepKeysMatch(s, c);
    } else {
      match c
      case GroupUpsert(_) =>
      case GroupRemove(_) =>
      case TemplateUpsert(_) =>
      case TemplateRemove(_) =>
      case DatabaseUpsert(_) =>
      case DatabaseRemove(_) =>
      case TokenUpsert(_) =>
      case TokenRemove(_) =>
      case BadPayload =>
      case UnknownType =>
    }
  }

  lemma ApplyKeepsKeysMatch(s: State, e: LogEntry)
    requires KeysMatch(s)
    ensures KeysMatch(Apply(s, e).state)
  {
    hide Execute;
    if e.data.Envelope? {
      var s' := s.(idem := s.idem[e.data.idem := e.index]);
      assert KeysMatch(s');
      ExecuteKeepsKeysMatch(s, e.data.cmd);
      ExecuteKeepsKeysMatch(s', e.data.cmd);
    }
  }

  lemma {:induction false} ApplyAllKeepsKeysMatch(s: State, log: seq<LogEntry>)
    requires KeysMatch(s)
    ensures KeysMatch(ApplyAll(s, log))
    decreases log
  {
    hide Apply, KeysMatch;
    if log != [] {
      ApplyKeepsKeysMatch(s, log[0]);
      ApplyAllKeepsKeysMatch(Apply(s, log[0]).state, log[1..]);
    }
  }

  /** Applying a log in two pieces is applying it whole; so are its events. */
  lemma {:induction false} ApplyAllConcat(s: State, a: seq<LogEntry>, b: seq<LogEntry>)
    ensures ApplyAll(s, a + b) == ApplyAll(ApplyAll(s, a), b)
    ensures EventsOf(s, a + b) == EventsOf(s, a) + EventsOf(ApplyAll(s, a), b)
    decreases a
  {
    hide Apply;
    if a == [] {
      assert a + b == b;
    } else {
      assert (a + b)[0] == a[0] && (a + b)[1..] == a[1..] + b;
      ApplyAllConcat(Apply(s, a[0]).state, a[1..], b);
    }
  }
}
