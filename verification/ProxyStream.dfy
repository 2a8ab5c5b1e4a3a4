/** The server stream a proxy subscribes to: the ready servers first, then one message per
    upsert taken from the event queue (daemon/internal/api/grpc.go, Subscribe). */
module ProxyStream {
  import opened Types
  import opened FsmModel
  import opened LogTheorems
  import opened EventBus
  import opened Tables
  import opened RaftFsm
  import opened Replication
  import opened Selection

  const QUEUE_CAPACITY := 100

  datatype MessageKind = Starting | Ready | Stopping | Stopped | Crashed

  datatype Message = Message(
    serverId: string, serverName: string, hostIp: string, hostPort: uint32, groupId: string,
    kind: MessageKind, maxPlayers: uint32, currentPlayers: uint32)

  function Describe(v: Server, kind: MessageKind): (r: Message) {
    Message(v.spec.id, v.spec.name, v.nodeId, v.hostPort, v.spec.groupId, kind, v.maxPlayers, v.playerCount)
  }

  /** An orphaned server has no message kind. */
  function KindOf(st: ServerState): (r: Option<MessageKind>) {
    match st
    case ServerStarting => Some(Starting)
    case ServerReady => Some(Ready)
    case ServerStopping => Some(Stopping)
    case ServerStopped => Some(Stopped)
    case ServerCrashed => Some(Crashed)
    case ServerOrphaned => None
  }

  /** Only upserts are forwarded. */
  function Translate(ev: Event): (r: seq<Message>) {
    match ev
    case ServerUpserted(v) =>
      (match KindOf(v.state) case Some(k) => [Describe(v, k)] case None => [])
    case _ => []
  }

  /** A message about a server, field by field. */
  ghost predicate Tells(m: Message, v: Server, kind: MessageKind) {
    && m.serverId == v.spec.id && m.serverName == v.spec.name && m.groupId == v.spec.groupId
    && m.hostIp == v.nodeId && m.hostPort == v.hostPort && m.kind == kind
    && m.maxPlayers == v.maxPlayers && m.currentPlayers == v.playerCount
  }

  /** An upsert is forwarded as one message that says what the state says, or, orphaned, as none;
      nothing else is forwarded. */
  lemma MessageExactly(ev: Event)
    ensures !ev.ServerUpserted? ==> Translate(ev) == []
    ensures ev.ServerUpserted? ==>
              var v, ms := ev.server, Translate(ev);
              && (v.state == ServerOrphaned ==> ms == [])
              && (v.state != ServerOrphaned ==> |ms| == 1)
              && (v.state == ServerStarting ==> Tells(ms[0], v, Starting))
              && (v.state == ServerReady ==> Tells(ms[0], v, Ready))
              && (v.state == ServerStopping ==> Tells(ms[0], v, Stopping))
              && (v.state == ServerStopped ==> Tells(ms[0], v, Stopped))
              && (v.state == ServerCrashed ==> Tells(ms[0], v, Crashed))
  {
  }

  function TranslateAll(evs: seq<Event>): (r: seq<Message>) {
    if evs == [] then [] else Translate(evs[0]) + TranslateAll(evs[1..])
  }

  function Initial(list: seq<Server>): (r: seq<Message>) {
    if list == [] then []
    else (if list[0].state == ServerReady then [Describe(list[0], Ready)] else []) + Initial(list[1..])
  }

  /** The last thing the proxy was told about a server. */
  function LastFor(sent: seq<Message>, id: string): (r: Option<Message>) {
    if sent == [] then None
    else
      var later := LastFor(sent[1..], id);
      if later.Some? then later
      else if sent[0].serverId == id then Some(sent[0])
      else None
  }

  lemma {:induction false} LastForConcat(a: seq<Message>, b: seq<Message>, id: string)
    ensures LastFor(a + b, id) == if LastFor(b, id).Some? then LastFor(b, id) else LastFor(a, id)
    decreases a
  {
    if a == [] {
      assert a + b == b;
    } else {
      assert (a + b)[0] == a[0] && (a + b)[1..] == a[1..] + b;
      LastForConcat(a[1..], b, id);
    }
  }

  lemma {:induction false} TranslateConcat(a: seq<Event>, b: seq<Event>)
    ensures TranslateAll(a + b) == TranslateAll(a) + TranslateAll(b)
    decreases a
  {
    if a == [] {
      assert a + b == b;
    } else {
      assert (a + b)[0] == a[0] && (a + b)[1..] == a[1..] + b;
      TranslateConcat(a[1..], b);
    }
  }

  /** No set_state or set_host for this server. */
  ghost predicate OnlyUpserts(log: seq<LogEntry>, id: string) {
    forall e | e in log && e.data.Envelope? ::
      && (e.data.cmd.ServerSetState? ==> e.data.cmd.id != id)
      && (e.data.cmd.ServerSetHost? ==> e.data.cmd.id != id)
  }

  ghost predicate NoInPlaceEvents(evs: seq<Event>, id: string) {
    forall ev | ev in evs && (ev.ServerStateSet? || ev.ServerHostSet?) :: ev.server.spec.id != id
  }

  lemma {:induction false} OneCommandInPlace(s: State, c: Command, id: string)
    requires KeysMatch(s)
    requires (c.ServerSetState? ==> c.id != id) && (c.ServerSetHost? ==> c.id != id)
    ensures NoInPlaceEvents(Execute(s, c).events, id)
  {
    match c
    case ServerSetState(_, _) =>
    case ServerSetHost(_, _, _, _) =>
    case _ =>
  }

  lemma OneEntryInPlace(s: State, e: LogEntry, id: string)
    requires KeysMatch(s) && OnlyUpserts([e], id)
    ensures NoInPlaceEvents(FsmModel.Apply(s, e).events, id)
  {
    assert e in [e];
    if e.data.Envelope? {
      OneCommandInPlace(s, e.data.cmd, id);
      OneCommandInPlace(s.(idem := s.idem[e.data.idem := e.index]), e.data.cmd, id);
    }
  }

  lemma {:induction false} OnlyUpsertEvents(s: State, log: seq<LogEntry>, id: string)
    requires KeysMatch(s) && OnlyUpserts(log, id)
    ensures NoInPlaceEvents(EventsOf(s, log), id)
    decreases log
  {
    if log != [] {
      ApplyKeepsKeysMatch(s, log[0]);
      OneEntryInPlace(s, log[0], id);
      OnlyUpsertEvents(FsmModel.Apply(s, log[0]).state, log[1..], id);
    }
  }

  /** If the writes in `evs` leave the server ready then the last message about it says so,
      or there was no message at all and nothing in `evs` touched it. */
  lemma {:induction false} LastMessageIsCurrent(evs: seq<Event>, x: Option<Server>, id: string)
    requires NoInPlaceEvents(evs, id)
    requires x.Some? ==> x.value.spec.id == id
    ensures var w := LastWrite(x, Writes(ServerWrite, evs), id);
            w.Some? && w.value.state == ServerReady ==>
              || LastFor(TranslateAll(evs), id) == Some(Describe(w.value, Ready))
              || (LastFor(TranslateAll(evs), id) == None && w == x)
    decreases evs
  {
    if evs != [] {
      var first, rest := ServerWrite(evs[0]), Writes(ServerWrite, evs[1..]);
      var x' := LastWrite(x, first, id);
      LastWriteConcat(x, first, rest, id);
      assert evs[0] in evs;
      if first != [] {
        assert first[1..] == [];
        assert x' == if first[0].key == id then Left(first[0]) else x;
      }
      LastMessageIsCurrent(evs[1..], x', id);
      LastForConcat(Translate(evs[0]), TranslateAll(evs[1..]), id);
      LastForOne(evs[0], id);
    }
  }

  lemma LastForOne(ev: Event, id: string)
    ensures LastFor(Translate(ev), id) ==
            if ev.ServerUpserted? && ev.server.spec.id == id && KindOf(ev.server.state).Some?
            then Some(Describe(ev.server, KindOf(ev.server.state).value)) else None
  {
    if Translate(ev) != [] {
      assert Translate(ev)[1..] == [];
    }
  }

  function ReadyMarks(list: seq<Server>): (r: seq<bool>) {
    seq(|list|, k requires 0 <= k < |list| => list[k].state == ServerReady)
  }

  lemma ReadyMessagesTell(list: seq<Server>)
    ensures forall k | 0 <= k < |list| :: Tells(ReadyMessages(list)[k], list[k], Ready)
  {
  }

  function ReadyMessages(list: seq<Server>): (r: seq<Message>) {
    seq(|list|, k requires 0 <= k < |list| => Describe(list[k], Ready))
  }

  /** The start-up list tells of exactly the ready servers, in the order they were listed. */
  lemma {:induction false} InitialExactly(list: seq<Server>) returns (at: seq<nat>)
    ensures Selects(Initial(list), ReadyMessages(list), at, ReadyMarks(list))
    ensures forall k | 0 <= k < |list| :: Tells(ReadyMessages(list)[k], list[k], Ready)
    decreases list
  {
    at := [];
    if list != [] {
      hide Selects, Cons, Tells;
      var rest := InitialExactly(list[1..]);
      var ready := list[0].state == ServerReady;
      at := Cons(ready, rest);
      ReadyMessagesTell(list);
      assert Initial(list) == (if ready then [Describe(list[0], Ready)] else []) + Initial(list[1..]);
      hide Initial, Describe;
      ConsSelects(ready, Describe(list[0], Ready), Initial(list[1..]), ReadyMessages(list[1..]), rest,
                  ReadyMarks(list[1..]));
      assert ReadyMarks(list) == [ready] + ReadyMarks(list[1..]);
      assert ReadyMessages(list) == [Describe(list[0], Ready)] + ReadyMessages(list[1..]);
    }
  }

  lemma {:induction false} InitialHasEveryReady(list: seq<Server>, i: nat)
    requires i < |list| && list[i].state == ServerReady
    requires forall j, k | 0 <= j < k < |list| :: list[j].spec.id != list[k].spec.id
    ensures LastFor(Initial(list), list[i].spec.id) == Some(Describe(list[i], Ready))
    decreases list
  {
    var id := list[i].spec.id;
    var head := if list[0].state == ServerReady then [Describe(list[0], Ready)] else [];
    LastForConcat(head, Initial(list[1..]), id);
    if i == 0 {
      NotInInitial(list[1..], id);
      assert head[1..] == [];
    } else {
      InitialHasEveryReady(list[1..], i - 1);
    }
  }

  lemma {:induction false} NotInInitial(list: seq<Server>, id: string)
    requires forall v | v in list :: v.spec.id != id
    ensures LastFor(Initial(list), id) == None
    decreases list
  {
    if list != [] {
      var head := if list[0].state == ServerReady then [Describe(list[0], Ready)] else [];
      LastForConcat(head, Initial(list[1..]), id);
      NotInInitial(list[1..], id);
      if head != [] {
        assert head[1..] == [];
      }
    }
  }

  /** If the server is ready now, the last the proxy was told is that, and with its current node
      and port. */
  ghost predicate UpToDate(sent: seq<Message>, s: State, id: string) {
    id in s.servers && s.servers[id].state == ServerReady ==>
      LastFor(sent, id) == Some(Describe(s.servers[id], Ready))
  }

  /** The proxy subscribes in state `s`, lists the servers after `before` has been applied,
      and has taken every event of `before` and `after` from its queue. What it was last told
      about any server that is ready now, and was only ever upserted or removed meanwhile, is
      that it is ready, with its current node and port. */
  lemma ProxyConverges(
    s: State, before: seq<LogEntry>, after: seq<LogEntry>, list: seq<Server>, keys: seq<string>, id: string)
    requires KeysMatch(s)
    requires Lists(list, ApplyAll(s, before).servers, keys)
    requires OnlyUpserts(before + after, id)
    ensures UpToDate(Initial(list) + TranslateAll(EventsOf(s, before + after)), ApplyAll(s, before + after), id)
  {
    var listed, now := ApplyAll(s, before).servers, ApplyAll(s, before + after).servers;
    var evs := EventsOf(s, before + after);
    assert (before + after)[..|before|] == before;
    MirrorFrom(s, before + after, |before|);
    WriteAllIsLastWrite(listed, Writes(ServerWrite, evs), id);
    assert Lookup(now, id) == LastWrite(Lookup(listed, id), Writes(ServerWrite, evs), id);
    OnlyUpsertEvents(s, before + after, id);
    ApplyAllKeepsKeysMatch(s, before);
    LastMessageIsCurrent(evs, Lookup(listed, id), id);
    LastForConcat(Initial(list), TranslateAll(evs), id);
    if id in now && now[id].state == ServerReady && LastFor(TranslateAll(evs), id).None? {
      var i :| 0 <= i < |keys| && keys[i] == id;
      assert forall j | 0 <= j < |list| :: list[j].spec.id == keys[j];
      InitialHasEveryReady(list, i);
    }
  }

  /** A ready server changes its node or port by set_host, or set_state makes a server ready
      that the proxy was last told something else about. */
  ghost predicate LeavesBehind(sent: seq<Message>, s: State, c: Command, id: string) {
    id in s.servers
    && var v := s.servers[id];
       match c
       case ServerSetHost(k, nodeId, _, hostPort) =>
         k == id && v.state == ServerReady && (nodeId != v.nodeId || hostPort != v.hostPort)
       case ServerSetState(k, st) =>
         k == id && v.state != ServerReady && st == ServerReady && LastFor(sent, id) != Some(Describe(v, Ready))
       case _ => false
  }

  /** What breaks it: an up-to-date proxy is left behind by exactly those commands. */
  lemma {:induction false} LeftBehindExactly(sent: seq<Message>, s: State, c: Command, id: string)
    requires UpToDate(sent, s, id)
    ensures UpToDate(sent + TranslateAll(Execute(s, c).events), Execute(s, c).state, id) <==>
              !LeavesBehind(sent, s, c, id)
  {
    if c.ServerUpsert? {
      UpsertIsTold(sent, s, c.server, id);
    } else if c.ServerRemove? {
      SilentStep(sent, s, c);
    } else if WritesServers(c) {
      SilentStep(sent, s, c);
      InPlaceStep(sent, s, c, id);
      hide UpToDate, LeavesBehind, Execute;
    } else {
      NotAboutServers(s, c);
      assert sent + [] == sent;
      hide Execute, TranslateAll;
    }
  }

  lemma InPlaceStep(sent: seq<Message>, s: State, c: Command, id: string)
    requires UpToDate(sent, s, id) && (c.ServerSetState? || c.ServerSetHost?)
    ensures UpToDate(sent, Execute(s, c).state, id) <==> !LeavesBehind(sent, s, c, id)
  {
    hide LastFor;
  }

  predicate ToldReady(sent: seq<Message>, id: string) {
    LastFor(sent, id).Some? && LastFor(sent, id).value.kind == Ready
  }

  /** The other direction: what the proxy believes to be ready is ready. */
  ghost predicate Truthful(sent: seq<Message>, s: State, id: string) {
    ToldReady(sent, id) ==> id in s.servers && s.servers[id].state == ServerReady
  }

  /** A server the proxy believes to be ready is removed, orphaned, or set to another state. */
  ghost predicate Misleads(sent: seq<Message>, c: Command, id: string) {
    ToldReady(sent, id)
    && match c
       case ServerRemove(k) => k == id
       case ServerUpsert(v) => v.spec.id == id && v.state == ServerOrphaned
       case ServerSetState(k, st) => k == id && st != ServerReady
       case _ => false
  }

  /** A truthful stream is made untrue by exactly those commands. */
  lemma {:induction false} MisledExactly(sent: seq<Message>, s: State, c: Command, id: string)
    requires Truthful(sent, s, id)
    ensures Truthful(sent + TranslateAll(Execute(s, c).events), Execute(s, c).state, id) <==> !Misleads(sent, c, id)
  {
    if c.ServerUpsert? {
      UpsertMisleads(sent, s, c.server, id);
    } else if WritesServers(c) {
      SilentStep(sent, s, c);
      hide LastFor, TranslateAll;
    } else {
      NotAboutServers(s, c);
      assert sent + [] == sent;
      hide Execute, TranslateAll;
    }
  }

  lemma UpsertMisleads(sent: seq<Message>, s: State, v: Server, id: string)
    requires Truthful(sent, s, id)
    ensures var r := Execute(s, ServerUpsert(v));
            Truthful(sent + TranslateAll(r.events), r.state, id) <==> !Misleads(sent, ServerUpsert(v), id)
  {
    var ev := ServerUpserted(v);
    var evs := Execute(s, ServerUpsert(v)).events;
    assert evs == [ev] && evs[1..] == [];
    assert TranslateAll(evs) == Translate(ev) + [] == Translate(ev);
    LastForConcat(sent, Translate(ev), id);
    LastForOne(ev, id);
    hide LastFor, TranslateAll;
  }

  lemma UpsertIsTold(sent: seq<Message>, s: State, v: Server, id: string)
    requires UpToDate(sent, s, id)
    ensures var r := Execute(s, ServerUpsert(v));
            UpToDate(sent + TranslateAll(r.events), r.state, id)
  {
    var ev := ServerUpserted(v);
    var evs := Execute(s, ServerUpsert(v)).events;
    assert evs == [ev] && evs[1..] == [];
    assert TranslateAll(evs) == Translate(ev) + [] == Translate(ev);
    LastForConcat(sent, Translate(ev), id);
    LastForOne(ev, id);
  }

  lemma SilentStep(sent: seq<Message>, s: State, c: Command)
    requires c.ServerRemove? || c.ServerSetState? || c.ServerSetHost?
    ensures sent + TranslateAll(Execute(s, c).events) == sent
  {
    SilentChanges(s, c);
  }

  lemma {:induction false} NotAboutServers(s: State, c: Command)
    requires !WritesServers(c)
    ensures Execute(s, c).state.servers == s.servers && TranslateAll(Execute(s, c).events) == []
  {
    var evs := Execute(s, c).events;
    if evs != [] {
      assert evs[1..] == [];
    }
  }

  /** The proxy hears nothing of removals, in-place changes and orphanings, so it goes on
      believing what it was told before. */
  lemma {:induction false} SilentChanges(s: State, c: Command)
    requires c.ServerRemove? || c.ServerSetState? || c.ServerSetHost?
          || (c.ServerUpsert? && c.server.state == ServerOrphaned)
    ensures TranslateAll(Execute(s, c).events) == []
  {
    var evs := Execute(s, c).events;
    if evs != [] {
      assert evs[1..] == [];
    }
  }

  // ---- the handler ----------------------------------------------------------

  method SendInitial(f: Fsm) returns (sent: seq<Message>, ghost list: seq<Server>, ghost keys: seq<string>)
    requires f.Valid()
    ensures Lists(list, f.Model().servers, keys)
    ensures sent == Initial(list)
  {
    var servers;
    servers, keys := f.Servers();
    list := servers;
    sent := SendReady(servers);
  }

  method SendReady(servers: seq<Server>) returns (sent: seq<Message>)
    ensures sent == Initial(servers)
  {
    sent := [];
    for i := 0 to |servers|
      invariant sent + Initial(servers[i..]) == Initial(servers)
    {
      ghost var was, rest := sent, Initial(servers[i + 1..]);
      assert servers[i..][1..] == servers[i + 1..];
      if servers[i].state == ServerReady {
        sent := sent + [Describe(servers[i], Ready)];
        assert sent + rest == was + ([Describe(servers[i], Ready)] + rest);
      }
    }
  }

  /** What the loop does with one event. */
  method ForwardOne(ev: Event, sent: seq<Message>) returns (out: seq<Message>)
    ensures out == sent + Translate(ev)
  {
    out := sent;
    if ev.ServerUpserted? {
      var kind := KindOf(ev.server.state);
      if kind.Some? {
        out := out + [Describe(ev.server, kind.value)];
      }
    }
  }

  /** The receive loop, until the queue is empty. */
  method Forward(ch: Channel, sent: seq<Message>) returns (out: seq<Message>)
    requires ch.Valid()
    modifies ch
    ensures ch.Valid() && ch.buffer == []
    ensures out == sent + TranslateAll(old(ch.buffer))
  {
    hide EventBus.Sound, Translate;
    out := sent;
    while ch.buffer != []
      invariant ch.Valid()
      invariant out + TranslateAll(ch.buffer) == sent + TranslateAll(old(ch.buffer))
      decreases |ch.buffer|
    {
      ghost var b, was := ch.buffer, out;
      var ev := ch.Receive();
      assert b[0] == ev && b[1..] == ch.buffer;
      out := ForwardOne(ev, out);
      assert was + (Translate(ev) + TranslateAll(ch.buffer)) == out + TranslateAll(ch.buffer);
    }
  }

  lemma TranslateNothing()
    ensures TranslateAll([]) == []
  {
  }

  /** The stream over a run: subscribe, list after `before`, then forward while further entries
      are applied, in turns as they come, until the queue is empty. It has sent the ready
      servers of the list and then exactly what came through its queue; and it has converged if
      the queue was never full at a publication. */
  method Subscribe(f: Fsm, before: seq<LogEntry>, turns: seq<Turn>)
    returns (sent: seq<Message>, ghost list: seq<Server>, ghost keys: seq<string>)
    requires f.Valid() && KeysMatch(f.Model())
    modifies f.Repr
    ensures f.Model() == ApplyAll(old(f.Model()), before + Entries(turns))
    ensures Lists(list, ApplyAll(old(f.Model()), before).servers, keys)
    ensures var steps := QueueSteps(old(f.Model()), before, turns);
            sent == Initial(list) + TranslateAll(Seen(100, steps))
    ensures !Overflows(New(100), QueueSteps(old(f.Model()), before, turns)) ==>
              forall id | OnlyUpserts(before + Entries(turns), id) :: UpToDate(sent, f.Model(), id)
  {
    hide FsmModel.Apply, FsmModel.KeysMatch, EventBus.Sound, FsmModel.ApplyAll, FsmModel.EventsOf;
    hide EventBus.RunOne, EventBus.Overflows, Replication.TurnSteps, Tables.Lists;
    TranslateNothing();
    hide UpToDate, OnlyUpserts, TranslateAll, Initial, Translate;
    ghost var s := f.Model();
    var ch := SubscribeThenRun(f, QUEUE_CAPACITY, before);
    sent, list, keys := SendInitial(f);
    NothingReceived(QUEUE_CAPACITY, EventsOf(s, before));
    assert before + Entries(turns[..0]) == before;
    assert QueueSteps(s, before, turns[..0]) == Publications(EventsOf(s, before));
    hide Replication.Entries, Replication.QueueSteps, EventBus.Publications;
    for i := 0 to |turns|
      invariant f.Valid() && fresh(f.Repr - old(f.Repr)) && old(f.Repr) <= f.Repr
      invariant ch in f.bus.subscribers && ch in f.bus.Repr && fresh(ch) && ch.Valid()
      invariant f.Model() == ApplyAll(s, before + Entries(turns[..i]))
      invariant ch.View() == RunOne(New(QUEUE_CAPACITY), QueueSteps(s, before, turns[..i]))
      invariant sent == Initial(list) + TranslateAll(ch.consumed)
    {
      OneMoreTurn(s, before, turns, i, New(QUEUE_CAPACITY));
      sent := StreamTurn(f, ch, turns[i], Initial(list), sent);
    }
    assert turns[..|turns|] == turns;
    ghost var was, rest := ch.consumed, ch.buffer;
    TranslateConcat(was, rest);
    sent := Forward(ch, sent);
    assert sent == Initial(list) + (TranslateAll(was) + TranslateAll(rest));
    if !Overflows(New(QUEUE_CAPACITY), QueueSteps(s, before, turns)) {
      StreamConverges(s, before, turns, list, keys);
    }
  }

  /** What is sent over a run in which the queue is never full at a publication. */
  lemma StreamConverges(s: State, before: seq<LogEntry>, turns: seq<Turn>, list: seq<Server>, keys: seq<string>)
    requires KeysMatch(s) && Lists(list, ApplyAll(s, before).servers, keys)
    requires !Overflows(New(QUEUE_CAPACITY), QueueSteps(s, before, turns))
    ensures var sent := Initial(list) + TranslateAll(Seen(QUEUE_CAPACITY, QueueSteps(s, before, turns)));
            forall id | OnlyUpserts(before + Entries(turns), id) ::
              UpToDate(sent, ApplyAll(s, before + Entries(turns)), id)
  {
    hide KeysMatch, Lists, Overflows, QueueSteps, Seen, UpToDate, OnlyUpserts, TranslateAll, Initial;
    SeesAll(QUEUE_CAPACITY, s, before, turns);
    forall id | OnlyUpserts(before + Entries(turns), id)
      ensures UpToDate(Initial(list) + TranslateAll(EventsOf(s, before + Entries(turns))),
                       ApplyAll(s, before + Entries(turns)), id)
    {
      ProxyConverges(s, before, Entries(turns), list, keys, id);
    }
  }

  method StreamTurn(f: Fsm, ch: Channel, turn: Turn, ghost first: seq<Message>, sent: seq<Message>)
    returns (out: seq<Message>)
    requires f.Valid() && ch in f.bus.subscribers && ch in f.bus.Repr && sent == first + TranslateAll(ch.consumed)
    modifies f.Repr
    ensures f.Valid() && fresh(f.Repr - old(f.Repr)) && old(f.Repr) <= f.Repr
    ensures ch in f.bus.subscribers && ch in f.bus.Repr && ch.Valid()
    ensures out == first + TranslateAll(ch.consumed)
    ensures f.Model() == Replication.After(old(f.Model()), turn)
    ensures ch.View() == RunOne(old(ch.View()), TurnSteps(old(f.Model()), turn))
  {
    hide FsmModel.Apply, EventBus.Sound, EventBus.RunOne, Translate;
    out := sent;
    match turn {
      case Commit(e) =>
        OnlyPublished(ch.View(), FsmModel.Apply(f.Model(), e).events);
        CommitOne(f, ch, e);
      case Take =>
        ghost var was := ch.consumed;
        var ev := TakeOne(f, ch);
        if ev.Some? {
          out := ForwardOne(ev.value, sent);
          TranslateConcat(was, [ev.value]);
          assert [ev.value][1..] == [];
          assert TranslateAll([ev.value]) == Translate(ev.value);
        }
    }
  }
}
