/** Runs of the heap-based state machine: snapshots that outlive later writes, restored
    nodes that catch up, and followers that mirror the state from its events. */
module Replication {
  import opened Types
  import opened FsmModel
  import opened LogTheorems
  import opened EventBus
  import opened RaftFsm

  /** Applies a log; every subscriber's channel goes through the publications, and nobody
      receives. */
  method ApplyLog(f: Fsm, log: seq<LogEntry>)
    requires f.Valid()
    modifies f.Repr
    ensures f.Valid() && fresh(f.Repr - old(f.Repr)) && old(f.Repr) <= f.Repr
    ensures f.Model() == ApplyAll(old(f.Model()), log)
    ensures f.bus.published == old(f.bus.published) + EventsOf(old(f.Model()), log)
    ensures f.bus.subscribers == old(f.bus.subscribers) && f.bus.joined == old(f.bus.joined)
    ensures forall i | 0 <= i < |f.bus.subscribers| ::
              f.bus.subscribers[i].View()
              == RunOne(old(f.bus.subscribers[i].View()), Publications(EventsOf(old(f.Model()), log)))
    decreases log
  {
    hide FsmModel.Apply, EventBus.Sound;
    if log != [] {
      ghost var s, subs := f.Model(), f.bus.subscribers;
      ghost var first := FsmModel.Apply(s, log[0]).events;
      ghost var rest := EventsOf(FsmModel.Apply(s, log[0]).state, log[1..]);
      ApplyOne(f, log[0]);
      ApplyLog(f, log[1..]);
      forall i | 0 <= i < |subs|
        ensures subs[i].View() == RunOne(old(subs[i].View()), Publications(first + rest))
      {
        PublicationsConcat(first, rest);
        RunOneConcat(old(subs[i].View()), Publications(first), Publications(rest));
      }
    }
  }

  method ApplyOne(f: Fsm, e: LogEntry)
    requires f.Valid()
    modifies f.Repr
    ensures f.Valid() && fresh(f.Repr - old(f.Repr)) && old(f.Repr) <= f.Repr
    ensures f.Model() == FsmModel.Apply(old(f.Model()), e).state
    ensures f.bus.published == old(f.bus.published) + FsmModel.Apply(old(f.Model()), e).events
    ensures f.bus.subscribers == old(f.bus.subscribers) && f.bus.joined == old(f.bus.joined)
    ensures forall i | 0 <= i < |f.bus.subscribers| ::
              f.bus.subscribers[i].View()
              == RunOne(old(f.bus.subscribers[i].View()), Publications(FsmModel.Apply(old(f.Model()), e).events))
  {
    hide FsmModel.Apply, EventBus.Sound;
    ghost var evs, subs := FsmModel.Apply(f.Model(), e).events, f.bus.subscribers;
    EntryPublishesAtMostOne(f.Model(), e);
    var _ := f.Apply(e);
    forall i | 0 <= i < |subs|
      ensures subs[i].View() == RunOne(old(subs[i].View()), Publications(evs))
    {
      if evs != [] {
        OnePublication(old(subs[i].View()), evs[0]);
      }
    }
  }

  lemma EntryPublishesAtMostOne(s: State, e: LogEntry)
    ensures FsmModel.Apply(s, e).events == [] || FsmModel.Apply(s, e).events == [FsmModel.Apply(s, e).events[0]]
  {
    hide Execute;
    if e.data.Envelope? {
      AtMostOneEvent(s, e.data.cmd);
      AtMostOneEvent(s.(idem := s.idem[e.data.idem := e.index]), e.data.cmd);
    }
  }

  lemma OnePublication(q: Queue, ev: Event)
    ensures RunOne(q, Publications([ev])) == Enqueue(q, ev)
  {
    assert [ev][1..] == [];
    assert Publications([ev]) == [Publish(ev)] && [Publish(ev)][1..] == [];
    assert RunOne(Enqueue(q, ev), []) == Enqueue(q, ev);
  }

  /** A snapshot is taken after `prefix`, and is written out only after `rest` has been
      applied too: it still holds the state of its own moment. */
  method SnapshotOutlives(f: Fsm, prefix: seq<LogEntry>, rest: seq<LogEntry>) returns (doc: State)
    requires f.Valid()
    modifies f.Repr
    ensures f.Valid() && fresh(f.Repr - old(f.Repr)) && old(f.Repr) <= f.Repr
    ensures doc == ApplyAll(old(f.Model()), prefix)
    ensures f.Model() == ApplyAll(doc, rest)
  {
    hide FsmModel.Execute;
    ApplyLog(f, prefix);
    var snap := f.TakeSnapshot();
    ApplyLog(f, rest);
    var written := snap.Persist(true);
    doc := written.value;
  }

  /** A new node restored from a document and fed what follows it. */
  method CatchUp(doc: State, rest: seq<LogEntry>) returns (f: Fsm)
    ensures f.Valid() && fresh(f.Repr)
    ensures f.Model() == ApplyAll(doc, rest)
  {
    hide FsmModel.Execute;
    f := new Fsm();
    var _ := f.Restore(Some(doc));
    ApplyLog(f, rest);
  }

  /** Both nodes end in the state of the whole log. */
  method SnapshotRestoreCatchUp(log: seq<LogEntry>, n: nat) returns (leader: Fsm, follower: Fsm)
    requires n <= |log|
    ensures leader.Model() == ApplyAll(EMPTY, log)
    ensures follower.Model() == ApplyAll(EMPTY, log)
  {
    RestoreThenReplay(log, n);
    leader := new Fsm();
    var doc := SnapshotOutlives(leader, log[..n], log[n..]);
    follower := CatchUp(doc, log[n..]);
  }

  /** A follower's own copy of the five published maps. */
  datatype View = View(
    nodes: map<string, Node>, servers: map<string, Server>, groups: map<string, Group>,
    templates: map<string, Template>, databases: map<string, Database>)

  function ViewOf(s: State): (r: View) {
    View(s.nodes, s.servers, s.groups, s.templates, s.databases)
  }

  function ReplayAll(v: View, evs: seq<Event>): (r: View) {
    View(WriteAll(v.nodes, Writes(NodeWrite, evs)),
         WriteAll(v.servers, Writes(ServerWrite, evs)),
         WriteAll(v.groups, Writes(GroupWrite, evs)),
         WriteAll(v.templates, Writes(TemplateWrite, evs)),
         WriteAll(v.databases, Writes(DatabaseWrite, evs)))
  }

  lemma ReplayNothing(v: View)
    ensures ReplayAll(v, []) == v
  {
  }

  lemma ReplayConcat(v: View, a: seq<Event>, b: seq<Event>)
    ensures ReplayAll(v, a + b) == ReplayAll(ReplayAll(v, a), b)
  {
    WritesConcat(NodeWrite, a, b);
    WritesConcat(ServerWrite, a, b);
    WritesConcat(GroupWrite, a, b);
    WritesConcat(TemplateWrite, a, b);
    WritesConcat(DatabaseWrite, a, b);
    WriteAllConcat(v.nodes, Writes(NodeWrite, a), Writes(NodeWrite, b));
    WriteAllConcat(v.servers, Writes(ServerWrite, a), Writes(ServerWrite, b));
    WriteAllConcat(v.groups, Writes(GroupWrite, a), Writes(GroupWrite, b));
    WriteAllConcat(v.templates, Writes(TemplateWrite, a), Writes(TemplateWrite, b));
    WriteAllConcat(v.databases, Writes(DatabaseWrite, a), Writes(DatabaseWrite, b));
  }

  /** Takes everything that is buffered and replays it. */
  method Drain(ch: Channel, start: View) returns (v: View)
    requires ch.Valid()
    modifies ch
    ensures ch.Valid() && ch.buffer == []
    ensures v == ReplayAll(start, old(ch.buffer))
    ensures ch.consumed == old(ch.consumed + ch.buffer)
    ensures ch.offered == old(ch.offered) && ch.drops == old(ch.drops)
    decreases |ch.buffer|
  {
    hide ReplayAll, EventBus.Sound;
    v := start;
    ReplayNothing(start);
    if ch.buffer != [] {
      var ev := ch.Receive();
      ReplayConcat(start, [ev], ch.buffer);
      v := Drain(ch, ReplayAll(v, [ev]));
    }
  }

  /** A subscription, after which some entries are applied. */
  method SubscribeThenRun(f: Fsm, buf: nat, before: seq<LogEntry>) returns (ch: Channel)
    requires f.Valid()
    modifies f.Repr
    ensures f.Valid() && fresh(f.Repr - old(f.Repr)) && old(f.Repr) <= f.Repr
    ensures fresh(ch) && ch in f.bus.subscribers && ch in f.bus.Repr && ch.Valid()
    ensures f.Model() == ApplyAll(old(f.Model()), before)
    ensures ch.View() == RunOne(New(buf), Publications(EventsOf(old(f.Model()), before)))
  {
    hide FsmModel.Execute, FsmModel.Apply, EventBus.Sound;
    ch := f.Subscribe(buf);
    ghost var at := |f.bus.subscribers| - 1;
    ApplyLog(f, before);
    assert f.bus.Follows(at);
  }

  method CopyMaps(f: Fsm) returns (v: View)
    requires f.Valid()
    ensures v == ViewOf(f.Model())
  {
    var ss := f.servers.Values();
    v := View(f.nodes, ss, f.groups, f.templates, f.databases);
  }

  /** What happens while a follower follows: an entry is applied, or the follower receives. */
  datatype Turn = Commit(entry: LogEntry) | Take

  function Entries(turns: seq<Turn>): (r: seq<LogEntry>)
    decreases |turns|
  {
    if turns == [] then []
    else
      var n := |turns| - 1;
      Entries(turns[..n]) + if turns[n].Commit? then [turns[n].entry] else []
  }

  /** What a follower's queue goes through from its subscription in `s` on: the events of
      `before`, then those of the entries and its own receiving, as they alternate. */
  function QueueSteps(s: State, before: seq<LogEntry>, turns: seq<Turn>): (r: seq<BusStep>)
    decreases |turns|
  {
    if turns == [] then Publications(EventsOf(s, before))
    else
      var n := |turns| - 1;
      QueueSteps(s, before, turns[..n]) + TurnSteps(ApplyAll(s, before + Entries(turns[..n])), turns[n])
  }

  function TurnSteps(s: State, turn: Turn): (r: seq<BusStep>) {
    match turn
    case Commit(e) => Publications(FsmModel.Apply(s, e).events)
    case Take => [Receive(0)]
  }

  function After(s: State, turn: Turn): (r: State) {
    match turn
    case Commit(e) => FsmModel.Apply(s, e).state
    case Take => s
  }

  lemma OneMoreTurn(s: State, before: seq<LogEntry>, turns: seq<Turn>, i: nat, q: Queue)
    requires i < |turns|
    ensures var was := ApplyAll(s, before + Entries(turns[..i]));
            && ApplyAll(s, before + Entries(turns[..i + 1])) == After(was, turns[i])
            && RunOne(q, QueueSteps(s, before, turns[..i + 1]))
               == RunOne(RunOne(q, QueueSteps(s, before, turns[..i])), TurnSteps(was, turns[i]))
  {
    hide FsmModel.Apply, EventBus.RunOne, TurnSteps;
    var log := before + Entries(turns[..i]);
    assert turns[..i + 1][..i] == turns[..i];
    if turns[i].Commit? {
      var e := turns[i].entry;
      assert before + Entries(turns[..i + 1]) == log + [e];
      ApplyAllConcat(s, log, [e]);
      assert [e][1..] == [];
    } else {
      assert Entries(turns[..i]) + [] == Entries(turns[..i]);
    }
    RunOneConcat(q, QueueSteps(s, before, turns[..i]), TurnSteps(ApplyAll(s, log), turns[i]));
  }

  /** The queue has been sent the events of the whole run. */
  lemma {:induction false} SentTheRun(s: State, before: seq<LogEntry>, turns: seq<Turn>)
    ensures Published(QueueSteps(s, before, turns)) == EventsOf(s, before + Entries(turns))
    decreases |turns|
  {
    hide FsmModel.Apply, TurnSteps, EventBus.Published, FsmModel.EventsOf, FsmModel.ApplyAll;
    if turns == [] {
      PublishedPublications(EventsOf(s, before));
      assert before + [] == before;
    } else {
      var n := |turns| - 1;
      var log := before + Entries(turns[..n]);
      SentTheRun(s, before, turns[..n]);
      PublishedConcat(QueueSteps(s, before, turns[..n]), TurnSteps(ApplyAll(s, log), turns[n]));
      TurnSends(s, log, turns[n]);
      assert before + Entries(turns) == log + if turns[n].Commit? then [turns[n].entry] else [];
    }
  }

  lemma TurnSends(s: State, log: seq<LogEntry>, turn: Turn)
    ensures EventsOf(s, log) + Published(TurnSteps(ApplyAll(s, log), turn))
         == EventsOf(s, log + if turn.Commit? then [turn.entry] else [])
  {
    hide FsmModel.Apply;
    if turn.Commit? {
      PublishedPublications(FsmModel.Apply(ApplyAll(s, log), turn.entry).events);
      ApplyAllConcat(s, log, [turn.entry]);
      assert [turn.entry][1..] == [];
      hide EventBus.Published;
    } else {
      assert [Receive(0)][1..] == [] && Published([Receive(0)]) == [];
      assert log + [] == log;
    }
  }

  lemma {:induction false} PublishedPublications(evs: seq<Event>)
    ensures Published(Publications(evs)) == evs
    decreases evs
  {
    if evs != [] {
      PublishedPublications(evs[1..]);
      assert ([Publish(evs[0])] + Publications(evs[1..]))[1..] == Publications(evs[1..]);
    }
  }

  lemma {:induction false} PublishedConcat(a: seq<BusStep>, b: seq<BusStep>)
    ensures Published(a + b) == Published(a) + Published(b)
    decreases a
  {
    if a == [] {
      assert a + b == b;
    } else {
      assert (a + b)[0] == a[0] && (a + b)[1..] == a[1..] + b;
      PublishedConcat(a[1..], b);
    }
  }

  /** Everything the follower gets to see in the end, if it empties its queue. */
  function Seen(buf: nat, steps: seq<BusStep>): (r: seq<Event>) {
    RunOne(New(buf), steps).consumed + RunOne(New(buf), steps).buffer
  }

  /** It is everything that was published if the queue is never full at a publication. */
  lemma SeesAll(buf: nat, s: State, before: seq<LogEntry>, turns: seq<Turn>)
    requires !Overflows(New(buf), QueueSteps(s, before, turns))
    ensures Seen(buf, QueueSteps(s, before, turns)) == EventsOf(s, before + Entries(turns))
  {
    var steps := QueueSteps(s, before, turns);
    hide QueueSteps;
    LossExactly(New(buf), steps);
    OneRunIsSound(New(buf), steps);
    SentTheRun(s, before, turns);
  }

  /** An entry is applied; the channel goes through its publications. */
  method CommitOne(f: Fsm, ch: Channel, e: LogEntry)
    requires f.Valid() && ch in f.bus.subscribers
    modifies f.Repr
    ensures f.Valid() && fresh(f.Repr - old(f.Repr)) && old(f.Repr) <= f.Repr
    ensures ch in f.bus.subscribers && ch in f.bus.Repr && ch.Valid()
    ensures f.Model() == FsmModel.Apply(old(f.Model()), e).state
    ensures ch.View() == RunOne(old(ch.View()), Publications(FsmModel.Apply(old(f.Model()), e).events))
  {
    hide FsmModel.Apply, EventBus.Sound, EventBus.RunOne;
    ghost var at :| 0 <= at < |f.bus.subscribers| && f.bus.subscribers[at] == ch;
    ApplyOne(f, e);
    assert f.bus.Follows(at);
  }

  /** The follower receives, if there is anything; the state machine does not notice. */
  method TakeOne(f: Fsm, ch: Channel) returns (ev: Option<Event>)
    requires f.Valid() && ch in f.bus.subscribers
    modifies ch
    ensures f.Valid() && f.Model() == old(f.Model())
    ensures ch in f.bus.Repr && ch.Valid()
    ensures ch.View() == RunOne(old(ch.View()), [Receive(0)])
    ensures ch.consumed == if ev.Some? then old(ch.consumed) + [ev.value] else old(ch.consumed)
  {
    hide EventBus.Sound;
    ghost var at :| 0 <= at < |f.bus.subscribers| && f.bus.subscribers[at] == ch;
    assert f.bus.Follows(at);
    OneReceipt(ch.View());
    hide EventBus.RunOne;
    ev := None;
    if ch.buffer != [] {
      var head := ch.Receive();
      ev := Some(head);
      assert forall i | 0 <= i < |f.bus.subscribers| :: old(f.bus.Follows(i)) && f.bus.Follows(i);
    }
  }

  lemma OneReceipt(q: Queue)
    ensures RunOne(q, [Receive(0)]) == if q.buffer != [] then Dequeue(q) else q
  {
    assert [Receive(0)][1..] == [];
    assert RunOne(StepOne(q, Receive(0)), []) == StepOne(q, Receive(0));
  }

  /** Subscribe, let `before` be applied, copy the maps, and then receive while further entries
      are applied, in turns as they come; at the end take what is left. The first events are
      older than the copy. The follower has replayed exactly what came through its queue, and
      holds exactly the current maps if the queue was never full at a publication, however
      long the run. */
  method FollowFrom(f: Fsm, buf: nat, before: seq<LogEntry>, turns: seq<Turn>) returns (v: View)
    requires f.Valid() && KeysMatch(f.Model())
    modifies f.Repr
    ensures f.Model() == ApplyAll(old(f.Model()), before + Entries(turns))
    ensures var s := old(f.Model());
            v == ReplayAll(ViewOf(ApplyAll(s, before)), Seen(buf, QueueSteps(s, before, turns)))
    ensures !Overflows(New(buf), QueueSteps(old(f.Model()), before, turns)) ==> v == ViewOf(f.Model())
  {
    hide FsmModel.Apply, ReplayAll, FsmModel.KeysMatch, EventBus.Sound, FsmModel.ApplyAll, FsmModel.EventsOf;
    hide EventBus.RunOne, EventBus.Overflows, TurnSteps;
    ghost var s := f.Model();
    var ch := SubscribeThenRun(f, buf, before);
    v := CopyMaps(f);
    ghost var start := v;
    ReplayNothing(start);
    NothingReceived(buf, EventsOf(s, before));
    assert before + Entries(turns[..0]) == before;
    for i := 0 to |turns|
      invariant f.Valid() && fresh(f.Repr - old(f.Repr)) && old(f.Repr) <= f.Repr
      invariant ch in f.bus.subscribers && ch in f.bus.Repr && fresh(ch) && ch.Valid()
      invariant f.Model() == ApplyAll(s, before + Entries(turns[..i]))
      invariant ch.View() == RunOne(New(buf), QueueSteps(s, before, turns[..i]))
      invariant v == ReplayAll(start, ch.consumed)
    {
      OneMoreTurn(s, before, turns, i, New(buf));
      v := FollowTurn(f, ch, turns[i], start, v);
    }
    assert turns[..|turns|] == turns;
    ReplayConcat(start, ch.consumed, ch.buffer);
    v := Drain(ch, v);
    if !Overflows(New(buf), QueueSteps(s, before, turns)) {
      SeesAll(buf, s, before, turns);
      LateCopyFollows(s, before, Entries(turns));
    }
  }

  lemma NothingReceived(buf: nat, evs: seq<Event>)
    ensures RunOne(New(buf), Publications(evs)).consumed == []
  {
    OnlyPublished(New(buf), evs);
  }

  lemma {:induction false} OnlyPublished(q: Queue, evs: seq<Event>)
    ensures RunOne(q, Publications(evs)).consumed == q.consumed
    decreases evs
  {
    if evs != [] {
      assert ([Publish(evs[0])] + Publications(evs[1..]))[1..] == Publications(evs[1..]);
      OnlyPublished(Enqueue(q, evs[0]), evs[1..]);
    }
  }

  method FollowTurn(f: Fsm, ch: Channel, turn: Turn, ghost start: View, v: View) returns (v': View)
    requires f.Valid() && ch in f.bus.subscribers && ch in f.bus.Repr && v == ReplayAll(start, ch.consumed)
    modifies f.Repr
    ensures f.Valid() && fresh(f.Repr - old(f.Repr)) && old(f.Repr) <= f.Repr
    ensures ch in f.bus.subscribers && ch in f.bus.Repr && ch.Valid()
    ensures v' == ReplayAll(start, ch.consumed)
    ensures f.Model() == After(old(f.Model()), turn)
    ensures ch.View() == RunOne(old(ch.View()), TurnSteps(old(f.Model()), turn))
  {
    hide FsmModel.Apply, ReplayAll, EventBus.Sound, EventBus.RunOne;
    v' := v;
    match turn {
      case Commit(e) =>
        OnlyPublished(ch.View(), FsmModel.Apply(f.Model(), e).events);
        CommitOne(f, ch, e);
      case Take =>
        ghost var was := ch.consumed;
        var ev := TakeOne(f, ch);
        if ev.Some? {
          v' := ReplayAll(v, [ev.value]);
          ReplayConcat(start, was, [ev.value]);
        }
    }
  }

  lemma LateCopyFollows(s: State, before: seq<LogEntry>, after: seq<LogEntry>)
    requires KeysMatch(s)
    ensures ApplyAll(s, before + after) == ApplyAll(ApplyAll(s, before), after)
    ensures EventsOf(s, before + after) == EventsOf(s, before) + EventsOf(ApplyAll(s, before), after)
    ensures ReplayAll(ViewOf(ApplyAll(s, before)), EventsOf(s, before + after))
         == ViewOf(ApplyAll(s, before + after))
  {
    ApplyAllConcat(s, before, after);
    assert (before + after)[..|before|] == before;
    MirrorFrom(s, before + after, |before|);
  }
}
