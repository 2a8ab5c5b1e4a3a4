/** Theorems about whole logs: duplicates, the recorded index, and following the state by
    replaying events over a copy that was taken late. */
module LogTheorems {
  import opened Types
  import opened FsmModel
  import opened Selection

  // ---- idempotency keys ----------------------------------------------------

  function KeyOf(e: LogEntry): (k: string) {
    if e.data.Malformed? then "" else e.data.idem
  }

  /** A key is recorded at its first use and never again, whatever the command does. */
  lemma {:induction false} ApplyRecordsKey(s: State, e: LogEntry)
    ensures Apply(s, e).state.idem ==
            if KeyOf(e) == "" || KeyOf(e) in s.idem then s.idem else s.idem[KeyOf(e) := e.index]
    ensures KeyOf(e) != "" && KeyOf(e) in s.idem ==> Apply(s, e).state == s && Apply(s, e).events == []
  {
    hide Execute;
    if e.data.Envelope? {
      ExecuteKeepsIdem(s, e.data.cmd);
      ExecuteKeepsIdem(s.(idem := s.idem[e.data.idem := e.index]), e.data.cmd);
    }
  }

  /** The log without each entry whose non-empty key is in `seen` or occurred earlier. */
  function Dedup(log: seq<LogEntry>, seen: set<string>): (r: seq<LogEntry>) {
    if log == [] then []
    else
      var k := KeyOf(log[0]);
      if k != "" && k in seen then Dedup(log[1..], seen)
      else [log[0]] + Dedup(log[1..], if k == "" then seen else seen + {k})
  }

  /** Removing the duplicates changes neither the final state nor the published events. */
  lemma {:induction false} DedupSameRun(s: State, log: seq<LogEntry>)
    ensures ApplyAll(s, Dedup(log, s.idem.Keys)) == ApplyAll(s, log)
    ensures EventsOf(s, Dedup(log, s.idem.Keys)) == EventsOf(s, log)
    decreases log
  {
    hide Apply;
    if log != [] {
      var e, k, rest := log[0], KeyOf(log[0]), log[1..];
      var s' := Apply(s, e).state;
      ApplyRecordsKey(s, e);
      DedupSameRun(s', rest);
      if k != "" && k in s.idem {
        assert Dedup(log, s.idem.Keys) == Dedup(rest, s.idem.Keys);
      } else {
        assert s'.idem.Keys == if k == "" then s.idem.Keys else s.idem.Keys + {k};
        var d := Dedup(rest, s'.idem.Keys);
        assert Dedup(log, s.idem.Keys) == [e] + d;
        assert ([e] + d)[0] == e && ([e] + d)[1..] == d;
      }
    }
  }

  ghost predicate NoRepeats(log: seq<LogEntry>, seen: set<string>) {
    forall j | 0 <= j < |log| && KeyOf(log[j]) != "" ::
      KeyOf(log[j]) !in seen && forall i | 0 <= i < j :: KeyOf(log[i]) != KeyOf(log[j])
  }

  /** The deduplicated log really has no key twice, and none from `seen`. */
  lemma {:induction false} DedupHasNoRepeats(log: seq<LogEntry>, seen: set<string>)
    ensures NoRepeats(Dedup(log, seen), seen)
  {
    if log != [] {
      var k := KeyOf(log[0]);
      if k != "" && k in seen {
        DedupHasNoRepeats(log[1..], seen);
      } else {
        var seen' := if k == "" then seen else seen + {k};
        var rest := Dedup(log[1..], seen');
        DedupHasNoRepeats(log[1..], seen');
        var d := [log[0]] + rest;
        forall j | 0 <= j < |d| && KeyOf(d[j]) != ""
          ensures KeyOf(d[j]) !in seen && forall i | 0 <= i < j :: KeyOf(d[i]) != KeyOf(d[j])
        {
          if j > 0 {
            assert d[j] == rest[j - 1];
            forall i | 0 <= i < j
              ensures KeyOf(d[i]) != KeyOf(d[j])
            {
              if i > 0 {
                assert d[i] == rest[i - 1];
              }
            }
          }
        }
      }
    }
  }

  /** An entry is dropped if its key is in `seen` or was used before it. */
  ghost predicate Repeats(log: seq<LogEntry>, seen: set<string>, k: nat)
    requires k < |log|
  {
    KeyOf(log[k]) != "" && (KeyOf(log[k]) in seen || exists i | 0 <= i < k :: KeyOf(log[i]) == KeyOf(log[k]))
  }

  ghost function KeepMarks(log: seq<LogEntry>, seen: set<string>): (r: seq<bool>) {
    seq(|log|, k requires 0 <= k < |log| => !Repeats(log, seen, k))
  }

  /** Exactly those entries are dropped, and the others stay in their order. */
  lemma {:induction false} DedupExactly(log: seq<LogEntry>, seen: set<string>) returns (at: seq<nat>)
    ensures Selects(Dedup(log, seen), log, at, KeepMarks(log, seen))
    decreases log
  {
    at := [];
    if log != [] {
      var key, tail := KeyOf(log[0]), log[1..];
      var keep := key == "" || key !in seen;
      var seen' := if keep && key != "" then seen + {key} else seen;
      var rest := DedupExactly(tail, seen');
      at := Cons(keep, rest);
      assert Dedup(log, seen) == (if keep then [log[0]] else []) + Dedup(tail, seen');
      hide Selects, Cons, Dedup;
      ConsSelects(keep, log[0], Dedup(tail, seen'), tail, rest, KeepMarks(tail, seen'));
      KeepMarksOfTail(log, seen);
      assert [log[0]] + tail == log;
    }
  }

  lemma KeepMarksOfTail(log: seq<LogEntry>, seen: set<string>)
    requires log != []
    ensures var key := KeyOf(log[0]);
            var keep := key == "" || key !in seen;
            var seen' := if keep && key != "" then seen + {key} else seen;
            KeepMarks(log, seen) == [keep] + KeepMarks(log[1..], seen')
  {
    var key := KeyOf(log[0]);
    var keep := key == "" || key !in seen;
    var seen' := if keep && key != "" then seen + {key} else seen;
    assert Repeats(log, seen, 0) <==> !keep;
    forall k | 0 < k < |log|
      ensures KeepMarks(log, seen)[k] == KeepMarks(log[1..], seen')[k - 1]
    {
      RepeatsInTail(log, seen, k);
    }
    assert KeepMarks(log, seen) == [keep] + KeepMarks(log[1..], seen');
  }

  lemma RepeatsInTail(log: seq<LogEntry>, seen: set<string>, k: nat)
    requires 0 < k < |log|
    ensures var key := KeyOf(log[0]);
            var seen' := if key == "" || key in seen then seen else seen + {key};
            Repeats(log[1..], seen', k - 1) <==> Repeats(log, seen, k)
  {
    var tail := log[1..];
    if i :| 0 <= i < k && KeyOf(log[i]) == KeyOf(log[k]) {
      if i > 0 {
        assert KeyOf(tail[i - 1]) == KeyOf(tail[k - 1]);
      }
    }
    if i :| 0 <= i < k - 1 && KeyOf(tail[i]) == KeyOf(tail[k - 1]) {
      assert KeyOf(log[i + 1]) == KeyOf(log[k]);
    }
  }

  function FirstIndex(log: seq<LogEntry>, key: string): (r: Option<int>) {
    if log == [] then None
    else if KeyOf(log[0]) == key then Some(log[0].index)
    else FirstIndex(log[1..], key)
  }

  /** The index kept for a key is that of the entry that used it first, whether or not that
      entry's own command decoded; a key that never occurred is not recorded. */
  lemma {:induction false} RecordedIndexIsFirst(s: State, log: seq<LogEntry>, key: string)
    requires key != ""
    ensures var m := ApplyAll(s, log).idem;
            && (key in s.idem ==> key in m && m[key] == s.idem[key])
            && (key !in s.idem ==>
                  match FirstIndex(log, key)
                  case Some(i) => key in m && m[key] == i
                  case None => key !in m)
    decreases log
  {
    hide Apply;
    if log != [] {
      ApplyRecordsKey(s, log[0]);
      RecordedIndexIsFirst(Apply(s, log[0]).state, log[1..], key);
    }
  }

  // ---- snapshot and restore ------------------------------------------------

  /** A node restored from the state after any prefix, and fed the rest of the log, ends in
      the state of a node that applied the whole log, and publishes what it published. */
  lemma RestoreThenReplay(log: seq<LogEntry>, n: nat)
    requires n <= |log|
    ensures ApplyAll(ApplyAll(EMPTY, log[..n]), log[n..]) == ApplyAll(EMPTY, log)
    ensures EventsOf(EMPTY, log) == EventsOf(EMPTY, log[..n]) + EventsOf(ApplyAll(EMPTY, log[..n]), log[n..])
  {
    hide ApplyAll, EventsOf;
    ApplyAllConcat(EMPTY, log[..n], log[n..]);
    assert log[..n] + log[n..] == log;
  }

  // ---- following the state by its events ------------------------------------

  datatype Write<V> = Put(key: string, value: V) | Del(key: string)

  function WriteOne<V>(m: map<string, V>, w: Write<V>): (r: map<string, V>) {
    match w
    case Put(k, v) => m[k := v]
    case Del(k) => m - {k}
  }

  /** What a write leaves under its key. */
  function Left<V>(w: Write<V>): (r: Option<V>) {
    match w
    case Put(_, v) => Some(v)
    case Del(_) => None
  }

  function WriteAll<V>(m: map<string, V>, ws: seq<Write<V>>): (r: map<string, V>)
    decreases ws
  {
    if ws == [] then m
    else
      WriteAll(WriteOne(m, ws[0]), ws[1..])
  }

  lemma {:induction false} WriteAllConcat<V>(m: map<string, V>, a: seq<Write<V>>, b: seq<Write<V>>)
    ensures WriteAll(m, a + b) == WriteAll(WriteAll(m, a), b)
    decreases a
  {
    if a == [] {
      assert a + b == b;
    } else {
      assert (a + b)[0] == a[0] && (a + b)[1..] == a[1..] + b;
      WriteAllConcat(WriteOne(m, a[0]), a[1..], b);
    }
  }

  function Lookup<V>(m: map<string, V>, k: string): (r: Option<V>) {
    if k in m then Some(m[k]) else None
  }

  /** The value the last write to `k` leaves behind, or `init` when there is none. */
  function LastWrite<V>(init: Option<V>, ws: seq<Write<V>>, k: string): (r: Option<V>)
    decreases ws
  {
    if ws == [] then init
    else LastWrite(if ws[0].key == k then Left(ws[0]) else init, ws[1..], k)
  }

  lemma {:induction false} LastWriteConcat<V>(x: Option<V>, a: seq<Write<V>>, b: seq<Write<V>>, k: string)
    ensures LastWrite(x, a + b, k) == LastWrite(LastWrite(x, a, k), b, k)
    decreases a
  {
    if a == [] {
      assert a + b == b;
    } else {
      assert (a + b)[0] == a[0] && (a + b)[1..] == a[1..] + b;
      LastWriteConcat(if a[0].key == k then Left(a[0]) else x, a[1..], b, k);
    }
  }

  lemma {:induction false} WriteAllIsLastWrite<V>(m: map<string, V>, ws: seq<Write<V>>, k: string)
    ensures Lookup(WriteAll(m, ws), k) == LastWrite(Lookup(m, k), ws, k)
    decreases ws
  {
    if ws != [] {
      WriteAllIsLastWrite(WriteOne(m, ws[0]), ws[1..], k);
    }
  }

  /** Where a key ends up either ignores where it started or is where it started. */
  lemma {:induction false} LastWriteForgets<V>(x: Option<V>, y: Option<V>, ws: seq<Write<V>>, k: string)
    ensures LastWrite(x, ws, k) == LastWrite(y, ws, k) || (LastWrite(x, ws, k) == x && LastWrite(y, ws, k) == y)
    decreases ws
  {
    if ws != [] {
      if ws[0].key == k {
        var z := Left(ws[0]);
        assert LastWrite(x, ws, k) == LastWrite(z, ws[1..], k) == LastWrite(y, ws, k);
      } else {
        LastWriteForgets(x, y, ws[1..], k);
      }
    }
  }

  lemma SameLookups<V>(a: map<string, V>, b: map<string, V>)
    ensures a == b <==> forall k :: Lookup(a, k) == Lookup(b, k)
  {
    if forall k :: Lookup(a, k) == Lookup(b, k) {
      assert forall k :: k in a <==> Lookup(a, k).Some?;
      assert forall k :: k in b <==> Lookup(b, k).Some?;
      assert forall k | k in a :: Lookup(a, k).value == Lookup(b, k).value;
      assert a == b;
    }
  }

  /** Writes `a` that a copy already contains may be repeated over it: what counts is the
      last write to each key, and the copy has none of its own. */
  lemma LateCopyCatchesUp<V>(m: map<string, V>, a: seq<Write<V>>, b: seq<Write<V>>)
    ensures WriteAll(WriteAll(m, a), a + b) == WriteAll(m, a + b)
  {
    var late, full := WriteAll(WriteAll(m, a), a), WriteAll(m, a);
    forall k
      ensures Lookup(late, k) == Lookup(full, k)
    {
      WriteAllIsLastWrite(full, a, k);
      WriteAllIsLastWrite(m, a, k);
      LastWriteForgets(Lookup(full, k), Lookup(m, k), a, k);
    }
    SameLookups(late, full);
    WriteAllConcat(full, a, b);
    WriteAllConcat(m, a, b);
  }

  predicate IsWritten<V>(ws: seq<Write<V>>, k: string)
    decreases ws
  {
    ws != [] && (ws[0].key == k || IsWritten(ws[1..], k))
  }

  lemma {:induction false} SameEndOfKey<V>(x: Option<V>, y: Option<V>, ws: seq<Write<V>>, k: string)
    ensures LastWrite(x, ws, k) == LastWrite(y, ws, k) <==> x == y || IsWritten(ws, k)
    decreases ws
  {
    if ws != [] {
      var x' := if ws[0].key == k then Left(ws[0]) else x;
      var y' := if ws[0].key == k then Left(ws[0]) else y;
      SameEndOfKey(x', y', ws[1..], k);
    }
  }

  /** Equal but for keys that are written. */
  ghost predicate AgreeBut<V>(a: map<string, V>, b: map<string, V>, ws: seq<Write<V>>) {
    forall k :: Lookup(a, k) == Lookup(b, k) || IsWritten(ws, k)
  }

  /** The same writes end in the same map exactly if the maps they begin with agree but for the
      keys that are written. */
  lemma SameEndExactly<V>(a: map<string, V>, b: map<string, V>, ws: seq<Write<V>>)
    ensures WriteAll(a, ws) == WriteAll(b, ws) <==> AgreeBut(a, b, ws)
  {
    forall k
      ensures Lookup(WriteAll(a, ws), k) == Lookup(WriteAll(b, ws), k) <==>
                Lookup(a, k) == Lookup(b, k) || IsWritten(ws, k)
    {
      WriteAllIsLastWrite(a, ws, k);
      WriteAllIsLastWrite(b, ws, k);
      SameEndOfKey(Lookup(a, k), Lookup(b, k), ws, k);
    }
    SameLookups(WriteAll(a, ws), WriteAll(b, ws));
  }

  function NodeWrite(e: Event): (r: seq<Write<Node>>) {
    match e
    case NodeWritten(n, _) => [Put(n.id, n)]
    case NodeRemoved(id) => [Del(id)]
    case _ => []
  }

  /** A follower keys servers by their own identifier, whichever command wrote them. */
  function ServerWrite(e: Event): (r: seq<Write<Server>>) {
    match e
    case ServerUpserted(v) => [Put(v.spec.id, v)]
    case ServerStateSet(v) => [Put(v.spec.id, v)]
    case ServerHostSet(v) => [Put(v.spec.id, v)]
    case ServerRemoved(id) => [Del(id)]
    case _ => []
  }

  function GroupWrite(e: Event): (r: seq<Write<Group>>) {
    match e
    case GroupUpserted(g) => [Put(g.id, g)]
    case GroupRemoved(id) => [Del(id)]
    case _ => []
  }

  function TemplateWrite(e: Event): (r: seq<Write<Template>>) {
    match e
    case TemplateUpserted(t) => [Put(t.id, t)]
    case TemplateRemoved(id) => [Del(id)]
    case _ => []
  }

  function DatabaseWrite(e: Event): (r: seq<Write<Database>>) {
    match e
    case DatabaseUpserted(d) => [Put(d.id, d)]
    case DatabaseRemoved(id) => [Del(id)]
    case _ => []
  }

  function Writes<V>(write: Event -> seq<Write<V>>, evs: seq<Event>): (r: seq<Write<V>>)
    decreases evs
  {
    if evs == [] then [] else write(evs[0]) + Writes(write, evs[1..])
  }

  lemma {:induction false} WritesConcat<V>(write: Event -> seq<Write<V>>, a: seq<Event>, b: seq<Event>)
    ensures Writes(write, a + b) == Writes(write, a) + Writes(write, b)
    decreases a
  {
    if a == [] {
      assert a + b == b;
    } else {
      assert (a + b)[0] == a[0] && (a + b)[1..] == a[1..] + b;
      WritesConcat(write, a[1..], b);
    }
  }

  /** The five published maps of `s`, when the events of a run are replayed over those of
      the state it started in. */
  ghost predicate Follows(start: State, evs: seq<Event>, s: State) {
    && s.nodes == WriteAll(start.nodes, Writes(NodeWrite, evs))
    && s.servers == WriteAll(start.servers, Writes(ServerWrite, evs))
    && s.groups == WriteAll(start.groups, Writes(GroupWrite, evs))
    && s.templates == WriteAll(start.templates, Writes(TemplateWrite, evs))
    && s.databases == WriteAll(start.databases, Writes(DatabaseWrite, evs))
  }

  /** One published event, replayed, is the change its command made. */
  lemma {:induction false} OneCommandFollows(s: State, c: Command)
    requires KeysMatch(s)
    ensures Follows(s, Execute(s, c).events, Execute(s, c).state)
  {
    AtMostOneEvent(s, c);
    hide Execute, Replay;
    if Execute(s, c).events != [] {
      hide Follows;
      OneEventFollows(s, Execute(s, c).events[0]);
      SameWrite(s, c);
    }
  }

  /** A command publishes at most one event, and without one it leaves the published maps. */
  lemma {:induction false} AtMostOneEvent(s: State, c: Command)
    ensures Execute(s, c).events == [] || Execute(s, c).events == [Execute(s, c).events[0]]
    ensures Execute(s, c).events == [] ==>
              Execute(s, c).state == s.(tokens := Execute(s, c).state.tokens)
  {
    match c
    case ServerSetState(_, _) =>
    case ServerSetHost(_, _, _, _) =>
    case _ =>
  }

  /** The state with the change one event reports. */
  function Replay(s: State, e: Event): (r: State) {
    match e
    case NodeWritten(n, _) => s.(nodes := s.nodes[n.id := n])
    case NodeRemoved(id) => s.(nodes := s.nodes - {id})
    case ServerUpserted(v) => s.(servers := s.servers[v.spec.id := v])
    case ServerStateSet(v) => s.(servers := s.servers[v.spec.id := v])
    case ServerHostSet(v) => s.(servers := s.servers[v.spec.id := v])
    case ServerRemoved(id) => s.(servers := s.servers - {id})
    case GroupUpserted(g) => s.(groups := s.groups[g.id := g])
    case GroupRemoved(id) => s.(groups := s.groups - {id})
    case TemplateUpserted(t) => s.(templates := s.templates[t.id := t])
    case TemplateRemoved(id) => s.(templates := s.templates - {id})
    case DatabaseUpserted(d) => s.(databases := s.databases[d.id := d])
    case DatabaseRemoved(id) => s.(databases := s.databases - {id})
  }

  lemma {:induction false} SameWrite(s: State, c: Command)
    requires KeysMatch(s) && Execute(s, c).events != []
    ensures Execute(s, c).state == Replay(s, Execute(s, c).events[0])
  {
    if c.ServerSetState? || c.ServerSetHost? {
      assert s.servers[c.id].spec.id == c.id;
    } else if WritesNodes(c) || WritesServers(c) {
      hide KeysMatch;
    } else {
      hide KeysMatch;
    }
  }

  lemma {:induction false} OneEventFollows(s: State, e: Event)
    ensures Follows(s, [e], Replay(s, e))
  {
    OneEvent(NodeWrite, [e]);
    OneEvent(ServerWrite, [e]);
    OneEvent(GroupWrite, [e]);
    OneEvent(TemplateWrite, [e]);
    OneEvent(DatabaseWrite, [e]);
    match e
    case NodeWritten(n, _) => OneWrite(s.nodes, Put(n.id, n));
    case NodeRemoved(id) => OneWrite(s.nodes, Del(id));
    case ServerUpserted(v) => OneWrite(s.servers, Put(v.spec.id, v));
    case ServerStateSet(v) => OneWrite(s.servers, Put(v.spec.id, v));
    case ServerHostSet(v) => OneWrite(s.servers, Put(v.spec.id, v));
    case ServerRemoved(id) => OneWrite(s.servers, Del(id));
    case GroupUpserted(g) => OneWrite(s.groups, Put(g.id, g));
    case GroupRemoved(id) => OneWrite(s.groups, Del(id));
    case TemplateUpserted(t) => OneWrite(s.templates, Put(t.id, t));
    case TemplateRemoved(id) => OneWrite(s.templates, Del(id));
    case DatabaseUpserted(d) => OneWrite(s.databases, Put(d.id, d));
    case DatabaseRemoved(id) => OneWrite(s.databases, Del(id));
  }

  lemma OneWrite<V>(m: map<string, V>, w: Write<V>)
    ensures WriteAll(m, [w]) == WriteOne(m, w)
  {
    assert [w][1..] == [];
  }

  lemma OneEvent<V>(write: Event -> seq<Write<V>>, evs: seq<Event>)
    requires |evs| == 1
    ensures Writes(write, evs) == write(evs[0])
  {
    assert evs[1..] == [];
  }

  lemma NothingFollows(s: State)
    ensures Follows(s, [], s)
  {
  }

  lemma OneEntryFollows(s: State, e: LogEntry)
    requires KeysMatch(s)
    ensures Follows(s, Apply(s, e).events, Apply(s, e).state)
  {
    NothingFollows(s);
    hide Execute, WriteAll, Writes;
    if e.data.Envelope? {
      var s' := s.(idem := s.idem[e.data.idem := e.index]);
      assert KeysMatch(s');
      OneCommandFollows(s, e.data.cmd);
      OneCommandFollows(s', e.data.cmd);
    }
  }

  lemma {:induction false} RunFollows(s: State, log: seq<LogEntry>)
    requires KeysMatch(s)
    ensures Follows(s, EventsOf(s, log), ApplyAll(s, log))
    decreases log
  {
    hide Apply, KeysMatch;
    if log != [] {
      var r := Apply(s, log[0]);
      var rest := EventsOf(r.state, log[1..]);
      ApplyKeepsKeysMatch(s, log[0]);
      OneEntryFollows(s, log[0]);
      RunFollows(r.state, log[1..]);
      WritesConcat(NodeWrite, r.events, rest);
      WritesConcat(ServerWrite, r.events, rest);
      WritesConcat(GroupWrite, r.events, rest);
      WritesConcat(TemplateWrite, r.events, rest);
      WritesConcat(DatabaseWrite, r.events, rest);
      WriteAllConcat(s.nodes, Writes(NodeWrite, r.events), Writes(NodeWrite, rest));
      WriteAllConcat(s.servers, Writes(ServerWrite, r.events), Writes(ServerWrite, rest));
      WriteAllConcat(s.groups, Writes(GroupWrite, r.events), Writes(GroupWrite, rest));
      WriteAllConcat(s.templates, Writes(TemplateWrite, r.events), Writes(TemplateWrite, rest));
      WriteAllConcat(s.databases, Writes(DatabaseWrite, r.events), Writes(DatabaseWrite, rest));
    }
  }

  /** A subscriber joins in state `s`; `log` is what is applied from then on. It copies each
      map at a moment of its own choosing, `copiedAt[i]` entries later, and replays every
      event since it subscribed, old ones included: each map comes out exactly current. */
  lemma EventMirror(s: State, log: seq<LogEntry>, copiedAt: seq<nat>)
    requires KeysMatch(s)
    requires |copiedAt| == 5 && forall i | 0 <= i < 5 :: copiedAt[i] <= |log|
    ensures var evs, now := EventsOf(s, log), ApplyAll(s, log);
            && WriteAll(ApplyAll(s, log[..copiedAt[0]]).nodes, Writes(NodeWrite, evs)) == now.nodes
            && WriteAll(ApplyAll(s, log[..copiedAt[1]]).servers, Writes(ServerWrite, evs)) == now.servers
            && WriteAll(ApplyAll(s, log[..copiedAt[2]]).groups, Writes(GroupWrite, evs)) == now.groups
            && WriteAll(ApplyAll(s, log[..copiedAt[3]]).templates, Writes(TemplateWrite, evs)) == now.templates
            && WriteAll(ApplyAll(s, log[..copiedAt[4]]).databases, Writes(DatabaseWrite, evs)) == now.databases
  {
    MirrorFrom(s, log, copiedAt[0]);
    MirrorFrom(s, log, copiedAt[1]);
    MirrorFrom(s, log, copiedAt[2]);
    MirrorFrom(s, log, copiedAt[3]);
    MirrorFrom(s, log, copiedAt[4]);
  }

  lemma MirrorFrom(s: State, log: seq<LogEntry>, n: nat)
    requires KeysMatch(s) && n <= |log|
    ensures Follows(ApplyAll(s, log[..n]), EventsOf(s, log), ApplyAll(s, log))
  {
    hide ApplyAll, EventsOf, KeysMatch;
    var mid := ApplyAll(s, log[..n]);
    var a, b := EventsOf(s, log[..n]), EventsOf(mid, log[n..]);
    ApplyAllConcat(s, log[..n], log[n..]);
    assert log[..n] + log[n..] == log;
    RunFollows(s, log[..n]);
    RunFollows(s, log);
    LateFollower(s, mid, a, b, ApplyAll(s, log));
  }

  lemma LateFollower(s: State, mid: State, a: seq<Event>, b: seq<Event>, end: State)
    requires Follows(s, a, mid) && Follows(s, a + b, end)
    ensures Follows(mid, a + b, end)
  {
    hide WriteAll, Writes;
    WritesConcat(NodeWrite, a, b);
    WritesConcat(ServerWrite, a, b);
    WritesConcat(GroupWrite, a, b);
    WritesConcat(TemplateWrite, a, b);
    WritesConcat(DatabaseWrite, a, b);
    LateCopyCatchesUp(s.nodes, Writes(NodeWrite, a), Writes(NodeWrite, b));
    LateCopyCatchesUp(s.servers, Writes(ServerWrite, a), Writes(ServerWrite, b));
    LateCopyCatchesUp(s.groups, Writes(GroupWrite, a), Writes(GroupWrite, b));
    LateCopyCatchesUp(s.templates, Writes(TemplateWrite, a), Writes(TemplateWrite, b));
    LateCopyCatchesUp(s.databases, Writes(DatabaseWrite, a), Writes(DatabaseWrite, b));
  }

  // ---- followers that missed something ------------------------------------------

  /** The five published maps agree but for what the events write. */
  ghost predicate Agree(s: State, t: State, evs: seq<Event>) {
    && AgreeBut(s.nodes, t.nodes, Writes(NodeWrite, evs))
    && AgreeBut(s.servers, t.servers, Writes(ServerWrite, evs))
    && AgreeBut(s.groups, t.groups, Writes(GroupWrite, evs))
    && AgreeBut(s.templates, t.templates, Writes(TemplateWrite, evs))
    && AgreeBut(s.databases, t.databases, Writes(DatabaseWrite, evs))
  }

  /** A follower that holds the maps of `s` while the state is `t` gets right, by the events
      from then on, exactly if the two agree but for what those events write. */
  lemma MirrorExactly(s: State, t: State, log: seq<LogEntry>)
    requires KeysMatch(t)
    ensures Follows(s, EventsOf(t, log), ApplyAll(t, log)) <==> Agree(s, t, EventsOf(t, log))
  {
    hide ApplyAll, EventsOf, KeysMatch, WriteAll, Writes, AgreeBut;
    var evs := EventsOf(t, log);
    RunFollows(t, log);
    SameEndExactly(s.nodes, t.nodes, Writes(NodeWrite, evs));
    SameEndExactly(s.servers, t.servers, Writes(ServerWrite, evs));
    SameEndExactly(s.groups, t.groups, Writes(GroupWrite, evs));
    SameEndExactly(s.templates, t.templates, Writes(TemplateWrite, evs));
    SameEndExactly(s.databases, t.databases, Writes(DatabaseWrite, evs));
  }

  /** Why the bus must not drop: a follower that misses the event of one entry and gets all the
      later ones is right in the end exactly if that entry made no change, or all that it
      changed is written again. */
  lemma DroppedEventExactly(s: State, e: LogEntry, rest: seq<LogEntry>)
    requires KeysMatch(s)
    ensures var s' := Apply(s, e).state;
            Follows(s, EventsOf(s', rest), ApplyAll(s', rest)) <==> Agree(s, s', EventsOf(s', rest))
  {
    hide Follows, Agree, Apply;
    ApplyKeepsKeysMatch(s, e);
    MirrorExactly(s, Apply(s, e).state, rest);
  }

  /** Restore publishes nothing. A follower that subscribed in `s`, copied after `n` entries, and
      replays every event from before and after the restore, is right in the end exactly if the
      document agreed with the state it replaced, but for what is written after it. */
  lemma RestoreMirrorExactly(s: State, log: seq<LogEntry>, n: nat, doc: State, rest: seq<LogEntry>)
    requires KeysMatch(s) && KeysMatch(doc) && n <= |log|
    ensures Follows(ApplyAll(s, log[..n]), EventsOf(s, log) + EventsOf(doc, rest), ApplyAll(doc, rest)) <==>
              Agree(ApplyAll(s, log), doc, EventsOf(doc, rest))
  {
    hide ApplyAll, EventsOf, KeysMatch, Agree, Follows;
    MirrorFrom(s, log, n);
    MirrorExactly(ApplyAll(s, log), doc, rest);
    FollowOn(ApplyAll(s, log[..n]), EventsOf(s, log), ApplyAll(s, log), EventsOf(doc, rest), ApplyAll(doc, rest));
  }

  lemma FollowOn(s: State, a: seq<Event>, mid: State, b: seq<Event>, end: State)
    requires Follows(s, a, mid)
    ensures Follows(s, a + b, end) <==> Follows(mid, b, end)
  {
    hide WriteAll, Writes;
    WritesConcat(NodeWrite, a, b);
    WritesConcat(ServerWrite, a, b);
    WritesConcat(GroupWrite, a, b);
    WritesConcat(TemplateWrite, a, b);
    WritesConcat(DatabaseWrite, a, b);
    WriteAllConcat(s.nodes, Writes(NodeWrite, a), Writes(NodeWrite, b));
    WriteAllConcat(s.servers, Writes(ServerWrite, a), Writes(ServerWrite, b));
    WriteAllConcat(s.groups, Writes(GroupWrite, a), Writes(GroupWrite, b));
    WriteAllConcat(s.templates, Writes(TemplateWrite, a), Writes(TemplateWrite, b));
    WriteAllConcat(s.databases, Writes(DatabaseWrite, a), Writes(DatabaseWrite, b));
  }

  /** The smallest case of a drop: one removal. */
  lemma DroppedEventBreaksMirror(id: string)
    ensures var log := [LogEntry(1, Envelope("", NodeRemove(id)))];
            exists s: State ::
              && KeysMatch(s)
              && EventsOf(s, log) == [NodeRemoved(id)]
              && WriteAll(s.nodes, Writes(NodeWrite, [])) != ApplyAll(s, log).nodes
  {
    var n := Node(id, "", NodeUp, Resources(0, 0, 0, 0.0, 0, 0), 0, false, "");
    var s := EMPTY.(nodes := map[id := n]);
    var log := [LogEntry(1, Envelope("", NodeRemove(id)))];
    assert log[1..] == [];
    assert ApplyAll(s, log) == Apply(s, log[0]).state;
    assert EventsOf(s, log) == Apply(s, log[0]).events + [];
    assert id in WriteAll(s.nodes, Writes(NodeWrite, []));
  }
}
