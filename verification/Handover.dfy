/** Moving a player's state between servers through a shared Redis: a lock key and a data key
    per player, both with a time to live
    (bridge/common/src/main/kotlin/net/aethernet/bridge/common/RedisStateStore.kt, and the quit
    sections of AetherPaperPlugin.kt and PlayerQuitHandler.kt). Any number of servers and
    players take steps in any order; the clock only moves in Wait. */
module Handover {
  import opened Types

  /** The two instances: TTLs in milliseconds, whether the data key gets its TTL in the same
      command as its value (PSETEX) or in a second one (SET, then EXPIRE), and whether the bytes
      are written to MariaDB as well. */
  datatype Config = Config(lockTtl: nat, dataTtl: nat, atomicTtl: bool, durable: bool)

  const PAPER := Config(30_000, 300_000, false, false)
  const CLOUD := Config(10_000, 30_000, true, true)

  datatype Entry<V> = Entry(value: V, expires: Option<nat>)

  predicate Live<V>(e: Entry<V>, now: nat) {
    e.expires.None? || now < e.expires.value
  }

  /** The lock's value is the server's name; which quit section wrote it is bookkeeping. */
  datatype Owner = Owner(server: string, section: nat)

  datatype Phase = Acquired | Written | Stored | Persisted

  datatype Section = Section(uuid: string, server: string, start: nat, phase: Phase)

  datatype Turn = Turn(uuid: string, section: nat)

  /** What a section stored and when, and when that was given its TTL, if it was. */
  datatype Write = Write(bytes: seq<byte>, at: nat, ttlAt: Option<nat>)

  /** `open` holds the quit sections between a successful acquire and their end. The rest is
      bookkeeping: every section number ever taken, the successful acquires in their order, and
      what each section stored. */
  datatype Sys = Sys(
    now: nat,
    locks: map<string, Entry<Owner>>,
    data: map<string, Entry<seq<byte>>>,
    database: map<string, seq<byte>>,
    open: map<nat, Section>,
    used: set<nat>,
    turns: seq<Turn>,
    stored: map<nat, Write>)

  const START := Sys(0, map[], map[], map[], map[], {}, [], map[])

  // ---- the store's commands -------------------------------------------------

  predicate Locked(s: Sys, uuid: string) {
    uuid in s.locks && Live(s.locks[uuid], s.now)
  }

  /** GET of the data key. */
  function Load(s: Sys, uuid: string): (r: Option<seq<byte>>) {
    if uuid in s.data && Live(s.data[uuid], s.now) then Some(s.data[uuid].value) else None
  }

  // ---- steps ------------------------------------------------------------------

  datatype Step =
    | Acquire(section: nat, uuid: string, server: string)
    | Store(section: nat, bytes: seq<byte>)
    | Expire(section: nat)
    | Persist(section: nat, bytes: seq<byte>)
    | Release(section: nat)
    | Crash(section: nat)
    | Wait(ms: nat)

  /** A section stores at most once, and sets the TTL or writes to the database after that; it
      can be released at any point, because the release is in a finally block, and it can die
      at any point. */
  predicate Enabled(c: Config, s: Sys, a: Step) {
    match a
    case Acquire(q, _, _) => q !in s.used
    case Store(q, _) => q in s.open && s.open[q].phase == Acquired
    case Expire(q) => q in s.open && s.open[q].phase == Written && !c.atomicTtl
    case Persist(q, _) => q in s.open && s.open[q].phase == Stored && c.durable
    case Release(q) => q in s.open
    case Crash(q) => q in s.open
    case Wait(_) => true
  }

  function Next(c: Config, s: Sys, a: Step): (r: Sys)
    requires Enabled(c, s, a)
  {
    match a
    case Acquire(q, uuid, server) =>
      var s' := s.(used := s.used + {q});
      if Locked(s, uuid) then s'
      else
        s'.(locks := s.locks[uuid := Entry(Owner(server, q), Some(s.now + c.lockTtl))],
            open := s.open[q := Section(uuid, server, s.now, Acquired)],
            turns := s.turns + [Turn(uuid, q)])
    case Store(q, bytes) =>
      var sec := s.open[q];
      s.(data := s.data[sec.uuid := Entry(bytes, if c.atomicTtl then Some(s.now + c.dataTtl) else None)],
         open := s.open[q := sec.(phase := if c.atomicTtl then Stored else Written)],
         stored := s.stored[q := Saved(c, s, bytes)])
    case Expire(q) =>
      var sec := s.open[q];
      var s' := s.(open := s.open[q := sec.(phase := Stored)]);
      if sec.uuid in s.data && Live(s.data[sec.uuid], s.now) then
        s'.(data := s.data[sec.uuid := s.data[sec.uuid].(expires := Some(s.now + c.dataTtl))],
            stored := if q in s.stored then s.stored[q := s.stored[q].(ttlAt := Some(s.now))] else s.stored)
      else
        s'
    case Persist(q, bytes) =>
      s.(database := s.database[s.open[q].uuid := bytes],
         open := s.open[q := s.open[q].(phase := Persisted)])
    case Release(q) =>
      s.(locks := s.locks - {s.open[q].uuid}, open := s.open - {q})
    case Crash(q) =>
      s.(open := s.open - {q})
    case Wait(ms) =>
      s.(now := s.now + ms)
  }

  predicate IsRun(c: Config, s: Sys, steps: seq<Step>)
    decreases steps
  {
    steps == [] || (Enabled(c, s, steps[0]) && IsRun(c, Next(c, s, steps[0]), steps[1..]))
  }

  function After(c: Config, s: Sys, steps: seq<Step>): (r: Sys)
    requires IsRun(c, s, steps)
    decreases steps
  {
    if steps == [] then s else After(c, Next(c, s, steps[0]), steps[1..])
  }

  lemma {:induction false} RunConcat(c: Config, s: Sys, a: seq<Step>, b: seq<Step>)
    requires IsRun(c, s, a) && IsRun(c, After(c, s, a), b)
    ensures IsRun(c, s, a + b) && After(c, s, a + b) == After(c, After(c, s, a), b)
    decreases a
  {
    if a == [] {
      assert a + b == b;
    } else {
      assert (a + b)[0] == a[0] && (a + b)[1..] == a[1..] + b;
      RunConcat(c, Next(c, s, a[0]), a[1..], b);
    }
  }

  // ---- mutual exclusion, player by player -----------------------------------------

  /** At most one open section for the player. */
  ghost predicate Exclusive(s: Sys, uuid: string) {
    forall p, q | p in s.open && q in s.open && s.open[p].uuid == uuid == s.open[q].uuid :: p == q
  }

  /** The lock entry of the player's open section is its own and expires one lock TTL after the
      section began. */
  ghost predicate OwnLock(c: Config, s: Sys, uuid: string) {
    forall q | q in s.open && s.open[q].uuid == uuid ::
      && uuid in s.locks
      && s.locks[uuid] == Entry(Owner(s.open[q].server, q), Some(s.open[q].start + c.lockTtl))
      && s.open[q].start <= s.now
  }

  ghost predicate Sane(c: Config, s: Sys, uuid: string) {
    OwnLock(c, s, uuid) && forall q | q in s.open :: q in s.used
  }

  /** A section of the player has outlived its lock and is still open. */
  ghost predicate Overdue(c: Config, s: Sys, uuid: string) {
    exists q | q in s.open :: s.open[q].uuid == uuid && s.now >= s.open[q].start + c.lockTtl
  }

  lemma OwnLockExcludes(c: Config, s: Sys, uuid: string)
    requires OwnLock(c, s, uuid)
    ensures Exclusive(s, uuid)
  {
    forall p, q | p in s.open && q in s.open && s.open[p].uuid == uuid == s.open[q].uuid
      ensures p == q
    {
      assert s.locks[uuid].value.section == p;
    }
  }

  lemma AcquireStep(c: Config, s: Sys, q: nat, uuid: string, server: string)
    requires Sane(c, s, uuid) && q !in s.used
    ensures var s' := Next(c, s, Acquire(q, uuid, server));
            if Overdue(c, s, uuid) then !Exclusive(s', uuid) else Sane(c, s', uuid)
  {
    var s' := Next(c, s, Acquire(q, uuid, server));
    if Overdue(c, s, uuid) {
      var p :| p in s.open && s.open[p].uuid == uuid && s.now >= s.open[p].start + c.lockTtl;
      assert !Locked(s, uuid);
      assert p in s'.open && q in s'.open && s'.open[p].uuid == uuid == s'.open[q].uuid && p != q;
    } else if !Locked(s, uuid) {
      assert forall p | p in s.open :: s.open[p].uuid != uuid;
    }
  }

  lemma ReleaseStep(c: Config, s: Sys, q: nat, uuid: string)
    requires Sane(c, s, uuid) && q in s.open
    ensures Sane(c, Next(c, s, Release(q)), uuid)
  {
    OwnLockExcludes(c, s, uuid);
  }

  ghost predicate AcquiresOverdue(c: Config, s: Sys, a: Step, uuid: string) {
    a.Acquire? && a.uuid == uuid && Overdue(c, s, uuid)
  }

  /** One step: a player's exclusion survives unless somebody tries to acquire while that
      player's open section is overdue, and then it does not. */
  lemma {:induction false} ExclusionStep(c: Config, s: Sys, a: Step, uuid: string)
    requires Sane(c, s, uuid) && Enabled(c, s, a)
    ensures if AcquiresOverdue(c, s, a, uuid) then !Exclusive(Next(c, s, a), uuid) else Sane(c, Next(c, s, a), uuid)
  {
    if a.Acquire? && a.uuid == uuid {
      AcquireStep(c, s, a.section, uuid, a.server);
      hide Sane, Next, Overdue;
    } else if a.Release? {
      ReleaseStep(c, s, a.section, uuid);
      hide Sane, Next;
    } else {
      hide Overdue, Exclusive;
    }
  }

  ghost predicate AlwaysExclusive(c: Config, s: Sys, steps: seq<Step>, uuid: string)
    requires IsRun(c, s, steps)
    decreases steps
  {
    Exclusive(s, uuid) && (steps != [] ==> AlwaysExclusive(c, Next(c, s, steps[0]), steps[1..], uuid))
  }

  ghost predicate NeverOverdueAcquire(c: Config, s: Sys, steps: seq<Step>, uuid: string)
    requires IsRun(c, s, steps)
    decreases steps
  {
    steps != [] ==>
      !AcquiresOverdue(c, s, steps[0], uuid) && NeverOverdueAcquire(c, Next(c, s, steps[0]), steps[1..], uuid)
  }

  /** In any run, at most one server at a time is between a successful acquire and its end for
      a player exactly if nobody ever tries to acquire while a section of that player has
      outlived its lock. What the sections of other players do makes no difference. */
  lemma {:induction false} LockSafety(c: Config, s: Sys, steps: seq<Step>, uuid: string)
    requires Sane(c, s, uuid) && IsRun(c, s, steps)
    ensures AlwaysExclusive(c, s, steps, uuid) <==> NeverOverdueAcquire(c, s, steps, uuid)
    ensures NeverOverdueAcquire(c, s, steps, uuid) ==> Sane(c, After(c, s, steps), uuid)
    decreases steps
  {
    OwnLockExcludes(c, s, uuid);
    if steps != [] {
      ExclusionStep(c, s, steps[0], uuid);
      hide Sane, Exclusive, Next, Enabled, AcquiresOverdue, OwnLock;
      if AcquiresOverdue(c, s, steps[0], uuid) {
        assert !AlwaysExclusive(c, Next(c, s, steps[0]), steps[1..], uuid);
      } else {
        LockSafety(c, Next(c, s, steps[0]), steps[1..], uuid);
      }
    }
  }

  /** Every open section of the player is younger than its lock's TTL. */
  ghost predicate Timely(c: Config, s: Sys, uuid: string) {
    forall q | q in s.open && s.open[q].uuid == uuid :: s.now < s.open[q].start + c.lockTtl
  }

  ghost predicate AlwaysTimely(c: Config, s: Sys, steps: seq<Step>, uuid: string)
    requires IsRun(c, s, steps)
    decreases steps
  {
    Timely(c, s, uuid) && (steps != [] ==> AlwaysTimely(c, Next(c, s, steps[0]), steps[1..], uuid))
  }

  lemma {:induction false} TimelyNeverOverdue(c: Config, s: Sys, steps: seq<Step>, uuid: string)
    requires IsRun(c, s, steps) && AlwaysTimely(c, s, steps, uuid)
    ensures NeverOverdueAcquire(c, s, steps, uuid) && Timely(c, After(c, s, steps), uuid)
    decreases steps
  {
    if steps != [] {
      TimelyNeverOverdue(c, Next(c, s, steps[0]), steps[1..], uuid);
    }
  }

  /** While exclusion holds a release deletes the section's own lock, never another's. */
  lemma ReleaseIsOwn(c: Config, s: Sys, q: nat)
    requires q in s.open && Sane(c, s, s.open[q].uuid)
    ensures var uuid, s' := s.open[q].uuid, Next(c, s, Release(q));
            && uuid in s.locks && s.locks[uuid].value.section == q
            && s'.locks == s.locks - {uuid}
            && forall p | p in s'.open :: s'.open[p].uuid != uuid
  {
    OwnLockExcludes(c, s, s.open[q].uuid);
  }

  /** The release does not look whose lock it deletes: after an overrun it deletes the next
      server's, and a third one gets in. */
  lemma SlowSectionLosesAnothersLock(c: Config, uuid: string, a: string, b: string)
    ensures var s1 := Next(c, START, Acquire(1, uuid, a));
            var s2 := Next(c, s1, Wait(c.lockTtl));
            var s3 := Next(c, s2, Acquire(2, uuid, b));
            && s3.open.Keys == {1, 2} && !Exclusive(s3, uuid)
            && s3.locks[uuid].value == Owner(b, 2)
            && uuid !in Next(c, s3, Release(1)).locks
  {
    var s3 := Next(c, Next(c, Next(c, START, Acquire(1, uuid, a)), Wait(c.lockTtl)), Acquire(2, uuid, b));
    assert 1 in s3.open && 2 in s3.open && s3.open[1].uuid == uuid == s3.open[2].uuid;
  }

  // ---- the order of the sections --------------------------------------------------

  /** What was written by the last section, in the order of the acquires, that wrote anything. */
  function LastStored(turns: seq<Turn>, stored: map<nat, Write>, uuid: string): (r: Option<Write>)
    decreases |turns|
  {
    if turns == [] then None
    else
      var n := |turns| - 1;
      if turns[n].uuid == uuid && turns[n].section in stored then Some(stored[turns[n].section])
      else LastStored(turns[..n], stored, uuid)
  }

  function Newest(s: Sys, uuid: string): (r: Option<Write>) {
    LastStored(s.turns, s.stored, uuid)
  }

  function Bytes(w: Option<Write>): (r: Option<seq<byte>>) {
    if w.Some? then Some(w.value.bytes) else None
  }

  /** A section of the same player that acquired later has already stored. */
  ghost predicate Overtaken(turns: seq<Turn>, stored: map<nat, Write>, uuid: string, q: nat)
    decreases |turns|
  {
    turns != [] && turns[|turns| - 1].section != q
    && ((turns[|turns| - 1].uuid == uuid && turns[|turns| - 1].section in stored)
        || Overtaken(turns[..|turns| - 1], stored, uuid, q))
  }

  /** Section numbers are used once, and belong to one player. */
  ghost predicate Booked(s: Sys) {
    && (forall t | t in s.turns :: t.section in s.used)
    && (forall q | q in s.stored :: q in s.used)
    && (forall q | q in s.open :: q in s.used && Turn(s.open[q].uuid, q) in s.turns)
    && (forall t | t in s.turns && t.section in s.open :: t.uuid == s.open[t.section].uuid)
  }

  lemma {:induction false} StoredByOvertaken(turns: seq<Turn>, stored: map<nat, Write>, uuid: string, q: nat, w: Write)
    requires Turn(uuid, q) in turns && forall t | t in turns && t.section == q :: t.uuid == uuid
    ensures LastStored(turns, stored[q := w], uuid) ==
            if Overtaken(turns, stored, uuid, q) then LastStored(turns, stored, uuid) else Some(w)
    decreases |turns|
  {
    var n := |turns| - 1;
    if turns[n].section != q {
      assert forall t | t in turns :: t == turns[n] || t in turns[..n];
      if !(turns[n].uuid == uuid && turns[n].section in stored) {
        StoredByOvertaken(turns[..n], stored, uuid, q, w);
      }
    } else {
      assert turns[n] in turns;
    }
  }

  lemma {:induction false} StoredByOther(turns: seq<Turn>, stored: map<nat, Write>, uuid: string, q: nat, w: Write)
    requires forall t | t in turns && t.section == q :: t.uuid != uuid
    ensures LastStored(turns, stored[q := w], uuid) == LastStored(turns, stored, uuid)
    decreases |turns|
  {
    if turns != [] {
      var n := |turns| - 1;
      assert turns[n] in turns;
      assert forall t | t in turns[..n] :: t in turns;
      StoredByOther(turns[..n], stored, uuid, q, w);
    }
  }

  lemma NewTurn(s: Sys, t: Turn, uuid: string)
    requires t.section !in s.stored
    ensures LastStored(s.turns + [t], s.stored, uuid) == LastStored(s.turns, s.stored, uuid)
  {
    assert (s.turns + [t])[..|s.turns|] == s.turns;
  }

  function Saved(c: Config, s: Sys, bytes: seq<byte>): (w: Write) {
    Write(bytes, s.now, if c.atomicTtl then Some(s.now) else None)
  }

  /** The value under the data key, expired or not. */
  function Value(s: Sys, uuid: string): (r: Option<seq<byte>>) {
    if uuid in s.data then Some(s.data[uuid].value) else None
  }

  /** Exactly when a store leaves the newest section's bytes under the data key: unless a
      section that acquired later has already stored other bytes. */
  lemma LateStoreExactly(c: Config, s: Sys, q: nat, bytes: seq<byte>)
    requires Booked(s) && Enabled(c, s, Store(q, bytes))
    ensures var uuid, s' := s.open[q].uuid, Next(c, s, Store(q, bytes));
            && Value(s', uuid) == Some(bytes) && Newest(s', uuid).Some?
            && (Newest(s', uuid).value.bytes == bytes <==>
                  (Overtaken(s.turns, s.stored, uuid, q) ==> Bytes(Newest(s, uuid)) == Some(bytes)))
  {
    var uuid := s.open[q].uuid;
    StoredByOvertaken(s.turns, s.stored, uuid, q, Saved(c, s, bytes));
    if Overtaken(s.turns, s.stored, uuid, q) {
      OvertakenStored(s.turns, s.stored, uuid, q);
    }
  }

  lemma {:induction false} OvertakenStored(turns: seq<Turn>, stored: map<nat, Write>, uuid: string, q: nat)
    requires Overtaken(turns, stored, uuid, q)
    ensures LastStored(turns, stored, uuid).Some?
    decreases |turns|
  {
    var n := |turns| - 1;
    if !(turns[n].uuid == uuid && turns[n].section in stored) {
      OvertakenStored(turns[..n], stored, uuid, q);
    }
  }

  // ---- whose lock a release deletes -----------------------------------------------

  /** Every lock entry is that of the last section of its player to acquire. */
  ghost predicate LastHoldsLock(s: Sys) {
    forall u | u in s.locks ::
      var p := s.locks[u].value.section;
      && Turn(u, p) in s.turns && !Later(s.turns, u, p)
      && forall t | t in s.turns && t.section == p :: t.uuid == u
  }

  lemma {:induction false} LastHoldsLockStep(c: Config, s: Sys, a: Step)
    requires Booked(s) && LastHoldsLock(s) && Enabled(c, s, a)
    ensures LastHoldsLock(Next(c, s, a))
  {
    var s' := Next(c, s, a);
    if a.Acquire? && !Locked(s, a.uuid) {
      var t := Turn(a.uuid, a.section);
      assert s'.turns[|s.turns|] == t;
      forall u | u in s'.locks
        ensures var p := s'.locks[u].value.section;
                && Turn(u, p) in s'.turns && !Later(s'.turns, u, p)
                && forall t' | t' in s'.turns && t'.section == p :: t'.uuid == u
      {
        if u != a.uuid {
          var p := s.locks[u].value.section;
          assert Turn(u, p) in s.turns;
          LaterNewTurn(s, t, u, p);
        }
      }
    } else {
      hide Later;
    }
  }

  /** In every run from a state in which that holds, the empty store for one. */
  lemma {:induction false} LastAlwaysHoldsLock(c: Config, s: Sys, steps: seq<Step>)
    requires Booked(s) && LastHoldsLock(s) && IsRun(c, s, steps)
    ensures Booked(After(c, s, steps)) && LastHoldsLock(After(c, s, steps))
    decreases steps
  {
    hide Booked, LastHoldsLock, Next, Enabled;
    if steps != [] {
      BookedStep(c, s, steps[0]);
      LastHoldsLockStep(c, s, steps[0]);
      LastAlwaysHoldsLock(c, Next(c, s, steps[0]), steps[1..]);
    }
  }

  /** Of two sections of a player, one is later, seen from the other. */
  lemma {:induction false} OneIsLater(turns: seq<Turn>, uuid: string, p: nat, q: nat)
    requires p != q && Turn(uuid, p) in turns && Turn(uuid, q) in turns
    requires !Later(turns, uuid, p)
    requires forall t | t in turns && (t.section == p || t.section == q) :: t.uuid == uuid
    ensures Later(turns, uuid, q)
    decreases |turns|
  {
    var n := |turns| - 1;
    assert turns[n] in turns;
    if turns[n].section != p {
      assert forall t | t in turns :: t == turns[n] || t in turns[..n];
      assert forall t | t in turns[..n] :: t in turns;
      OneIsLater(turns[..n], uuid, p, q);
    }
  }

  /** The release does not look whose lock it deletes. In every reachable state it deletes that
      of another section exactly if the player has a lock and a section that acquired later. */
  lemma ReleaseTakesAnothersExactly(c: Config, s: Sys, q: nat)
    requires Booked(s) && LastHoldsLock(s) && q in s.open
    ensures var uuid, s' := s.open[q].uuid, Next(c, s, Release(q));
            && s'.locks == s.locks - {uuid}
            && ((uuid in s.locks && s.locks[uuid].value.section != q) <==>
                  uuid in s.locks && Later(s.turns, uuid, q))
  {
    var uuid := s.open[q].uuid;
    if uuid in s.locks && s.locks[uuid].value.section != q {
      OneIsLater(s.turns, uuid, s.locks[uuid].value.section, q);
    }
  }

  // ---- runs without overruns ------------------------------------------------------

  /** Without overruns: the player's open section is the last one, it has stored exactly if it
      is past its first phase, and the data key holds what the newest section stored, for no
      less than the data TTL. */
  ghost predicate InOrder(c: Config, s: Sys, uuid: string) {
    Booked(s) && LastOpen(s, uuid) && Holds(c, s, uuid)
  }

  ghost predicate LastOpen(s: Sys, uuid: string) {
    forall q | q in s.open && s.open[q].uuid == uuid ::
      && !Later(s.turns, uuid, q)
      && (s.open[q].phase == Acquired <==> q !in s.stored)
  }

  ghost predicate Holds(c: Config, s: Sys, uuid: string) {
    && (uuid in s.data <==> Newest(s, uuid).Some?)
    && (uuid in s.data ==>
          var w := Newest(s, uuid).value;
          && s.data[uuid].value == w.bytes
          && s.data[uuid].expires == (if w.ttlAt.Some? then Some(w.ttlAt.value + c.dataTtl) else None)
          && w.at <= s.now && (w.ttlAt.Some? ==> w.at <= w.ttlAt.value <= s.now))
  }

  /** Another section of the player acquired after this one. */
  ghost predicate Later(turns: seq<Turn>, uuid: string, q: nat)
    decreases |turns|
  {
    turns != [] && turns[|turns| - 1].section != q
    && (turns[|turns| - 1].uuid == uuid || Later(turns[..|turns| - 1], uuid, q))
  }

  lemma {:induction false} NotLaterNotOvertaken(turns: seq<Turn>, stored: map<nat, Write>, uuid: string, q: nat)
    requires !Later(turns, uuid, q)
    ensures !Overtaken(turns, stored, uuid, q)
    decreases |turns|
  {
    if turns != [] && turns[|turns| - 1].section != q {
      NotLaterNotOvertaken(turns[..|turns| - 1], stored, uuid, q);
    }
  }

  lemma LaterNewTurn(s: Sys, t: Turn, uuid: string, q: nat)
    requires t.section != q
    ensures Later(s.turns + [t], uuid, q) <==> t.uuid == uuid || Later(s.turns, uuid, q)
  {
    assert (s.turns + [t])[..|s.turns|] == s.turns;
  }

  lemma BookedAcquire(c: Config, s: Sys, q: nat, u: string, server: string)
    requires q !in s.used && Booked(s)
    ensures Booked(Next(c, s, Acquire(q, u, server)))
  {
    var turns := s.turns + [Turn(u, q)];
    assert forall t | t in turns :: t in s.turns || t == Turn(u, q);
    assert forall t | t in s.turns :: t in turns;
    assert turns[|s.turns|] == Turn(u, q);
  }

  lemma {:induction false} BookedStep(c: Config, s: Sys, a: Step)
    requires Enabled(c, s, a) && Booked(s)
    ensures Booked(Next(c, s, a))
  {
    if a.Acquire? {
      BookedAcquire(c, s, a.section, a.uuid, a.server);
      hide Booked, Next;
    } else {
      hide Booked;
      SameBooks(s, Next(c, s, a));
    }
  }

  lemma SameBooks(s: Sys, s': Sys)
    requires Booked(s) && s'.turns == s.turns && s'.used == s.used
    requires forall q | q in s'.open :: q in s.open && s'.open[q].uuid == s.open[q].uuid
    requires forall q | q in s'.stored :: q in s.stored || q in s.open
    ensures Booked(s')
  {
  }

  lemma AcquireKeepsLastOpen(c: Config, s: Sys, q: nat, u: string, server: string, uuid: string)
    requires Sane(c, s, uuid) && Booked(s) && LastOpen(s, uuid) && q !in s.used
    requires u == uuid ==> !Overdue(c, s, uuid)
    ensures LastOpen(Next(c, s, Acquire(q, u, server)), uuid)
  {
    if !Locked(s, u) {
      if u == uuid {
        assert forall p | p in s.open :: s.open[p].uuid != uuid;
      }
      forall p | p in s.open && s.open[p].uuid == uuid
        ensures !Later(s.turns + [Turn(u, q)], uuid, p)
      {
        LaterNewTurn(s, Turn(u, q), uuid, p);
      }
    }
  }

  lemma {:induction false} OthersKeepLastOpen(c: Config, s: Sys, a: Step, uuid: string)
    requires Enabled(c, s, a) && !a.Acquire? && LastOpen(s, uuid)
    ensures LastOpen(Next(c, s, a), uuid)
  {
    hide Later;
    match a
    case Store(_, _) =>
    case Expire(_) =>
    case Persist(_, _) =>
    case Release(_) =>
    case Crash(_) =>
    case Wait(_) =>
  }

  lemma StoreKeepsHolds(c: Config, s: Sys, q: nat, bytes: seq<byte>, uuid: string)
    requires Enabled(c, s, Store(q, bytes)) && InOrder(c, s, uuid)
    ensures Holds(c, Next(c, s, Store(q, bytes)), uuid)
  {
    var u := s.open[q].uuid;
    if u == uuid {
      NotLaterNotOvertaken(s.turns, s.stored, uuid, q);
      StoredByOvertaken(s.turns, s.stored, uuid, q, Saved(c, s, bytes));
    } else {
      StoredByOther(s.turns, s.stored, uuid, q, Saved(c, s, bytes));
    }
  }

  lemma {:induction false} OthersKeepNewest(c: Config, s: Sys, a: Step, uuid: string)
    requires Enabled(c, s, a) && !a.Store? && !a.Expire? && Booked(s)
    ensures Newest(Next(c, s, a), uuid) == Newest(s, uuid)
  {
    if a.Acquire? {
      assert a.section !in s.stored;
      NewTurn(s, Turn(a.uuid, a.section), uuid);
    }
    hide Booked, LastStored;
  }

  lemma {:induction false} OthersKeepHolds(c: Config, s: Sys, a: Step, uuid: string)
    requires Enabled(c, s, a) && !a.Store? && !a.Expire? && Booked(s) && Holds(c, s, uuid)
    ensures Holds(c, Next(c, s, a), uuid)
  {
    hide Booked, Newest, Holds;
    OthersKeepNewest(c, s, a, uuid);
    SameHolds(c, s, Next(c, s, a), uuid);
  }

  lemma SameHolds(c: Config, s: Sys, s': Sys, uuid: string)
    requires Holds(c, s, uuid) && s'.data == s.data && s'.now >= s.now && Newest(s', uuid) == Newest(s, uuid)
    ensures Holds(c, s', uuid)
  {
    hide Newest;
  }

  lemma ExpireKeepsHolds(c: Config, s: Sys, q: nat, uuid: string)
    requires Enabled(c, s, Expire(q)) && InOrder(c, s, uuid)
    ensures Holds(c, Next(c, s, Expire(q)), uuid)
  {
    var u := s.open[q].uuid;
    if q in s.stored {
      var w := s.stored[q].(ttlAt := Some(s.now));
      if u == uuid {
        NotLaterNotOvertaken(s.turns, s.stored, uuid, q);
        StoredByOvertaken(s.turns, s.stored, uuid, q, w);
        StoredByOvertaken(s.turns, s.stored, uuid, q, s.stored[q]);
        assert s.stored[q := s.stored[q]] == s.stored;
      } else {
        StoredByOther(s.turns, s.stored, uuid, q, w);
      }
    }
    hide Booked, LastStored, Later, Overtaken;
  }

  lemma {:induction false} OrderStep(c: Config, s: Sys, a: Step, uuid: string)
    requires Sane(c, s, uuid) && InOrder(c, s, uuid) && Enabled(c, s, a) && !AcquiresOverdue(c, s, a, uuid)
    ensures InOrder(c, Next(c, s, a), uuid)
  {
    hide Sane, Booked, LastOpen, Holds, Next;
    BookedStep(c, s, a);
    if a.Acquire? {
      AcquireKeepsLastOpen(c, s, a.section, a.uuid, a.server, uuid);
    } else {
      OthersKeepLastOpen(c, s, a, uuid);
    }
    if a.Store? {
      StoreKeepsHolds(c, s, a.section, a.bytes, uuid);
    } else if a.Expire? {
      ExpireKeepsHolds(c, s, a.section, uuid);
    } else {
      OthersKeepHolds(c, s, a, uuid);
    }
  }

  /** As long as nobody acquires over an overdue section, the data key holds what the last
      section, in the order of the acquires, stored. */
  lemma {:induction false} DataStaysNewest(c: Config, s: Sys, steps: seq<Step>, uuid: string)
    requires Sane(c, s, uuid) && InOrder(c, s, uuid) && IsRun(c, s, steps) && NeverOverdueAcquire(c, s, steps, uuid)
    ensures Sane(c, After(c, s, steps), uuid) && InOrder(c, After(c, s, steps), uuid)
    decreases steps
  {
    hide Sane, InOrder, Next, Enabled, AcquiresOverdue;
    if steps != [] {
      ExclusionStep(c, s, steps[0], uuid);
      OrderStep(c, s, steps[0], uuid);
      DataStaysNewest(c, Next(c, s, steps[0]), steps[1..], uuid);
    }
  }

  // ---- expiry -----------------------------------------------------------------------

  /** A store of the player's data, or a TTL command that finds some. */
  predicate Writes(s: Sys, a: Step, uuid: string) {
    (a.Store? || a.Expire?) && a.section in s.open && s.open[a.section].uuid == uuid
  }

  ghost predicate NoWrites(c: Config, s: Sys, steps: seq<Step>, uuid: string)
    requires IsRun(c, s, steps)
    decreases steps
  {
    steps != [] ==> !Writes(s, steps[0], uuid) && NoWrites(c, Next(c, s, steps[0]), steps[1..], uuid)
  }

  lemma {:induction false} EntryStays(c: Config, s: Sys, steps: seq<Step>, uuid: string)
    requires IsRun(c, s, steps) && NoWrites(c, s, steps, uuid) && uuid in s.data
    ensures uuid in After(c, s, steps).data && After(c, s, steps).data[uuid] == s.data[uuid]
    decreases steps
  {
    if steps != [] {
      EntryStays(c, Next(c, s, steps[0]), steps[1..], uuid);
    }
  }

  /** The data TTL is set at `s.now`, by the store itself or by the command after it, and no
      other store or TTL command of the player follows: then a read finds the bytes exactly as
      long as the TTL has not passed. */
  lemma ReadableExactly(c: Config, s: Sys, a: Step, bytes: seq<byte>, steps: seq<Step>, uuid: string)
    requires Enabled(c, s, a) && Writes(s, a, uuid)
    requires if a.Store? then c.atomicTtl && a.bytes == bytes
             else
               && uuid in s.data && s.data[uuid].value == bytes
               && (s.data[uuid].expires.Some? ==> s.now < s.data[uuid].expires.value)
    requires IsRun(c, Next(c, s, a), steps) && NoWrites(c, Next(c, s, a), steps, uuid)
    ensures var s' := After(c, Next(c, s, a), steps);
            Load(s', uuid) == if s'.now < s.now + c.dataTtl then Some(bytes) else None
  {
    EntryStays(c, Next(c, s, a), steps, uuid);
  }

  /** A store whose TTL command never arrives stays for ever. */
  lemma ReadableForEver(c: Config, s: Sys, q: nat, bytes: seq<byte>, steps: seq<Step>, uuid: string)
    requires Enabled(c, s, Store(q, bytes)) && s.open[q].uuid == uuid && !c.atomicTtl
    requires IsRun(c, Next(c, s, Store(q, bytes)), steps) && NoWrites(c, Next(c, s, Store(q, bytes)), steps, uuid)
    ensures Load(After(c, Next(c, s, Store(q, bytes)), steps), uuid) == Some(bytes)
  {
    EntryStays(c, Next(c, s, Store(q, bytes)), steps, uuid);
  }

  /** The limits of the two instances, in milliseconds: how long a lock outlives a server that
      died, and how long data is there for a reader. */
  lemma Limits(uuid: string, a: string, bytes: seq<byte>)
    ensures var died := Next(PAPER, Next(PAPER, START, Acquire(1, uuid, a)), Crash(1));
            Locked(Next(PAPER, died, Wait(29_999)), uuid) && !Locked(Next(PAPER, died, Wait(30_000)), uuid)
    ensures var died := Next(CLOUD, Next(CLOUD, START, Acquire(1, uuid, a)), Crash(1));
            Locked(Next(CLOUD, died, Wait(9_999)), uuid) && !Locked(Next(CLOUD, died, Wait(10_000)), uuid)
    ensures var s := Next(PAPER, Next(PAPER, Next(PAPER, START, Acquire(1, uuid, a)), Store(1, bytes)), Expire(1));
            && Load(Next(PAPER, s, Wait(299_999)), uuid) == Some(bytes)
            && Load(Next(PAPER, s, Wait(300_000)), uuid) == None
    ensures var s := Next(CLOUD, Next(CLOUD, START, Acquire(1, uuid, a)), Store(1, bytes));
            && Load(Next(CLOUD, s, Wait(29_999)), uuid) == Some(bytes)
            && Load(Next(CLOUD, s, Wait(30_000)), uuid) == None
  {
  }

  // ---- handover -----------------------------------------------------------------

  /** No server tries to open a quit section for this player. */
  ghost predicate NoNewSection(steps: seq<Step>, uuid: string) {
    forall a | a in steps && a.Acquire? :: a.uuid != uuid
  }

  ghost predicate NoSection(s: Sys, uuid: string) {
    forall q | q in s.open :: s.open[q].uuid != uuid
  }

  /** Every open section of the player has stored. */
  ghost predicate NonePending(s: Sys, uuid: string) {
    forall q | q in s.open && s.open[q].uuid == uuid :: s.open[q].phase != Acquired
  }

  /** Whatever the sections that are open now still do, the value stays. */
  ghost predicate Final(c: Config, s: Sys, uuid: string) {
    forall steps | IsRun(c, s, steps) && NoNewSection(steps, uuid) :: Value(After(c, s, steps), uuid) == Value(s, uuid)
  }

  lemma {:induction false} NothingPendingStaysSo(c: Config, s: Sys, steps: seq<Step>, uuid: string)
    requires IsRun(c, s, steps) && NonePending(s, uuid) && NoNewSection(steps, uuid)
    ensures NonePending(After(c, s, steps), uuid) && Value(After(c, s, steps), uuid) == Value(s, uuid)
    decreases steps
  {
    hide Next, Enabled, NonePending, Value;
    if steps != [] {
      assert steps[0] in steps;
      assert forall a | a in steps[1..] :: a in steps;
      NothingPendingStep(c, s, steps[0], uuid);
      NothingPendingStaysSo(c, Next(c, s, steps[0]), steps[1..], uuid);
    }
  }

  lemma {:induction false} NothingPendingStep(c: Config, s: Sys, a: Step, uuid: string)
    requires Enabled(c, s, a) && NonePending(s, uuid) && (a.Acquire? ==> a.uuid != uuid)
    ensures NonePending(Next(c, s, a), uuid) && Value(Next(c, s, a), uuid) == Value(s, uuid)
  {
  }

  /** What a reader finds is final exactly if no open section of the player has yet to store. */
  lemma FinalExactly(c: Config, s: Sys, uuid: string)
    ensures Final(c, s, uuid) <==> NonePending(s, uuid)
  {
    if NonePending(s, uuid) {
      forall steps | IsRun(c, s, steps) && NoNewSection(steps, uuid)
        ensures Value(After(c, s, steps), uuid) == Value(s, uuid)
      {
        NothingPendingStaysSo(c, s, steps, uuid);
      }
    } else {
      var q :| q in s.open && s.open[q].uuid == uuid && s.open[q].phase == Acquired;
      var steps := [Store(q, if Value(s, uuid) == Some([0]) then [] else [0])];
      OneStep(c, s, steps[0]);
      assert NoNewSection(steps, uuid);
      assert Value(After(c, s, steps), uuid) != Value(s, uuid);
    }
  }

  lemma OneStep(c: Config, s: Sys, a: Step)
    requires Enabled(c, s, a)
    ensures IsRun(c, s, [a]) && After(c, s, [a]) == Next(c, s, a)
  {
    assert [a][1..] == [];
  }

  /** Without an open section, and without a new one, nothing is stored. */
  lemma {:induction false} NothingStored(c: Config, s: Sys, steps: seq<Step>, uuid: string)
    requires IsRun(c, s, steps) && Booked(s) && NoSection(s, uuid) && NoNewSection(steps, uuid)
    ensures NoSection(After(c, s, steps), uuid) && Newest(After(c, s, steps), uuid) == Newest(s, uuid)
    ensures NeverOverdueAcquire(c, s, steps, uuid)
    decreases steps
  {
    if steps != [] {
      assert steps[0] in steps;
      assert forall a | a in steps[1..] :: a in steps;
      QuietStep(c, s, steps[0], uuid);
      hide Next, Enabled, Booked, NoSection, Newest;
      NothingStored(c, Next(c, s, steps[0]), steps[1..], uuid);
    }
  }

  lemma {:induction false} QuietStep(c: Config, s: Sys, a: Step, uuid: string)
    requires Enabled(c, s, a) && Booked(s) && NoSection(s, uuid) && (a.Acquire? ==> a.uuid != uuid)
    ensures var s' := Next(c, s, a);
            Booked(s') && NoSection(s', uuid) && Newest(s', uuid) == Newest(s, uuid)
    ensures !AcquiresOverdue(c, s, a, uuid)
  {
    hide Booked, LastStored, Newest, Locked, Next, NoSection;
    BookedStep(c, s, a);
    QuietStore(c, s, a, uuid);
    NoSectionStep(c, s, a, uuid);
  }

  lemma {:induction false} NoSectionStep(c: Config, s: Sys, a: Step, uuid: string)
    requires Enabled(c, s, a) && NoSection(s, uuid) && (a.Acquire? ==> a.uuid != uuid)
    ensures NoSection(Next(c, s, a), uuid) && !AcquiresOverdue(c, s, a, uuid)
  {
    hide Locked;
  }

  lemma {:induction false} QuietStore(c: Config, s: Sys, a: Step, uuid: string)
    requires Enabled(c, s, a) && Booked(s) && NoSection(s, uuid)
    ensures Newest(Next(c, s, a), uuid) == Newest(s, uuid)
  {
    if a.Acquire? {
      NewTurn(s, Turn(a.uuid, a.section), uuid);
    } else if a.Store? {
      StoredByOther(s.turns, s.stored, uuid, a.section, Saved(c, s, a.bytes));
    } else if a.Expire? && a.section in s.stored {
      StoredByOther(s.turns, s.stored, uuid, a.section, s.stored[a.section].(ttlAt := Some(s.now)));
    }
    hide Booked, LastStored;
  }

  /** A free lock means that nobody is in a section, if sections do not outlive their locks. */
  lemma FreeLockNoSection(c: Config, s: Sys, uuid: string)
    requires Sane(c, s, uuid) && Timely(c, s, uuid) && !Locked(s, uuid)
    ensures NoSection(s, uuid)
  {
  }

  /** Pre-login saw the lock gone at the end of `before`; the join reads the data key at the end
      of `between`. If no section of this player overran its lock up to the check, and none
      began between check and join, then no section is open at the check or at the join, what
      the check would have read is final, and the join gets exactly the bytes of the last
      section, in the order of the acquires, that stored any, or nothing if there is none or
      the data TTL has passed since it was set. Within the data TTL of that store it has not. */
  lemma HandoverDelivers(c: Config, s0: Sys, before: seq<Step>, between: seq<Step>, uuid: string)
    requires Sane(c, s0, uuid) && InOrder(c, s0, uuid)
    requires IsRun(c, s0, before) && AlwaysTimely(c, s0, before, uuid)
    requires IsRun(c, After(c, s0, before), between)
    requires !Locked(After(c, s0, before), uuid)
    requires NoNewSection(between, uuid)
    ensures var atCheck := After(c, s0, before);
            var s := After(c, atCheck, between);
            && NoSection(atCheck, uuid) && NoSection(s, uuid) && Final(c, atCheck, uuid)
            && Newest(s, uuid) == Newest(atCheck, uuid)
            && Value(s, uuid) == Bytes(Newest(s, uuid))
            && Load(s, uuid) == (if Readable(c, s, uuid) then Bytes(Newest(s, uuid)) else None)
            && (Fresh(c, s, uuid) ==> Load(s, uuid) == Bytes(Newest(s, uuid)))
  {
    var s := After(c, s0, before);
    TimelyNeverOverdue(c, s0, before, uuid);
    DataStaysNewest(c, s0, before, uuid);
    FreeLockNoSection(c, s, uuid);
    FinalExactly(c, s, uuid);
    NothingStored(c, s, between, uuid);
    DataStaysNewest(c, s, between, uuid);
  }

  /** The data TTL since it was set has not passed, or it was never set. */
  predicate Readable(c: Config, s: Sys, uuid: string) {
    var w := Newest(s, uuid);
    w.Some? && (w.value.ttlAt.None? || s.now < w.value.ttlAt.value + c.dataTtl)
  }

  /** The data TTL since the newest store has not passed. */
  predicate Fresh(c: Config, s: Sys, uuid: string) {
    Newest(s, uuid).Some? ==> s.now < Newest(s, uuid).value.at + c.dataTtl
  }

  lemma StartIsSane(c: Config, uuid: string)
    ensures Sane(c, START, uuid) && InOrder(c, START, uuid) && LastHoldsLock(START)
  {
  }

  /** The same from the empty store on, for both instances and for as many servers and players
      as there are. */
  lemma HandoverFromStart(c: Config, before: seq<Step>, between: seq<Step>, uuid: string)
    requires c == PAPER || c == CLOUD
    requires IsRun(c, START, before) && AlwaysTimely(c, START, before, uuid)
    requires IsRun(c, After(c, START, before), between)
    requires !Locked(After(c, START, before), uuid)
    requires NoNewSection(between, uuid) && Fresh(c, After(c, After(c, START, before), between), uuid)
    ensures var s := After(c, After(c, START, before), between);
            Load(s, uuid) == Bytes(Newest(s, uuid))
  {
    StartIsSane(c, uuid);
    HandoverDelivers(c, START, before, between, uuid);
  }

  /** Why sections must not overrun, first: the lock of a slow section expires, the check passes
      and the reader loads the old bytes, which the section then replaces. */
  lemma SlowSectionHandsOverStale(c: Config, uuid: string, a: string, old': seq<byte>, new': seq<byte>)
    requires c.dataTtl > c.lockTtl
    ensures var s1 := Next(c, Next(c, START, Acquire(1, uuid, a)), Store(1, old'));
            var s2 := Next(c, Next(c, s1, Release(1)), Acquire(2, uuid, a));
            var s3 := Next(c, s2, Wait(c.lockTtl));
            && Exclusive(s3, uuid) && !Locked(s3, uuid) && Load(s3, uuid) == Some(old')
            && !NoSection(s3, uuid) && !Final(c, s3, uuid)
            && Enabled(c, s3, Store(2, new'))
            && Load(Next(c, s3, Store(2, new')), uuid) == Some(new')
  {
    var s1 := Next(c, Next(c, START, Acquire(1, uuid, a)), Store(1, old'));
    var s2 := Next(c, Next(c, s1, Release(1)), Acquire(2, uuid, a));
    var s3 := Next(c, s2, Wait(c.lockTtl));
    assert s2.open.Keys == {2};
    assert 2 in s3.open && s3.open[2].phase == Acquired;
    FinalExactly(c, s3, uuid);
  }

  /** And second: the slow section stores after a later one has come and gone, and the reader
      gets the bytes of the earlier one. */
  lemma SlowSectionOverwritesNewer(c: Config, uuid: string, a: string, b: string, old': seq<byte>, new': seq<byte>)
    requires c.dataTtl > 0 && old' != new'
    ensures var s2 := Next(c, Next(c, START, Acquire(1, uuid, a)), Wait(c.lockTtl));
            var s3 := Next(c, Next(c, s2, Acquire(2, uuid, b)), Store(2, new'));
            var s4 := Next(c, Next(c, s3, Release(2)), Store(1, old'));
            && !Locked(s4, uuid) && Load(s4, uuid) == Some(old')
            && Bytes(Newest(s4, uuid)) == Some(new')
  {
    var s1 := Next(c, START, Acquire(1, uuid, a));
    var s2 := Next(c, s1, Wait(c.lockTtl));
    var s3 := Next(c, Next(c, s2, Acquire(2, uuid, b)), Store(2, new'));
    assert s3.turns == [Turn(uuid, 1), Turn(uuid, 2)];
    assert s3.open[1].phase == Acquired;
  }
}
