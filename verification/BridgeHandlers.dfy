/** The event handlers of the Paper plugins as they run: a sequence of store commands, any of
    which may throw, with any number of steps of other servers before, between and after them
    (AetherPaperPlugin.kt, PlayerQuitHandler.kt, PlayerPreLoginHandler.kt). */
module BridgeHandlers {
  import opened Types
  import opened Handover

  predicate By(a: Step, me: nat) {
    !a.Wait? && a.section == me
  }

  /** The steps of one section within a run. */
  function Mine(steps: seq<Step>, me: nat): (r: seq<Step>)
    decreases steps
  {
    if steps == [] then []
    else (if By(steps[0], me) then [steps[0]] else []) + Mine(steps[1..], me)
  }

  lemma {:induction false} MineConcat(a: seq<Step>, b: seq<Step>, me: nat)
    ensures Mine(a + b, me) == Mine(a, me) + Mine(b, me)
    decreases a
  {
    hide By;
    if a == [] {
      assert a + b == b;
    } else {
      assert (a + b)[0] == a[0] && (a + b)[1..] == a[1..] + b;
      MineConcat(a[1..], b, me);
      var first := if By(a[0], me) then [a[0]] else [];
      assert first + (Mine(a[1..], me) + Mine(b, me)) == (first + Mine(a[1..], me)) + Mine(b, me);
    }
  }

  /** What a section can count on while others run. */
  lemma {:induction false} OthersLeaveMine(c: Config, s: Sys, steps: seq<Step>, me: nat)
    requires IsRun(c, s, steps) && Mine(steps, me) == []
    ensures var s' := After(c, s, steps);
            && (me in s.open <==> me in s'.open)
            && (me in s.open ==> s'.open[me] == s.open[me])
            && (me in s.used <==> me in s'.used)
            && s'.now >= s.now
    decreases steps
  {
    if steps != [] {
      OthersLeaveMine(c, Next(c, s, steps[0]), steps[1..], me);
    }
  }

  lemma {:induction false} ClockForward(c: Config, s: Sys, steps: seq<Step>)
    requires IsRun(c, s, steps)
    ensures After(c, s, steps).now >= s.now
    decreases steps
  {
    if steps != [] {
      ClockForward(c, Next(c, s, steps[0]), steps[1..]);
    }
  }

  /** The shared store and the clock, with everything that happened since `origin`. */
  class Net {
    const config: Config
    var sys: Sys
    ghost const origin: Sys
    ghost var history: seq<Step>

    ghost predicate Valid()
      reads this
    {
      IsRun(config, origin, history) && sys == After(config, origin, history)
    }

    constructor (config: Config)
      ensures Valid() && this.config == config && sys == origin == START && history == []
    {
      this.config, sys, origin, history := config, START, START, [];
    }

    method Do(a: Step)
      requires Valid() && Enabled(config, sys, a)
      modifies this
      ensures Valid() && sys == Next(config, old(sys), a) && history == old(history) + [a]
    {
      ghost var one := [a];
      assert one[1..] == [];
      RunConcat(config, origin, history, one);
      sys := Next(config, sys, a);
      history := history + [a];
    }

    /** Any steps of others happen here. */
    method Others(me: nat)
      requires Valid()
      modifies this
      ensures Valid()
      ensures exists steps :: history == old(history) + steps && Mine(steps, me) == []
                           && IsRun(config, old(sys), steps) && sys == After(config, old(sys), steps)
    {
      assert IsRun(config, sys, []) && Mine([], me) == [];
      var steps: seq<Step> :| IsRun(config, sys, steps) && Mine(steps, me) == [];
      RunConcat(config, origin, history, steps);
      sys := After(config, sys, steps);
      history := history + steps;
    }

    /** The same for somebody who has no section open. */
    method Anything()
      requires Valid()
      modifies this
      ensures Valid() && old(history) <= history && sys.now >= old(sys).now
    {
      assert IsRun(config, sys, []);
      var steps: seq<Step> :| IsRun(config, sys, steps);
      RunConcat(config, origin, history, steps);
      ClockForward(config, sys, steps);
      sys := After(config, sys, steps);
      history := history + steps;
    }

    /** Thread.sleep: others run, and the clock moves on by at least that much. */
    method Sleep(ms: nat)
      requires Valid()
      modifies this
      ensures Valid()
      ensures old(history) <= history
      ensures sys.now >= old(sys).now + ms
    {
      Do(Wait(ms));
    }

    /** Others, for a section that is running. */
    method Interference(me: nat)
      requires Valid()
      modifies this
      ensures Valid()
      ensures old(history) <= history && Mine(history[|old(history)|..], me) == []
      ensures me in sys.open <==> me in old(sys).open
      ensures me in sys.open ==> sys.open[me] == old(sys).open[me]
      ensures me in sys.used <==> me in old(sys).used
    {
      ghost var s, h := sys, history;
      Others(me);
      ghost var steps :| history == h + steps && Mine(steps, me) == []
                         && IsRun(config, s, steps) && sys == After(config, s, steps);
      OthersLeaveMine(config, s, steps, me);
      assert history[|h|..] == steps;
    }

    /** One store command of the section: others first, then the step itself. */
    method Take(me: nat, a: Step)
      requires Valid() && By(a, me)
      requires a.Acquire? ==> me !in sys.used && me !in sys.open
      requires a.Store? ==> me in sys.open && sys.open[me].phase == Acquired
      requires a.Expire? ==> me in sys.open && sys.open[me].phase == Written && !config.atomicTtl
      requires a.Persist? ==> me in sys.open && sys.open[me].phase == Stored && config.durable
      requires a.Release? || a.Crash? ==> me in sys.open
      modifies this
      ensures Valid()
      ensures old(history) <= history && Mine(history[|old(history)|..], me) == [a]
      ensures a.Acquire? && me in sys.open ==> sys.open[me].phase == Acquired
      ensures a.Store? ==> me in sys.open && sys.open[me].phase == if config.atomicTtl then Stored else Written
      ensures a.Expire? || a.Persist? ==> me in sys.open
      ensures a.Release? || a.Crash? ==> me !in sys.open
      ensures !a.Acquire? ==> (me in sys.used <==> me in old(sys).used)
    {
      ghost var h := history;
      Interference(me);
      ghost var h1 := history;
      Do(a);
      assert [a][1..] == [] && Mine([a], me) == [a];
      MineConcat(h1[|h|..], [a], me);
      assert history[|h|..] == h1[|h|..] + [a];
    }
  }

  /** How a command ends for its caller: with an answer, or by throwing, in which case it never
      reached the store, or did and only the answer was lost. */
  datatype Answer = Answered | NotSent | Unanswered

  /** What goes wrong in one run of a quit handler. `expire` is the second command of a store
      that takes two, `database` the write to MariaDB, which is skipped without throwing where
      there is no connection pool. */
  datatype Faults = Faults(
    acquire: Answer, store: Answer, expire: Answer, pool: bool, database: Answer, release: Answer)

  /** The steps a quit section takes, given what goes wrong and whether it got the lock. A
      section that ends without deleting its lock ends like one that died. */
  ghost function QuitSteps(
    c: Config, f: Faults, me: nat, uuid: string, server: string, bytes: Option<seq<byte>>, won: bool): (r: seq<Step>)
  {
    if f.acquire.NotSent? then []
    else if !won then [Acquire(me, uuid, server)]
    else if f.acquire.Unanswered? then [Acquire(me, uuid, server), Crash(me)]
    else [Acquire(me, uuid, server)] + StoreSteps(c, f, me, bytes) + [Closing(f, me)]
  }

  ghost function StoreSteps(c: Config, f: Faults, me: nat, bytes: Option<seq<byte>>): (r: seq<Step>) {
    if bytes.None? || f.store.NotSent? then []
    else if f.store.Unanswered? then [Store(me, bytes.value)]
    else [Store(me, bytes.value)] + AfterStore(c, f, me, bytes.value)
  }

  ghost function AfterStore(c: Config, f: Faults, me: nat, bytes: seq<byte>): (r: seq<Step>) {
    if !c.atomicTtl then if f.expire.NotSent? then [] else [Expire(me)]
    else if c.durable && f.pool && !f.database.NotSent? then [Persist(me, bytes)]
    else []
  }

  function Closing(f: Faults, me: nat): (r: Step) {
    if f.release.NotSent? then Crash(me) else Release(me)
  }

  lemma AppendMine(h: seq<Step>, h1: seq<Step>, h2: seq<Step>, me: nat)
    requires h <= h1 <= h2
    ensures Mine(h2[|h|..], me) == Mine(h1[|h|..], me) + Mine(h2[|h1|..], me)
  {
    assert h2[|h|..] == h1[|h|..] + h2[|h1|..];
    MineConcat(h1[|h|..], h2[|h1|..], me);
  }

  /** AetherPaperPlugin.onQuit: what throws inside the try block, serializing included, ends it
      there. */
  method OnQuit(net: Net, me: nat, uuid: string, server: string, serialized: Option<seq<byte>>, faults: Faults)
    returns (won: bool)
    requires net.Valid() && me !in net.sys.used && me !in net.sys.open && !net.config.atomicTtl
    modifies net
    ensures net.Valid() && me !in net.sys.open
    ensures old(net.history) <= net.history
    ensures Mine(net.history[|old(net.history)|..], me)
         == QuitSteps(net.config, faults, me, uuid, server, serialized, won)
  {
    ghost var h := net.history;
    assert h[|h|..] == [];
    var acquired;
    won, acquired := TryAcquire(net, me, uuid, server, faults.acquire);
    if !acquired {
      return;
    }
    ghost var h1 := net.history;
    StoreThenExpire(net, me, serialized, faults);
    ghost var h2 := net.history;
    AppendMine(h, h1, h2, me);
    net.Take(me, Closing(faults, me));
    AppendMine(h, h2, net.history, me);
  }

  /** The try block: serialize, SET, EXPIRE. */
  method StoreThenExpire(net: Net, me: nat, serialized: Option<seq<byte>>, faults: Faults)
    requires net.Valid() && !net.config.atomicTtl
    requires me in net.sys.open && net.sys.open[me].phase == Acquired
    modifies net
    ensures net.Valid() && me in net.sys.open
    ensures old(net.history) <= net.history
    ensures Mine(net.history[|old(net.history)|..], me) == StoreSteps(net.config, faults, me, serialized)
  {
    ghost var h := net.history;
    assert h[|h|..] == [];
    if serialized.None? || faults.store.NotSent? {
      return;
    }
    net.Take(me, Store(me, serialized.value));
    if faults.store.Unanswered? || faults.expire.NotSent? {
      return;
    }
    ghost var h1 := net.history;
    net.Take(me, Expire(me));
    AppendMine(h, h1, net.history, me);
  }

  /** SET NX of the lock key. Where it threw after reaching the store, the lock it may have left
      is one that nobody is going to release. */
  method TryAcquire(net: Net, me: nat, uuid: string, server: string, answer: Answer)
    returns (won: bool, acquired: bool)
    requires net.Valid() && me !in net.sys.used && me !in net.sys.open
    modifies net
    ensures net.Valid()
    ensures old(net.history) <= net.history
    ensures acquired == (won && answer.Answered?)
    ensures if acquired then me in net.sys.open && net.sys.open[me].phase == Acquired else me !in net.sys.open
    ensures Mine(net.history[|old(net.history)|..], me) ==
            if answer.NotSent? then []
            else if won && answer.Unanswered? then [Acquire(me, uuid, server), Crash(me)]
            else [Acquire(me, uuid, server)]
  {
    ghost var h := net.history;
    assert h[|h|..] == [];
    won := false;
    if answer.NotSent? {
      return false, false;
    }
    net.Take(me, Acquire(me, uuid, server));
    won := me in net.sys.open;
    acquired := won && answer.Answered?;
    if won && answer.Unanswered? {
      ghost var h1 := net.history;
      net.Take(me, Crash(me));
      AppendMine(h, h1, net.history, me);
    }
  }

  /** PlayerQuitHandler.onPlayerQuit: the profile is serialized before the lock is taken, the
      data key is written with its TTL in one command, and MariaDB after that. Whatever throws
      from then on, the finally block releases the lock. */
  method OnPlayerQuit(net: Net, me: nat, uuid: string, server: string, serialized: Option<seq<byte>>, faults: Faults)
    returns (won: bool)
    requires net.Valid() && me !in net.sys.used && me !in net.sys.open && net.config.atomicTtl && net.config.durable
    modifies net
    ensures net.Valid() && me !in net.sys.open
    ensures old(net.history) <= net.history
    ensures Mine(net.history[|old(net.history)|..], me) ==
            if serialized.None? then [] else QuitSteps(net.config, faults, me, uuid, server, serialized, won)
  {
    ghost var h := net.history;
    assert h[|h|..] == [];
    won := false;
    if serialized.None? {
      return;
    }
    var acquired;
    won, acquired := TryAcquire(net, me, uuid, server, faults.acquire);
    if !acquired {
      return;
    }
    ghost var h1 := net.history;
    StoreBoth(net, me, serialized.value, faults);
    ghost var h2 := net.history;
    AppendMine(h, h1, h2, me);
    net.Take(me, Closing(faults, me));
    AppendMine(h, h2, net.history, me);
  }

  /** The try block: an exception of the first write skips the second. */
  method StoreBoth(net: Net, me: nat, bytes: seq<byte>, faults: Faults)
    requires net.Valid() && net.config.atomicTtl && net.config.durable
    requires me in net.sys.open && net.sys.open[me].phase == Acquired
    modifies net
    ensures net.Valid() && me in net.sys.open
    ensures old(net.history) <= net.history
    ensures Mine(net.history[|old(net.history)|..], me) == StoreSteps(net.config, faults, me, Some(bytes))
  {
    ghost var h := net.history;
    assert h[|h|..] == [];
    if faults.store.NotSent? {
      return;
    }
    net.Take(me, Store(me, bytes));
    if faults.store.Unanswered? {
      return;
    }
    if faults.pool && !faults.database.NotSent? {
      ghost var h1 := net.history;
      net.Take(me, Persist(me, bytes));
      AppendMine(h, h1, net.history, me);
    }
  }

  /** For either instance, and whatever goes wrong: the lock is released exactly if it was won,
      with an answer, and the release goes out. The Paper section stores exactly if it got that
      far, there are bytes, and the command goes out, and sets the TTL exactly if that was
      answered and the second command goes out. */
  lemma ReleasedExactly(
    c: Config, f: Faults, me: nat, uuid: string, server: string, bytes: Option<seq<byte>>, won: bool)
    ensures var steps := QuitSteps(c, f, me, uuid, server, bytes, won);
            && (Release(me) in steps <==> won && f.acquire.Answered? && !f.release.NotSent?)
            && (forall b :: Store(me, b) in steps <==>
                  won && f.acquire.Answered? && bytes == Some(b) && !f.store.NotSent?)
            && (!c.atomicTtl ==>
                  (Expire(me) in steps <==>
                     won && f.acquire.Answered? && bytes.Some? && f.store.Answered? && !f.expire.NotSent?))
  {
    var steps := QuitSteps(c, f, me, uuid, server, bytes, won);
    if won && f.acquire.Answered? {
      var mid := StoreSteps(c, f, me, bytes);
      assert forall a | a in steps :: a == Acquire(me, uuid, server) || a in mid || a == Closing(f, me);
      assert steps[|steps| - 1] == Closing(f, me);
      assert forall i | 0 <= i < |mid| :: mid[i] == steps[i + 1];
    }
  }

  /** What it takes for both writes to be made before the lock is released. */
  predicate BothWrites(f: Faults) {
    f.store.Answered? && f.pool && !f.database.NotSent?
  }

  /** The comment at the release says that it is reached only after both writes. For every choice
      of what goes wrong: the lock is released exactly if it was won, with an answer, and the
      release itself goes out; and then both writes have been made exactly if the first was
      answered, there is a pool, and the second went out. */
  lemma ReleasedAfterBothWrites(
    c: Config, f: Faults, me: nat, uuid: string, server: string, bytes: seq<byte>, won: bool)
    requires c.atomicTtl && c.durable
    ensures var steps := QuitSteps(c, f, me, uuid, server, Some(bytes), won);
            && (Release(me) in steps <==> won && f.acquire.Answered? && !f.release.NotSent?)
            && (Release(me) in steps ==>
                  (Store(me, bytes) in steps && Persist(me, bytes) in steps <==> BothWrites(f)))
  {
    var steps := QuitSteps(c, f, me, uuid, server, Some(bytes), won);
    if won && f.acquire.Answered? {
      var mid := StoreSteps(c, f, me, Some(bytes));
      assert forall a | a in steps :: a == Acquire(me, uuid, server) || a in mid || a == Closing(f, me);
      assert steps[|steps| - 1] == Closing(f, me);
      assert forall i | 0 <= i < |mid| :: mid[i] == steps[i + 1];
    }
  }

  /** The case the comment rules out: the database throws, and the lock is released over a
      profile that is in Redis only. */
  lemma ThrowingDatabaseReleases(c: Config, f: Faults, me: nat, uuid: string, server: string, bytes: seq<byte>)
    requires c.atomicTtl && c.durable && f.pool
    requires f.acquire.Answered? && f.store.Answered? && f.database.NotSent? && f.release.Answered?
    ensures QuitSteps(c, f, me, uuid, server, Some(bytes), true)
         == [Acquire(me, uuid, server), Store(me, bytes), Release(me)]
  {
  }

  // ---- the receiving side ---------------------------------------------------

  lemma {:induction false} RunSplit(c: Config, s: Sys, a: seq<Step>, b: seq<Step>)
    requires IsRun(c, s, a + b)
    ensures IsRun(c, s, a) && IsRun(c, After(c, s, a), b)
    ensures After(c, s, a + b) == After(c, After(c, s, a), b)
    decreases a
  {
    if a == [] {
      assert a + b == b;
    } else {
      assert (a + b)[0] == a[0] && (a + b)[1..] == a[1..] + b;
      RunSplit(c, Next(c, s, a[0]), a[1..], b);
    }
  }

  const POLL_MS := 10
  const PRELOGIN_TIMEOUT_MS := 2_000

  /** The lock was free when the history was `h`. */
  ghost predicate FreeAfter(c: Config, origin: Sys, h: seq<Step>, uuid: string) {
    IsRun(c, origin, h) && !Locked(After(c, origin, h), uuid)
  }

  /** AetherPaperPlugin.onPreLogin: poll until the lock is gone or the deadline has passed, then
      look once more; only that last look decides. A login is refused only after the timeout, or
      when the lock was `free` at an earlier look and is taken again at the last. */
  method OnPreLogin(net: Net, uuid: string) returns (admitted: bool, ghost free: seq<Step>)
    requires net.Valid()
    modifies net
    ensures net.Valid() && old(net.history) <= net.history
    ensures admitted <==> !Locked(net.sys, uuid)
    ensures !admitted ==>
              || net.sys.now >= old(net.sys).now + 2_000
              || (old(net.history) <= free <= net.history && FreeAfter(net.config, net.origin, free, uuid))
  {
    hide IsRun, After, Locked;
    ghost var h := net.history;
    var deadline := net.sys.now + PRELOGIN_TIMEOUT_MS;
    var waiting := true;
    free := h;
    while waiting
      invariant net.Valid() && h <= net.history
      invariant waiting || net.sys.now >= deadline
             || (h <= free <= net.history && FreeAfter(net.config, net.origin, free, uuid))
      decreases waiting, deadline - net.sys.now
    {
      net.Anything();
      waiting := Locked(net.sys, uuid);
      if !waiting {
        free := net.history;
      } else {
        net.Anything();
        waiting := net.sys.now < deadline;
        if waiting {
          net.Sleep(POLL_MS);
        }
      }
    }
    net.Anything();
    admitted := !Locked(net.sys, uuid);
  }

  /** Empty data counts as none. */
  function Usable(r: Option<seq<byte>>): (u: Option<seq<byte>>) {
    if r.Some? && r.value != [] then r else None
  }

  /** The hypotheses on the other servers: up to the check the player's sections were quick, and
      none began after it. */
  ghost predicate Undisturbed(net: Net, before: seq<Step>, between: seq<Step>, uuid: string)
    reads net
  {
    && Sane(net.config, net.origin, uuid) && InOrder(net.config, net.origin, uuid)
    && IsRun(net.config, net.origin, before) && AlwaysTimely(net.config, net.origin, before, uuid)
    && NoNewSection(between, uuid)
  }

  /** Nobody is in a section of the player, neither at the check nor now; what there was to read
      is final; and what there is to read now is what the last section to acquire, of those
      that stored, has stored, until the data TTL since it was set has passed, and nothing from
      then on. Within the data TTL of the store itself it has not. */
  ghost predicate HandedOver(c: Config, atCheck: Sys, s: Sys, uuid: string) {
    && NoSection(atCheck, uuid) && NoSection(s, uuid) && Final(c, atCheck, uuid)
    && Newest(s, uuid) == Newest(atCheck, uuid)
    && Load(s, uuid) == (if Readable(c, s, uuid) then Bytes(Newest(s, uuid)) else None)
    && (Fresh(c, s, uuid) ==> Load(s, uuid) == Bytes(Newest(s, uuid)))
  }

  /** onPreLogin, then, any number of steps of others later, onJoin. */
  method LoginAndJoin(net: Net, uuid: string)
    returns (admitted: bool, applied: Option<seq<byte>>, ghost before: seq<Step>, ghost between: seq<Step>)
    requires net.Valid()
    modifies net
    ensures net.Valid() && net.history == before + between && old(net.history) <= before
    ensures applied == if admitted && Load(net.sys, uuid) != Some([]) then Load(net.sys, uuid) else None
    ensures IsRun(net.config, net.origin, before)
    ensures admitted ==> !Locked(After(net.config, net.origin, before), uuid)
    ensures !admitted ==> Locked(net.sys, uuid) && between == []
    ensures admitted && Undisturbed(net, before, between, uuid) ==>
              HandedOver(net.config, After(net.config, net.origin, before), net.sys, uuid)
  {
    ghost var free;
    admitted, free := OnPreLogin(net, uuid);
    before, between, applied := net.history, [], None;
    if !admitted {
      return;
    }
    net.Anything();
    between := net.history[|before|..];
    assert net.history == before + between;
    applied := Usable(Load(net.sys, uuid));
    Delivered(net, before, between, uuid);
  }

  lemma Delivered(net: Net, before: seq<Step>, between: seq<Step>, uuid: string)
    requires net.Valid() && net.history == before + between
    requires IsRun(net.config, net.origin, before) && !Locked(After(net.config, net.origin, before), uuid)
    ensures Undisturbed(net, before, between, uuid) ==>
              HandedOver(net.config, After(net.config, net.origin, before), net.sys, uuid)
  {
    RunSplit(net.config, net.origin, before, between);
    if Undisturbed(net, before, between, uuid) {
      HandoverDelivers(net.config, net.origin, before, between, uuid);
    }
  }

  const LOCK_WAIT_TIMEOUT_MS := 5_000
  const POLL_INTERVAL_MS := 100

  /** RedisClient.waitForKeyDeletion, with others running between its commands. */
  method WaitForKeyDeletion(net: Net, uuid: string, timeoutMs: int, pollMs: nat) returns (released: bool)
    requires net.Valid() && pollMs > 0
    modifies net
    ensures net.Valid() && old(net.history) <= net.history
    ensures released ==> !Locked(net.sys, uuid)
    ensures !released ==> net.sys.now >= old(net.sys).now + timeoutMs
  {
    var deadline := net.sys.now + timeoutMs;
    while net.sys.now < deadline
      invariant net.Valid() && old(net.history) <= net.history
      decreases deadline - net.sys.now
    {
      net.Anything();
      if !Locked(net.sys, uuid) {
        return true;
      }
      net.Sleep(pollMs);
    }
    return false;
  }

  /** What pendingProfiles holds after a pre-login that fetched `found`: a fetch of nothing
      leaves an older profile where it is. */
  function Remember(pending: map<string, seq<byte>>, uuid: string, found: Option<seq<byte>>)
    : (r: map<string, seq<byte>>)
  {
    if Usable(found).Some? then pending[uuid := found.value] else pending
  }

  class PreLoginHandler {
    var pendingProfiles: map<string, seq<byte>>

    constructor ()
      ensures pendingProfiles == map[]
    {
      pendingProfiles := map[];
    }

    /** PlayerPreLoginHandler.onAsyncPreLogin: after a timeout it proceeds anyway. */
    method OnAsyncPreLogin(net: Net, uuid: string)
      returns (timedOut: bool, found: Option<seq<byte>>, ghost before: seq<Step>, ghost between: seq<Step>)
      requires net.Valid()
      modifies net, this
      ensures net.Valid() && net.history == before + between && old(net.history) <= before
      ensures found == Load(net.sys, uuid)
      ensures pendingProfiles == Remember(old(pendingProfiles), uuid, found)
      ensures IsRun(net.config, net.origin, before)
      ensures !timedOut ==> !Locked(After(net.config, net.origin, before), uuid)
      ensures timedOut ==> net.sys.now >= old(net.sys).now + 5_000
      ensures !timedOut && Undisturbed(net, before, between, uuid) ==>
                HandedOver(net.config, After(net.config, net.origin, before), net.sys, uuid)
    {
      net.Anything();
      timedOut := false;
      if Locked(net.sys, uuid) {
        var released := WaitForKeyDeletion(net, uuid, LOCK_WAIT_TIMEOUT_MS, POLL_INTERVAL_MS);
        timedOut := !released;
      }
      before := net.history;
      net.Anything();
      between := net.history[|before|..];
      assert net.history == before + between;
      found := Load(net.sys, uuid);
      if !timedOut {
        Delivered(net, before, between, uuid);
      }
      if found.Some? && found.value != [] {
        pendingProfiles := pendingProfiles[uuid := found.value];
      }
    }

    method OnPlayerJoin(uuid: string) returns (injected: Option<seq<byte>>)
      modifies this
      ensures injected == if uuid in old(pendingProfiles) then Some(old(pendingProfiles)[uuid]) else None
      ensures pendingProfiles == old(pendingProfiles) - {uuid}
    {
      injected := if uuid in pendingProfiles then Some(pendingProfiles[uuid]) else None;
      pendingProfiles := pendingProfiles - {uuid};
    }
  }

  /** pendingProfiles after several pre-logins without a join in between. */
  function RememberAll(pending: map<string, seq<byte>>, uuid: string, fetches: seq<Option<seq<byte>>>)
    : (r: map<string, seq<byte>>)
    decreases fetches
  {
    if fetches == [] then pending else RememberAll(Remember(pending, uuid, fetches[0]), uuid, fetches[1..])
  }

  /** The profile injected at the join is what the last pre-login fetched exactly if that fetch
      found something, or no earlier one that was never joined had. */
  lemma {:induction false} JoinInjectsLastFetch(
    pending: map<string, seq<byte>>, uuid: string, earlier: seq<Option<seq<byte>>>, last: Option<seq<byte>>)
    ensures var p := RememberAll(pending, uuid, earlier + [last]);
            (if uuid in p then Some(p[uuid]) else None) == Usable(last) <==>
              || Usable(last).Some?
              || (uuid !in pending && forall f | f in earlier :: Usable(f).None?)
    decreases earlier
  {
    if earlier == [] {
      assert (earlier + [last])[1..] == [];
    } else {
      assert (earlier + [last])[0] == earlier[0] && (earlier + [last])[1..] == earlier[1..] + [last];
      JoinInjectsLastFetch(Remember(pending, uuid, earlier[0]), uuid, earlier[1..], last);
    }
  }

  /** What a quit section leaves, of either instance, in every state in which it wins the lock and
      for every choice of what goes wrong: the lock exactly if it does not release it; the bytes
      for a reader exactly if there are any and the store arrived, with a TTL exactly if that
      came with it or the second command arrived; and the bytes in the database exactly if both
      writes were made. Otherwise a reader finds what was there before. */
  lemma SectionLeaves(
    c: Config, s: Sys, f: Faults, me: nat, uuid: string, server: string, bytes: Option<seq<byte>>)
    requires c.dataTtl > 0 && c.lockTtl > 0
    requires me !in s.used && !Locked(s, uuid) && !f.acquire.NotSent?
    ensures var steps := QuitSteps(c, f, me, uuid, server, bytes, true);
            var stored := f.acquire.Answered? && bytes.Some? && !f.store.NotSent?;
            && IsRun(c, s, steps)
            && var s' := After(c, s, steps);
               && (Locked(s', uuid) <==> !(f.acquire.Answered? && !f.release.NotSent?))
               && Load(s', uuid) == (if stored then bytes else Load(s, uuid))
               && (stored ==> s'.data[uuid].expires == ExpiryOf(c, f, s.now))
               && s'.database ==
                  if stored && c.atomicTtl && c.durable && BothWrites(f) then s.database[uuid := bytes.value]
                  else s.database
  {
    hide StoreSteps, BothWrites;
    var acquire := Acquire(me, uuid, server);
    var s1 := Next(c, s, acquire);
    OneStep(c, s, acquire);
    assert s1.open[me] == Section(uuid, server, s.now, Acquired);
    assert Locked(s1, uuid) && s1.data == s.data && s1.database == s.database && s1.now == s.now;
    hide Next;
    if f.acquire.Answered? {
      var mid := StoreSteps(c, f, me, bytes);
      MiddleLeaves(c, s1, f, me, bytes);
      var s2 := After(c, s1, mid);
      OneStep(c, s2, Closing(f, me));
      ClosingLeaves(c, s2, f, me);
      RunConcat(c, s, [acquire], mid);
      RunConcat(c, s, [acquire] + mid, [Closing(f, me)]);
    } else {
      OneStep(c, s1, Crash(me));
      CrashLeaves(c, s1, me);
      RunConcat(c, s, [acquire], [Crash(me)]);
      assert [acquire] + [Crash(me)] == [acquire, Crash(me)];
    }
  }

  lemma ClosingLeaves(c: Config, s: Sys, f: Faults, me: nat)
    requires me in s.open
    ensures var s' := Next(c, s, Closing(f, me));
            && s'.data == s.data && s'.database == s.database && s'.now == s.now
            && s'.locks == if f.release.NotSent? then s.locks else s.locks - {s.open[me].uuid}
  {
  }

  lemma CrashLeaves(c: Config, s: Sys, me: nat)
    requires me in s.open
    ensures Next(c, s, Crash(me)) == s.(open := s.open - {me})
  {
  }

  /** The TTL of stored bytes: with the store itself, or by the second command if that arrives. */
  function ExpiryOf(c: Config, f: Faults, now: nat): (e: Option<nat>) {
    if c.atomicTtl || (f.store.Answered? && !f.expire.NotSent?) then Some(now + c.dataTtl) else None
  }

  lemma MiddleLeaves(c: Config, s: Sys, f: Faults, me: nat, bytes: Option<seq<byte>>)
    requires c.dataTtl > 0
    requires me in s.open && s.open[me].phase == Acquired
    ensures var uuid, mid := s.open[me].uuid, StoreSteps(c, f, me, bytes);
            var stored := bytes.Some? && !f.store.NotSent?;
            && IsRun(c, s, mid)
            && var s' := After(c, s, mid);
               && me in s'.open && s'.open[me].uuid == uuid && s'.now == s.now && s'.locks == s.locks
               && (stored ==>
                     uuid in s'.data && s'.data[uuid] == Entry(bytes.value, ExpiryOf(c, f, s.now)))
               && (!stored ==> s'.data == s.data)
               && s'.database ==
                  if stored && c.atomicTtl && c.durable && BothWrites(f) then s.database[uuid := bytes.value]
                  else s.database
  {
    if bytes.Some? && !f.store.NotSent? {
      var store := Store(me, bytes.value);
      OneStep(c, s, store);
      var s1 := Next(c, s, store);
      if f.store.Answered? {
        SecondLeaves(c, s1, f, me, bytes.value);
        RunConcat(c, s, [store], AfterStore(c, f, me, bytes.value));
      }
    }
  }

  lemma SecondLeaves(c: Config, s: Sys, f: Faults, me: nat, bytes: seq<byte>)
    requires f.store.Answered? && me in s.open && s.open[me].uuid in s.data
    requires s.open[me].phase == (if c.atomicTtl then Stored else Written)
    requires !c.atomicTtl ==> s.data[s.open[me].uuid].expires == None
    ensures var uuid, after := s.open[me].uuid, AfterStore(c, f, me, bytes);
            && IsRun(c, s, after)
            && var s' := After(c, s, after);
               && me in s'.open && s'.open[me].uuid == uuid && s'.now == s.now && s'.locks == s.locks
               && uuid in s'.data && s'.data[uuid].value == s.data[uuid].value
               && s'.data[uuid].expires ==
                  (if !c.atomicTtl && !f.expire.NotSent? then Some(s.now + c.dataTtl) else s.data[uuid].expires)
               && s'.database ==
                  if c.atomicTtl && c.durable && BothWrites(f) then s.database[uuid := bytes] else s.database
  {
    if AfterStore(c, f, me, bytes) != [] {
      OneStep(c, s, AfterStore(c, f, me, bytes)[0]);
    }
  }
}
