/** One subscriber's bounded queue (daemon/internal/raftfsm/fsm.go, Subscribe and publish):
    a Go channel with a buffer, to which the state machine sends without ever blocking. */
module EventBus {
  import opened FsmModel

  /** `a` is `b` with some elements left out. */
  ghost predicate Subsequence<T>(a: seq<T>, b: seq<T>)
    decreases b
  {
    if a == [] then true
    else if b == [] then false
    else
      || (a[|a| - 1] == b[|b| - 1] && Subsequence(a[..|a| - 1], b[..|b| - 1]))
      || Subsequence(a, b[..|b| - 1])
  }

  lemma SubsequenceExtend<T>(a: seq<T>, b: seq<T>, x: T)
    requires Subsequence(a, b)
    ensures Subsequence(a + [x], b + [x]) && Subsequence(a, b + [x])
  {
    assert (a + [x])[..|a|] == a && (b + [x])[..|b|] == b;
  }

  /** A subsequence embeds: it is read off `b` at strictly increasing positions. */
  lemma {:induction false} SubsequenceEmbeds<T>(a: seq<T>, b: seq<T>) returns (at: seq<nat>)
    requires Subsequence(a, b)
    ensures |at| == |a|
    ensures forall i | 0 <= i < |a| :: at[i] < |b| && a[i] == b[at[i]]
    ensures forall i, j | 0 <= i < j < |a| :: at[i] < at[j]
    decreases b
  {
    if a == [] {
      at := [];
    } else if a[|a| - 1] == b[|b| - 1] && Subsequence(a[..|a| - 1], b[..|b| - 1]) {
      var rest := SubsequenceEmbeds(a[..|a| - 1], b[..|b| - 1]);
      at := rest + [|b| - 1];
    } else {
      at := SubsequenceEmbeds(a, b[..|b| - 1]);
    }
  }

  /** A queue with its bookkeeping: everything received from it, everything sent to it, and how
      much of that was dropped. */
  datatype Queue = Queue(capacity: nat, buffer: seq<Event>, consumed: seq<Event>, offered: seq<Event>, drops: nat)

  /** The select with a default case: enqueue if there is room, otherwise drop. */
  function Enqueue(q: Queue, ev: Event): (r: Queue) {
    var q' := q.(offered := q.offered + [ev]);
    if |q.buffer| < q.capacity then q'.(buffer := q.buffer + [ev]) else q'.(drops := q.drops + 1)
  }

  function Dequeue(q: Queue): (r: Queue)
    requires q.buffer != []
  {
    q.(buffer := q.buffer[1..], consumed := q.consumed + [q.buffer[0]])
  }

  /** What was received and what is waiting is, in order, part of what was sent, and all of it
      unless something was dropped; the buffer never outgrows its capacity. */
  ghost predicate Sound(q: Queue) {
    && |q.buffer| <= q.capacity
    && Subsequence(q.consumed + q.buffer, q.offered)
    && |q.consumed| + |q.buffer| + q.drops == |q.offered|
    && (q.drops == 0 ==> q.consumed + q.buffer == q.offered)
  }

  lemma NothingLost(q: Queue)
    requires Sound(q)
    ensures q.drops == 0 ==> q.consumed + q.buffer == q.offered
  {
  }

  lemma EnqueueKeepsSound(q: Queue, ev: Event)
    requires Sound(q)
    ensures Sound(Enqueue(q, ev))
  {
    SubsequenceExtend(q.consumed + q.buffer, q.offered, ev);
    assert q.consumed + (q.buffer + [ev]) == (q.consumed + q.buffer) + [ev];
  }

  lemma DequeueKeepsSound(q: Queue)
    requires Sound(q) && q.buffer != []
    ensures Sound(Dequeue(q))
  {
    assert Dequeue(q).consumed + Dequeue(q).buffer == q.consumed + q.buffer;
  }

  class Channel {
    const capacity: nat
    var buffer: seq<Event>
    ghost var consumed: seq<Event>
    ghost var offered: seq<Event>
    ghost var drops: nat

    ghost function View(): (q: Queue)
      reads this
    {
      Queue(capacity, buffer, consumed, offered, drops)
    }

    ghost predicate Valid()
      reads this
    {
      Sound(View())
    }

    constructor (capacity: nat)
      ensures Valid() && View() == Queue(capacity, [], [], [], 0)
    {
      this.capacity := capacity;
      buffer, consumed, offered, drops := [], [], [], 0;
    }

    method Offer(ev: Event)
      requires Valid()
      modifies this
      ensures Valid() && View() == Enqueue(old(View()), ev)
    {
      EnqueueKeepsSound(View(), ev);
      if |buffer| < capacity {
        buffer := buffer + [ev];
      } else {
        drops := drops + 1;
      }
      offered := offered + [ev];
    }

    /** Receives the oldest event; a receiver blocks while there is none. */
    method Receive() returns (ev: Event)
      requires Valid() && buffer != []
      modifies this
      ensures Valid() && View() == Dequeue(old(View()))
      ensures [ev] + buffer == old(buffer)
    {
      DequeueKeepsSound(View());
      ev := buffer[0];
      consumed := consumed + [ev];
      buffer := buffer[1..];
    }
  }

  // ---- runs of the bus --------------------------------------------------------

  datatype BusStep = Publish(ev: Event) | Receive(who: nat)

  /** Subscribers receive when they like, if there is anything to receive. */
  function StepAll(qs: seq<Queue>, s: BusStep): (r: seq<Queue>)
    ensures |r| == |qs|
  {
    match s
    case Publish(ev) => seq(|qs|, i requires 0 <= i < |qs| => Enqueue(qs[i], ev))
    case Receive(who) => if who < |qs| && qs[who].buffer != [] then qs[who := Dequeue(qs[who])] else qs
  }

  function RunAll(qs: seq<Queue>, steps: seq<BusStep>): (r: seq<Queue>)
    ensures |r| == |qs|
    decreases steps
  {
    if steps == [] then qs else RunAll(StepAll(qs, steps[0]), steps[1..])
  }

  /** The part of a run that concerns one subscriber. */
  function Own(steps: seq<BusStep>, who: nat): (r: seq<BusStep>) {
    if steps == [] then []
    else (if steps[0].Publish? || steps[0].who == who then [steps[0]] else []) + Own(steps[1..], who)
  }

  function StepOne(q: Queue, s: BusStep): (r: Queue) {
    match s
    case Publish(ev) => Enqueue(q, ev)
    case Receive(_) => if q.buffer != [] then Dequeue(q) else q
  }

  function RunOne(q: Queue, steps: seq<BusStep>): (r: Queue)
    decreases steps
  {
    if steps == [] then q
    else
      RunOne(StepOne(q, steps[0]), steps[1..])
  }

  /** How fast the others receive makes no difference to a subscriber. */
  lemma {:induction false} SubscribersAreIndependent(qs: seq<Queue>, steps: seq<BusStep>, who: nat)
    requires who < |qs|
    ensures RunAll(qs, steps)[who] == RunOne(qs[who], Own(steps, who))
    decreases steps
  {
    if steps != [] {
      SubscribersAreIndependent(StepAll(qs, steps[0]), steps[1..], who);
      var own := if steps[0].Publish? || steps[0].who == who then [steps[0]] else [];
      assert Own(steps, who) == own + Own(steps[1..], who);
      if own != [] {
        assert (own + Own(steps[1..], who))[1..] == Own(steps[1..], who);
      } else {
        assert own + Own(steps[1..], who) == Own(steps[1..], who);
      }
    }
  }

  function Published(steps: seq<BusStep>): (r: seq<Event>) {
    if steps == [] then []
    else (if steps[0].Publish? then [steps[0].ev] else []) + Published(steps[1..])
  }

  lemma {:induction false} OwnPublishesAll(steps: seq<BusStep>, who: nat)
    ensures Published(Own(steps, who)) == Published(steps)
    decreases steps
  {
    if steps != [] {
      OwnPublishesAll(steps[1..], who);
      if steps[0].Publish? || steps[0].who == who {
        assert ([steps[0]] + Own(steps[1..], who))[1..] == Own(steps[1..], who);
      } else {
        assert [] + Own(steps[1..], who) == Own(steps[1..], who);
      }
    }
  }

  lemma StepOneIsSound(q: Queue, s: BusStep)
    requires Sound(q)
    ensures Sound(StepOne(q, s))
  {
    if s.Publish? {
      EnqueueKeepsSound(q, s.ev);
    } else if q.buffer != [] {
      DequeueKeepsSound(q);
    }
  }

  lemma {:induction false} OneRunIsSound(q: Queue, steps: seq<BusStep>)
    requires Sound(q)
    ensures Sound(RunOne(q, steps)) && RunOne(q, steps).capacity == q.capacity
    ensures RunOne(q, steps).offered == q.offered + Published(steps)
    decreases steps
  {
    hide Sound;
    if steps != [] {
      var q' := StepOne(q, steps[0]);
      StepOneIsSound(q, steps[0]);
      OneRunIsSound(q', steps[1..]);
      var first := if steps[0].Publish? then [steps[0].ev] else [];
      assert q'.offered == q.offered + first;
      assert q.offered + (first + Published(steps[1..])) == (q.offered + first) + Published(steps[1..]);
    }
  }

  lemma {:induction false} RoomMeansNoLoss(q: Queue, steps: seq<BusStep>)
    requires |q.buffer| + |Published(steps)| <= q.capacity
    ensures RunOne(q, steps).drops == q.drops
    decreases steps
  {
    if steps != [] {
      RoomMeansNoLoss(StepOne(q, steps[0]), steps[1..]);
    }
  }

  lemma {:induction false} RunOneConcat(q: Queue, a: seq<BusStep>, b: seq<BusStep>)
    ensures RunOne(q, a + b) == RunOne(RunOne(q, a), b)
    decreases a
  {
    if a == [] {
      assert a + b == b;
    } else {
      assert (a + b)[0] == a[0] && (a + b)[1..] == a[1..] + b;
      RunOneConcat(StepOne(q, a[0]), a[1..], b);
    }
  }

  /** Events published one after the other. */
  function Publications(evs: seq<Event>): (r: seq<BusStep>)
    decreases evs
  {
    if evs == [] then [] else [Publish(evs[0])] + Publications(evs[1..])
  }

  lemma {:induction false} PublicationsConcat(a: seq<Event>, b: seq<Event>)
    ensures Publications(a + b) == Publications(a) + Publications(b)
    decreases a
  {
    if a == [] {
      assert a + b == b;
    } else {
      assert (a + b)[0] == a[0] && (a + b)[1..] == a[1..] + b;
      PublicationsConcat(a[1..], b);
    }
  }

  /** A channel nothing has been sent to. */
  function New(capacity: nat): (r: Queue) {
    Queue(capacity, [], [], [], 0)
  }

  /** Whether some event is published while this subscriber's buffer is full. */
  ghost predicate Overflows(q: Queue, steps: seq<BusStep>)
    decreases steps
  {
    steps != []
    && ((steps[0].Publish? && |q.buffer| >= q.capacity) || Overflows(StepOne(q, steps[0]), steps[1..]))
  }

  /** A subscriber loses something exactly if its own buffer is full at some publication. */
  lemma {:induction false} LossExactly(q: Queue, steps: seq<BusStep>)
    ensures RunOne(q, steps).drops >= q.drops
    ensures RunOne(q, steps).drops > q.drops <==> Overflows(q, steps)
    decreases steps
  {
    if steps != [] {
      LossExactly(StepOne(q, steps[0]), steps[1..]);
    }
  }

  /** In every run each subscriber stays sound, has been sent everything that was published
      since it subscribed, and has lost nothing if its buffer could hold all of it. */
  lemma EveryRunIsSound(qs: seq<Queue>, steps: seq<BusStep>, who: nat)
    requires who < |qs| && Sound(qs[who])
    ensures var q := RunAll(qs, steps)[who];
            && Sound(q) && q.capacity == qs[who].capacity
            && q.offered == qs[who].offered + Published(steps)
            && (|qs[who].buffer| + |Published(steps)| <= q.capacity ==> q.drops == qs[who].drops)
  {
    hide Sound;
    SubscribersAreIndependent(qs, steps, who);
    OwnPublishesAll(steps, who);
    OneRunIsSound(qs[who], Own(steps, who));
    if |qs[who].buffer| + |Published(steps)| <= qs[who].capacity {
      RoomMeansNoLoss(qs[who], Own(steps, who));
    }
  }

  /** A channel got the event if there was room for it, and counts it as lost otherwise. */
  twostate predicate Offered(ch: Channel, ev: Event)
    reads ch
  {
    && ch.offered == old(ch.offered) + [ev] && ch.consumed == old(ch.consumed)
    && if |old(ch.buffer)| < ch.capacity
       then ch.buffer == old(ch.buffer) + [ev] && ch.drops == old(ch.drops)
       else ch.buffer == old(ch.buffer) && ch.drops == old(ch.drops) + 1
  }

  /** The subscriber list, with every event ever published. */
  class Bus {
    var subscribers: seq<Channel>
    ghost var published: seq<Event>
    /** How many events had been published when each channel subscribed. */
    ghost var joined: seq<nat>
    ghost var Repr: set<object>

    ghost predicate Valid()
      reads this, Repr
    {
      && this in Repr
      && |joined| == |subscribers|
      && (forall i | 0 <= i < |subscribers| :: subscribers[i] in Repr && Follows(i))
      && (forall i, j | 0 <= i < j < |subscribers| :: subscribers[i] != subscribers[j])
    }

    /** A channel was sent exactly what was published since it subscribed. */
    ghost predicate Follows(i: nat)
      requires i < |subscribers| && |joined| == |subscribers|
      reads this, subscribers[i]
    {
      && subscribers[i].Valid()
      && joined[i] <= |published|
      && subscribers[i].offered == published[joined[i]..]
    }

    constructor ()
      ensures Valid() && fresh(Repr)
      ensures subscribers == [] && published == [] && joined == []
    {
      subscribers, published, joined, Repr := [], [], [], {this};
    }

    method Subscribe(buf: nat) returns (ch: Channel)
      requires Valid()
      modifies this
      ensures Valid() && fresh(ch) && Repr == old(Repr) + {ch}
      ensures subscribers == old(subscribers) + [ch] && joined == old(joined) + [|published|]
      ensures published == old(published)
      ensures ch.capacity == buf && ch.buffer == [] && ch.consumed == [] && ch.offered == [] && ch.drops == 0
    {
      ch := new Channel(buf);
      subscribers := subscribers + [ch];
      joined := joined + [|published|];
      Repr := Repr + {ch};
      assert forall i | 0 <= i < |subscribers| - 1 :: old(Follows(i));
    }

    /** Each subscriber gets the event or, if its own buffer is full, loses it; what the
        others do makes no difference. */
    method Publish(ev: Event)
      requires Valid()
      modifies Repr
      ensures Valid() && Repr == old(Repr)
      ensures subscribers == old(subscribers) && joined == old(joined)
      ensures published == old(published) + [ev]
      ensures forall i | 0 <= i < |subscribers| :: Offered(subscribers[i], ev)
    {
      hide Sound;
      var subs := subscribers;
      published := published + [ev];
      var i := 0;
      while i < |subs|
        invariant 0 <= i <= |subs|
        invariant subs == subscribers == old(subscribers) && joined == old(joined) && Repr == old(Repr)
        invariant published == old(published) + [ev]
        invariant forall j | i <= j < |subs| :: unchanged(subs[j])
        invariant forall j | 0 <= j < i :: Offered(subs[j], ev) && Follows(j)
      {
        assert old(Follows(i));
        subs[i].Offer(ev);
        assert Follows(i);
        i := i + 1;
      }
    }
  }
}
