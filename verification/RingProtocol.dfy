/** The Windows mouse ring under every interleaving of its producer's and consumer's atomic
    loads and stores. Steps are sequentially consistent; indices count events and never wrap. */
module RingProtocol {
  import opened MouseServing

  /** `ring_push`, one constructor per atomic access. */
  datatype Producer =
    | PIdle
    | PLoadWrite(m: Mouse)
    | PLoadRead(m: Mouse, write: nat)
    | PStoreX(m: Mouse, write: nat)
    | PStoreY(m: Mouse, write: nat)
    | PStoreTime(m: Mouse, write: nat)
    | PPublish(m: Mouse, write: nat)

  /** `ring_drain`: its limit, where it began, the sums so far, and the next access. */
  datatype Consumer =
    | CIdle
    | CLoadRead(limit: Limit, begin: nat, sum: (i32, i32))
    | CLoadWrite(limit: Limit, begin: nat, sum: (i32, i32), read: nat)
    | CLoadTime(limit: Limit, begin: nat, sum: (i32, i32), read: nat)
    | CLoadX(limit: Limit, begin: nat, sum: (i32, i32), read: nat, time: real)
    | CLoadY(limit: Limit, begin: nat, sum: (i32, i32), read: nat, time: real, x: i32)
    | CPublish(limit: Limit, begin: nat, sum: (i32, i32), read: nat, m: Mouse)
    | CReturn(begin: nat, sum: (i32, i32))

  /** Shared words, both threads, and the history: events published by the producer, events
      taken by the consumer, and events refused because the ring was full. */
  datatype State = State(
    ts: seq<real>, xs: seq<i32>, ys: seq<i32>, write: nat, read: nat,
    producer: Producer, consumer: Consumer,
    accepted: seq<Mouse>, drained: seq<Mouse>, refused: nat)

  datatype Event =
    | CallPush(m: Mouse)
    | CallDrain(limit: Limit)
    | ProducerStep
    | ConsumerStep

  predicate Init(s: State) {
    && |s.ts| == |s.xs| == |s.ys| == CAPACITY && s.write == s.read == 0
    && s.producer == PIdle && s.consumer == CIdle && s.accepted == [] && s.drained == [] && s.refused == 0
  }

  predicate Enabled(s: State, e: Event) {
    match e
    case CallPush(_) => s.producer == PIdle
    case CallDrain(_) => s.consumer == CIdle
    case ProducerStep => s.producer != PIdle
    case ConsumerStep => s.consumer != CIdle
  }

  predicate Sized(s: State) {
    |s.ts| == |s.xs| == |s.ys| == CAPACITY
  }

  function ProducerNext(s: State): State
    requires Sized(s)
  {
    match s.producer
    case PIdle => s
    case PLoadWrite(m) => s.(producer := PLoadRead(m, s.write))
    case PLoadRead(m, w) =>
      if w - s.read >= CAPACITY then s.(producer := PIdle, refused := s.refused + 1) else s.(producer := PStoreX(m, w))
    case PStoreX(m, w) => s.(producer := PStoreY(m, w), xs := s.xs[w % CAPACITY := m.x])
    case PStoreY(m, w) => s.(producer := PStoreTime(m, w), ys := s.ys[w % CAPACITY := m.y])
    case PStoreTime(m, w) => s.(producer := PPublish(m, w), ts := s.ts[w % CAPACITY := m.time])
    case PPublish(m, w) => s.(producer := PIdle, write := w + 1, accepted := s.accepted + [m])
  }

  function ConsumerNext(s: State): State
    requires Sized(s)
  {
    match s.consumer
    case CIdle => s
    case CLoadRead(l, b, sum) => s.(consumer := CLoadWrite(l, b, sum, s.read))
    case CLoadWrite(l, b, sum, r) =>
      s.(consumer := if r == s.write then CReturn(b, sum) else CLoadTime(l, b, sum, r))
    case CLoadTime(l, b, sum, r) =>
      var time := s.ts[r % CAPACITY];
      s.(consumer := if Late(Mouse(time, 0, 0), l) then CReturn(b, sum) else CLoadX(l, b, sum, r, time))
    case CLoadX(l, b, sum, r, time) => s.(consumer := CLoadY(l, b, sum, r, time, s.xs[r % CAPACITY]))
    case CLoadY(l, b, sum, r, time, x) => s.(consumer := CPublish(l, b, sum, r, Mouse(time, x, s.ys[r % CAPACITY])))
    case CPublish(l, b, sum, r, m) =>
      s.(consumer := CLoadRead(l, b, Add(Windows, sum, m)), read := r + 1, drained := s.drained + [m])
    case CReturn(_, _) => s.(consumer := CIdle)
  }

  function Next(s: State, e: Event): (t: State)
    requires Sized(s) && Enabled(s, e)
    ensures Sized(t)
  {
    match e
    case CallPush(m) => s.(producer := PLoadWrite(m))
    case CallDrain(l) => s.(consumer := CLoadRead(l, s.read, (0, 0)))
    case ProducerStep => ProducerNext(s)
    case ConsumerStep => ConsumerNext(s)
  }

  // ---- the invariant ----

  function Slot(s: State, i: nat): Mouse
    requires Sized(s)
  {
    Mouse(s.ts[i % CAPACITY], s.xs[i % CAPACITY], s.ys[i % CAPACITY])
  }

  /** The producer's stores go to the one slot outside the published window. */
  predicate Storing(p: Producer) {
    p.PStoreX? || p.PStoreY? || p.PStoreTime? || p.PPublish?
  }

  predicate ProducerInv(s: State)
    requires Sized(s)
  {
    && (Storing(s.producer) ==> s.producer.write == s.write && s.write - s.read < CAPACITY)
    && var i := s.write % CAPACITY;
    match s.producer
    case PLoadRead(_, w) => w == s.write
    case PStoreY(m, _) => s.xs[i] == m.x
    case PStoreTime(m, _) => s.xs[i] == m.x && s.ys[i] == m.y
    case PPublish(m, _) => s.xs[i] == m.x && s.ys[i] == m.y && s.ts[i] == m.time
    case _ => true
  }

  /** A drain in progress since `begin` has summed exactly the events taken since. */
  predicate Progress(s: State, begin: nat, sum: (i32, i32)) {
    begin <= |s.drained| && sum == Deltas(Windows, s.drained[begin..])
  }

  /** The consumer is reading the oldest published slot. */
  predicate Reading(c: Consumer) {
    c.CLoadTime? || c.CLoadX? || c.CLoadY? || c.CPublish?
  }

  predicate ConsumerInv(s: State)
    requires Sized(s)
  {
    && (s.consumer.CIdle? || Progress(s, s.consumer.begin, s.consumer.sum))
    && (Reading(s.consumer) ==> s.consumer.read == s.read < s.write)
    && match s.consumer
       case CLoadWrite(_, _, _, r) => r == s.read
       case CLoadX(_, _, _, r, time) => time == Slot(s, r).time
       case CLoadY(_, _, _, r, time, x) => time == Slot(s, r).time && x == Slot(s, r).x
       case CPublish(_, _, _, r, m) => m == Slot(s, r)
       case _ => true
  }

  predicate Window(s: State)
    requires Sized(s)
  {
    && s.read <= s.write <= s.read + CAPACITY
    && |s.accepted| == s.write && |s.drained| == s.read
    && s.drained == s.accepted[..s.read]
    && forall i | s.read <= i < s.write :: Slot(s, i) == s.accepted[i]
  }

  predicate Inv(s: State) {
    Sized(s) && Window(s) && ProducerInv(s) && ConsumerInv(s)
  }

  /** The producer's stores leave every published slot alone. */
  lemma PublishedKept(s: State, i: nat)
    requires Inv(s) && s.read <= i < s.write
    ensures Slot(ProducerNext(s), i) == Slot(s, i)
  {
    if Storing(s.producer) {
      DistinctSlots(i, s.write);
    }
  }

  lemma ProducerWindow(s: State)
    requires Inv(s)
    ensures Window(ProducerNext(s))
  {
    var t := ProducerNext(s);
    forall i | s.read <= i < s.write
      ensures Slot(t, i) == s.accepted[i] == t.accepted[i]
    {
      PublishedKept(s, i);
    }
  }

  lemma ProducerConsumer(s: State)
    requires Inv(s)
    ensures ConsumerInv(ProducerNext(s))
  {
    if Reading(s.consumer) {
      PublishedKept(s, s.read);
    }
  }

  lemma ProducerOwn(s: State)
    requires Inv(s)
    ensures ProducerInv(ProducerNext(s))
  {
  }

  lemma ProducerPreserves(s: State)
    requires Inv(s)
    ensures Inv(ProducerNext(s))
  {
    ProducerWindow(s);
    ProducerOwn(s);
    ProducerConsumer(s);
  }

  lemma ConsumerPreserves(s: State)
    requires Inv(s)
    ensures Inv(ConsumerNext(s))
  {
    if s.consumer.CPublish? {
      var (b, m) := (s.consumer.begin, s.consumer.m);
      var d := s.drained + [m];
      assert m == s.accepted[s.read];
      assert d == s.accepted[..s.read + 1];
      assert d[b..][..|d[b..]| - 1] == s.drained[b..];
    }
  }

  lemma StepPreserves(s: State, e: Event)
    requires Inv(s) && Enabled(s, e)
    ensures Inv(Next(s, e))
  {
    match e
    case CallPush(_) =>
    case CallDrain(_) => assert s.drained[s.read..] == [];
    case ProducerStep => ProducerPreserves(s);
    case ConsumerStep => ConsumerPreserves(s);
  }

  predicate Run(s: State, events: seq<Event>)
    requires Sized(s)
    decreases |events|
  {
    events == [] || (Enabled(s, events[0]) && Run(Next(s, events[0]), events[1..]))
  }

  function After(s: State, events: seq<Event>): (t: State)
    requires Sized(s) && Run(s, events)
    ensures Sized(t)
    decreases |events|
  {
    if events == [] then s else After(Next(s, events[0]), events[1..])
  }

  lemma {:induction false} RunPreserves(s: State, events: seq<Event>)
    requires Inv(s) && Run(s, events)
    ensures Inv(After(s, events))
    decreases |events|
  {
    if events != [] {
      StepPreserves(s, events[0]);
      RunPreserves(Next(s, events[0]), events[1..]);
    }
  }

  /** In every interleaving: the ring never over- or underfills, what was taken is a first-in
      first-out prefix of what was published, and the rest is intact in the queue. */
  lemma RingSafety(s: State, events: seq<Event>)
    requires Init(s) && Run(s, events)
    ensures var t := After(s, events);
      && t.read <= t.write <= t.read + CAPACITY
      && t.accepted == t.drained + Queued(t.ts, t.xs, t.ys, t.read, t.write)
  {
    RunPreserves(s, events);
    var t := After(s, events);
    var q := Queued(t.ts, t.xs, t.ys, t.read, t.write);
    forall i | 0 <= i < t.write - t.read
      ensures q[i] == t.accepted[t.read + i]
    {
      assert Slot(t, t.read + i) == t.accepted[t.read + i];
    }
    assert t.accepted == t.accepted[..t.read] + t.accepted[t.read..];
    assert q == t.accepted[t.read..];
  }

  /** The consumer never reads the slot that the producer is writing. */
  lemma NoSlotRace(s: State, events: seq<Event>)
    requires Init(s) && Run(s, events)
    ensures var t := After(s, events);
      Reading(t.consumer) && Storing(t.producer) ==> t.consumer.read % CAPACITY != t.producer.write % CAPACITY
  {
    RunPreserves(s, events);
    var t := After(s, events);
    if Reading(t.consumer) && Storing(t.producer) {
      DistinctSlots(t.read, t.write);
    }
  }

  /** A drain returns the deltas of exactly the published events it took, in order. */
  lemma DrainReturnsTaken(s: State, events: seq<Event>)
    requires Init(s) && Run(s, events)
    ensures var t := After(s, events);
      t.consumer.CReturn? ==>
        && t.consumer.begin <= t.read <= |t.accepted|
        && t.consumer.sum == Deltas(Windows, t.accepted[t.consumer.begin..t.read])
  {
    RunPreserves(s, events);
    var t := After(s, events);
    if t.consumer.CReturn? {
      assert t.drained[t.consumer.begin..] == t.accepted[t.consumer.begin..t.read];
    }
  }
}
