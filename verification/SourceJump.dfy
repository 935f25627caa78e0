/** The coalescing world-record lookup: one worker at a time, the newest map wins. */
module SourceJump {
  import opened Bytes

  const MAX_NAME := 64

  /** Only such names ever reach a URL. */
  predicate PlainName(name: string) {
    0 < |name| <= MAX_NAME && forall c <- name :: PlainChar(c)
  }

  predicate PlainChar(c: char) {
    '0' <= c <= '9' || 'A' <= c <= 'Z' || 'a' <= c <= 'z' || c == '_' || c == '-'
  }

  /** The fields behind the `STATE` mutex. */
  class Shared {
    var shown: string
    var inflight: bool
    var pending: Option<string>

    function Fields(): Lookup
      reads this
    {
      Lookup(shown, inflight, pending)
    }

    constructor ()
      ensures Fields() == Lookup("", false, None)
    {
      shown, inflight, pending := "", false, None;
    }

    /** True asks the caller to spawn a worker. */
    method Schedule(name: string) returns (spawn: bool)
      modifies this
      ensures Fields() == Scheduled(old(Fields()), name)
      ensures spawn <==> old(Fields()).shown != name && !old(Fields()).inflight
    {
      if shown == name {
        return false;
      }
      pending := Some(name);
      if inflight {
        return false;
      }
      inflight := true;
      return true;
    }

    method ResetInflight()
      modifies this
      ensures Fields() == old(Fields()).(inflight := false)
    {
      inflight := false;
    }

    /** `show_wr`; `spawns` is whether the operating system gives a thread when one is asked for. */
    method ShowWr(name: string, spawns: bool) returns (worker: bool)
      modifies this
      ensures worker <==> PlainName(name) && old(Fields()).shown != name && !old(Fields()).inflight && spawns
      ensures Fields() == if !PlainName(name) then old(Fields())
                          else if old(Fields()).shown == name || old(Fields()).inflight || spawns
                          then Scheduled(old(Fields()), name)
                          else Lookup(old(Fields()).shown, false, Some(name))
    {
      if !PlainName(name) {
        return false;
      }
      worker := Schedule(name);
      if worker && !spawns {
        ResetInflight();
        worker := false;
      }
    }

    /** One turn of the worker's loop: the map to fetch, or none when the worker exits. */
    method Take() returns (next: Option<string>)
      modifies this
      ensures Fields() == Taken(old(Fields()))
      ensures next == ToFetch(old(Fields()))
    {
      var taken := pending;
      pending := None;
      if taken.Some? && taken.value != shown {
        shown := taken.value;
        return taken;
      }
      inflight := false;
      return None;
    }

    /** The worker when no request comes in between: what was pending is shown, and it exits. */
    method WorkerMain() returns (fetched: seq<string>)
      modifies this
      ensures !inflight && pending == None
      ensures fetched == if ToFetch(old(Fields())).Some? then [old(pending).value] else []
      ensures shown == if fetched == [] then old(shown) else fetched[0]
    {
      fetched := [];
      while true
        invariant fetched == [] ==> Fields() == old(Fields())
        invariant fetched != [] ==> ToFetch(old(Fields())).Some? && fetched == [old(pending).value]
        invariant fetched != [] ==> pending == None && shown == fetched[0]
        decreases pending.Some?
      {
        var next := Take();
        if next.None? {
          return;
        }
        fetched := fetched + [next.value];
      }
    }
  }

  datatype Lookup = Lookup(shown: string, inflight: bool, pending: Option<string>)

  function Scheduled(l: Lookup, name: string): Lookup {
    if l.shown == name then l else Lookup(l.shown, true, Some(name))
  }

  function ToFetch(l: Lookup): Option<string> {
    if l.pending.Some? && l.pending.value != l.shown then l.pending else None
  }

  function Taken(l: Lookup): Lookup {
    if ToFetch(l).Some? then Lookup(l.pending.value, l.inflight, None) else Lookup(l.shown, false, None)
  }

  // ---- every interleaving of requests and worker turns ----

  /** How the in-flight flag was last released. */
  datatype Release = Never | Finished | SpawnLost

  /** `spawning` and `resetting` count the requesters between `schedule` and the outcome of the
      spawn, `turning` and `fetching` the workers at their two places. The last four fields are
      history: the requests that were well named, those that were accepted, the maps fetched, and
      whether the newest request was for the map already shown while another one was waiting. */
  datatype State = State(l: Lookup, spawning: nat, resetting: nat, turning: nat, fetching: nat,
                         requests: seq<string>, accepted: seq<string>, fetched: seq<string>,
                         overtaken: bool, release: Release)

  datatype Event = Request(name: string) | Spawned | SpawnFailed | Reset | Turn | Fetched

  function Start(): State {
    State(Lookup("", false, None), 0, 0, 0, 0, [], [], [], false, Never)
  }

  predicate Enabled(s: State, e: Event) {
    match e
    case Request(_) => true
    case Spawned => s.spawning > 0
    case SpawnFailed => s.spawning > 0
    case Reset => s.resetting > 0
    case Turn => s.turning > 0
    case Fetched => s.fetching > 0
  }

  function Requested(s: State, name: string): State {
    if !PlainName(name) then s
    else
      s.(l := Scheduled(s.l, name),
         spawning := s.spawning + if s.l.shown != name && !s.l.inflight then 1 else 0,
         requests := s.requests + [name],
         accepted := s.accepted + if s.l.shown != name then [name] else [],
         overtaken := s.l.shown == name && s.l.pending.Some?)
  }

  function Turned(s: State): State
    requires s.turning > 0
  {
    if ToFetch(s.l).Some? then
      s.(l := Taken(s.l), turning := s.turning - 1, fetching := s.fetching + 1,
         fetched := s.fetched + [ToFetch(s.l).value])
    else
      s.(l := Taken(s.l), turning := s.turning - 1, release := Finished)
  }

  function After(s: State, e: Event): State
    requires Enabled(s, e)
  {
    match e
    case Request(name) => Requested(s, name)
    case Spawned => s.(spawning := s.spawning - 1, turning := s.turning + 1)
    case SpawnFailed => s.(spawning := s.spawning - 1, resetting := s.resetting + 1)
    case Reset => s.(l := s.l.(inflight := false), resetting := s.resetting - 1, release := SpawnLost)
    case Turn => Turned(s)
    case Fetched => s.(fetching := s.fetching - 1, turning := s.turning + 1)
  }

  /** The state after `events`, or none when one of them was not possible. */
  function Outcome(events: seq<Event>): Option<State> {
    if events == [] then Some(Start())
    else
      var (before, e) := (Outcome(events[..|events| - 1]), events[|events| - 1]);
      if before.Some? && Enabled(before.value, e) then Some(After(before.value, e)) else None
  }

  predicate Run(events: seq<Event>, s: State) {
    Outcome(events) == Some(s)
  }

  function Last(names: seq<string>): string
    requires names != []
  {
    names[|names| - 1]
  }

  /** Whoever set the in-flight flag, and nobody else, is between its spawn and the reset. */
  predicate OneWorker(s: State) {
    s.spawning + s.resetting + s.turning + s.fetching == if s.l.inflight then 1 else 0
  }

  /** The newest accepted map is either waiting or shown. */
  predicate NewestKept(s: State) {
    && (s.l.pending.Some? ==> s.l.pending.value != s.l.shown)
    && (s.l.pending.Some? ==> s.accepted != [] && s.l.pending.value == Last(s.accepted))
    && (s.l.pending.None? && s.accepted != [] ==> s.l.shown == Last(s.accepted))
  }

  /** A map is left waiting exactly when the spawn that should have served it was lost. */
  predicate WaitingServed(s: State) {
    && (s.spawning + s.resetting > 0 ==> s.l.pending.Some?)
    && (!s.l.inflight ==> (s.l.pending.Some? <==> s.release == SpawnLost))
  }

  predicate NewestRequest(s: State) {
    && (s.overtaken ==> s.requests != [] && s.accepted != [])
    && (s.overtaken && s.l.pending.Some? ==> s.l.shown == Last(s.requests))
    && (s.overtaken && s.l.pending.None? ==> s.l.shown != Last(s.requests))
    && (!s.overtaken && s.requests != [] && s.l.pending.Some? ==> s.l.pending.value == Last(s.requests))
    && (!s.overtaken && s.requests != [] && s.l.pending.None? ==> s.l.shown == Last(s.requests))
  }

  predicate PlainOnly(s: State) {
    && (forall n <- s.accepted :: PlainName(n))
    && (forall n <- s.fetched :: PlainName(n))
    && (s.l.shown == if s.fetched == [] then "" else Last(s.fetched))
    && (forall i | 0 < i < |s.fetched| :: s.fetched[i - 1] != s.fetched[i])
  }

  predicate Inv(s: State) {
    OneWorker(s) && NewestKept(s) && WaitingServed(s) && NewestRequest(s) && PlainOnly(s)
  }

  lemma RequestKeeps(s: State, name: string)
    requires Inv(s)
    ensures Inv(Requested(s, name))
  {
  }

  lemma TurnKeeps(s: State)
    requires Inv(s) && s.turning > 0
    ensures Inv(Turned(s))
  {
  }

  lemma StepKeeps(s: State, e: Event)
    requires Inv(s) && Enabled(s, e)
    ensures Inv(After(s, e))
  {
    match e {
      case Request(name) => RequestKeeps(s, name);
      case Turn => TurnKeeps(s);
      case _ =>
    }
  }

  /** The invariant of every run, spawn failures included. */
  lemma {:induction false} RunKeeps(events: seq<Event>, s: State)
    requires Run(events, s)
    ensures Inv(s)
  {
    if events != [] {
      var before := Outcome(events[..|events| - 1]).value;
      RunKeeps(events[..|events| - 1], before);
      StepKeeps(before, events[|events| - 1]);
    }
  }

  lemma {:induction false} NoFailureNoLoss(events: seq<Event>, s: State)
    requires Run(events, s) && SpawnFailed !in events
    ensures s.resetting == 0 && s.release != SpawnLost
  {
    if events != [] {
      NoFailureNoLoss(events[..|events| - 1], Outcome(events[..|events| - 1]).value);
    }
  }

  /** Without spawn failures: at most one worker from spawn to reset, a waiting map implies a
      worker and differs from what is shown, and at rest the last accepted map is shown. */
  lemma NoRequestLost(events: seq<Event>, s: State)
    requires Run(events, s) && SpawnFailed !in events
    ensures s.spawning + s.turning + s.fetching <= 1
    ensures s.l.pending.Some? ==> s.l.inflight && s.l.pending.value != s.l.shown
    ensures !s.l.inflight && s.accepted != [] ==> s.l.shown == Last(s.accepted)
  {
    RunKeeps(events, s);
    NoFailureNoLoss(events, s);
  }

  /** With spawn failures: at rest the last accepted map is shown exactly when the flag was last
      released by a worker, not by a lost spawn. */
  lemma RestShowsLastAcceptedIff(events: seq<Event>, s: State)
    requires Run(events, s) && !s.l.inflight && s.accepted != []
    ensures s.l.shown == Last(s.accepted) <==> s.release != SpawnLost
    ensures s.release == SpawnLost ==> s.l.pending == Some(Last(s.accepted))
  {
    RunKeeps(events, s);
  }

  /** Asking again for the map on show while another waits does not cancel the other: at rest
      the last request is shown exactly when that did not happen. */
  lemma RestShowsLastRequestIff(events: seq<Event>, s: State)
    requires Run(events, s) && SpawnFailed !in events && !s.l.inflight && s.requests != []
    ensures s.l.shown == Last(s.requests) <==> !s.overtaken
  {
    RunKeeps(events, s);
    NoFailureNoLoss(events, s);
  }

  lemma Onward(events: seq<Event>, s: State, e: Event) returns (events': seq<Event>, s': State)
    requires Run(events, s) && Enabled(s, e)
    ensures events' == events + [e] && s' == After(s, e) && Run(events', s')
  {
    events', s' := events + [e], After(s, e);
    assert events'[..|events|] == events;
  }

  /** Requested, its worker's turn taken, and the map fetched. */
  lemma Shown(name: string) returns (events: seq<Event>, s: State)
    requires PlainName(name)
    ensures Run(events, s) && events == [Request(name), Spawned, Turn]
    ensures s == State(Lookup(name, true, None), 0, 0, 0, 1, [name], [name], [name], false, Never)
  {
    events, s := Onward([], Start(), Request(name));
    events, s := Onward(events, s, Spawned);
    events, s := Onward(events, s, Turn);
  }

  ghost predicate LostAtRest(events: seq<Event>, s: State, name: string) {
    && Run(events, s) && !s.l.inflight && s.release == SpawnLost && s.accepted != []
    && s.l.pending == Some(name) && s.l.shown != Last(s.accepted)
  }

  /** The first failure is real: for every plain name, a run that ends at rest with the last
      accepted map waiting and not shown. */
  lemma LostSpawnLeavesWaiting(name: string)
    requires PlainName(name)
    ensures exists events, s :: LostAtRest(events, s, name)
  {
    var events, s := Onward([], Start(), Request(name));
    events, s := Onward(events, s, SpawnFailed);
    events, s := Onward(events, s, Reset);
    assert LostAtRest(events, s, name);
  }

  ghost predicate OvertakenAtRest(events: seq<Event>, s: State, name: string) {
    && Run(events, s) && SpawnFailed !in events && !s.l.inflight && s.overtaken
    && s.requests != [] && Last(s.requests) == name != s.l.shown
  }

  /** So is the second: asked for one map, for another, and for the first again before the other
      was taken up, the worker ends with the other on show. */
  lemma OvertakenRequestLost(name: string, other: string)
    requires PlainName(name) && PlainName(other) && name != other
    ensures exists events, s :: OvertakenAtRest(events, s, name)
  {
    var events, s := Shown(name);
    events, s := Onward(events, s, Request(other));
    events, s := Onward(events, s, Request(name));
    events, s := Onward(events, s, Fetched);
    events, s := Onward(events, s, Turn);
    events, s := Onward(events, s, Fetched);
    events, s := Onward(events, s, Turn);
    assert OvertakenAtRest(events, s, name);
  }

  /** Only plain names are fetched, and never the same one twice in a row. */
  lemma FetchesPlain(events: seq<Event>, s: State)
    requires Run(events, s)
    ensures forall n <- s.fetched :: PlainName(n)
    ensures forall i | 0 < i < |s.fetched| :: s.fetched[i - 1] != s.fetched[i]
  {
    RunKeeps(events, s);
  }
}
