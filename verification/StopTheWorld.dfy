/** Suspending every other thread of a process while code is written, against a process whose
    running threads keep creating and ending threads. */
module StopTheWorld {
  import opened Bytes

  const ROUNDS := 16
  const RETRY_TIMEOUT_MS := 2000
  const ERROR_ACCESS_DENIED := 5
  const ERROR_INVALID_PARAMETER := 87

  /** Each live thread's suspend count. */
  type Threads = map<nat, nat>

  /** The caller's own thread, when it belongs to the process. */
  type Own = Option<nat>

  /** Every other thread is suspended. */
  ghost predicate Stopped(live: Threads, own: Own) {
    forall t | t in live && Some(t) != own :: live[t] > 0
  }

  /** What the process does by itself: suspended threads and the caller stay as they are, running
      ones may end, new ones start running; but only a running thread starts or ends anything.
      A new thread may take the number of one that has ended. */
  ghost predicate Ran(a: Threads, b: Threads, own: Own) {
    && (forall t | t in a && (a[t] > 0 || Some(t) == own) :: t in b && b[t] == a[t])
    && (forall t | t in b && !(t in a && (a[t] > 0 || Some(t) == own)) :: b[t] == 0 && Some(t) != own)
    && (Stopped(a, own) ==> b == a)
  }

  /** Counts are those of `before`, plus one for each thread that is held. */
  ghost predicate Holding(before: Threads, live: Threads, held: seq<nat>, own: Own) {
    && (forall t | t in live :: live[t] == Count(before, t) + if t in held then 1 else 0)
    && (forall t | t in held :: t in live && Some(t) != own)
    && (forall t | t in before && (before[t] > 0 || Some(t) == own) :: t in live)
    && (own.Some? ==> own.value in before)
    && (forall i, j | 0 <= i < j < |held| :: held[i] != held[j])
  }

  function Count(before: Threads, t: nat): nat {
    if t in before then before[t] else 0
  }

  /** Nothing is held any more. */
  ghost predicate CountsAs(before: Threads, live: Threads, own: Own) {
    Holding(before, live, [], own)
  }

  ghost predicate AllIn(ids: seq<nat>, live: set<nat>) {
    forall j | 0 <= j < |ids| :: ids[j] in live
  }

  /** With every other thread stopped the set of threads stays, and stays stopped. */
  ghost predicate Still(a: Threads, b: Threads, own: Own) {
    Stopped(b, own) && b.Keys == a.Keys
  }

  lemma RunKeepsHolding(before: Threads, a: Threads, b: Threads, held: seq<nat>, own: Own)
    requires Holding(before, a, held, own) && Ran(a, b, own)
    ensures Holding(before, b, held, own)
  {
    forall t | t in b
      ensures b[t] == Count(before, t) + if t in held then 1 else 0
    {
      if !(t in a && (a[t] > 0 || Some(t) == own)) {
        assert t in before ==> before[t] == 0;
      }
    }
  }

  lemma ResumeKeepsHolding(before: Threads, live: Threads, held: seq<nat>, own: Own, t: nat)
    requires Holding(before, live, held + [t], own)
    ensures t in live && live[t] > 0
    ensures Holding(before, live[t := live[t] - 1], held, own)
  {
    var all := held + [t];
    assert all[|held|] == t && t in all;
    forall i | 0 <= i < |held| ensures held[i] != t {
      assert all[i] == held[i];
    }
    forall u ensures u in all <==> u in held || u == t {
    }
    forall i, j | 0 <= i < j < |held| ensures held[i] != held[j] {
      assert all[i] != all[j];
    }
  }

  datatype Failure = Gone | Again | Fatal

  /** What a failed open or suspend says about the thread. */
  function Classify(error: int, terminated: bool): Failure {
    if terminated || error == ERROR_INVALID_PARAMETER then Gone
    else if error == ERROR_ACCESS_DENIED then Again
    else Fatal
  }

  datatype Attempt = AllHeld(held: seq<nat>) | TryAgain | GiveUp

  /** `faulty` lets any call on the process fail; otherwise one fails only on a thread that ended. */
  class Process {
    var live: Threads
    const own: Own
    const faulty: bool

    /** The other threads run for a while. */
    method Run()
      modifies this
      ensures Ran(old(live), live, own)
    {
      if Stopping() {
        return;
      }
      var ended: set<nat>, started: set<nat> := *, *;
      live := (map t | t in live && (live[t] > 0 || Some(t) == own || t !in ended) :: live[t])
            + (map t | t in started && t !in live && Some(t) != own :: 0);
    }

    predicate Stopping()
      reads this
      ensures Stopping() <==> Stopped(live, own)
    {
      forall t | t in live && Some(t) != own :: live[t] > 0
    }

    /** A snapshot of the numbers of the other threads. */
    method ThreadIds() returns (ids: Option<seq<nat>>)
      ensures ids.Some? ==> forall t :: t in ids.value <==> t in live && Some(t) != own
      ensures ids.None? ==> faulty
    {
      var fails: bool := *;
      if faulty && fails {
        return None;
      }
      var rest: set<nat> := set t | t in live && Some(t) != own;
      var out: seq<nat> := [];
      while rest != {}
        invariant forall t :: t in out || t in rest <==> t in live && Some(t) != own
        decreases |rest|
      {
        var t :| t in rest;
        rest, out := rest - {t}, out + [t];
      }
      return Some(out);
    }

    /** `OpenThread` and `SuspendThread`, with the other threads running in between; the error
        codes are the system's own. */
    method Suspend(t: nat, ghost before: Threads, ghost held: seq<nat>) returns (failure: Option<Failure>)
      requires Holding(before, live, held, own) && t !in held && Some(t) != own
      modifies this
      ensures Holding(before, live, if failure.None? then held + [t] else held, own)
      ensures failure.None? || failure == Some(Gone) || faulty
      ensures !faulty && old(Stopped(live, own)) && t in old(live) ==> failure.None? && Still(old(live), live, own)
    {
      var openFails: bool, openError: int := *, *;
      if t !in live || (faulty && openFails) {
        return Some(Classify(if faulty then openError else ERROR_INVALID_PARAMETER, false));
      }
      Running(before, held);
      var refused: bool, error: int, terminated: bool := *, *, *;
      if t !in live || (faulty && refused) {
        return Some(Classify(if faulty then error else ERROR_ACCESS_DENIED, terminated || !faulty));
      }
      SuspendThread(t, before, held);
      Running(before, held + [t]);
      return None;
    }

    method SuspendThread(t: nat, ghost before: Threads, ghost held: seq<nat>)
      requires Holding(before, live, held, own) && t in live && t !in held && Some(t) != own
      modifies this
      ensures Holding(before, live, held + [t], own)
      ensures old(Stopped(live, own)) ==> Still(old(live), live, own)
    {
      live := live[t := live[t] + 1];
    }

    method Running(ghost before: Threads, ghost held: seq<nat>)
      requires Holding(before, live, held, own)
      modifies this
      ensures Holding(before, live, held, own) && Ran(old(live), live, own)
    {
      ghost var a := live;
      Run();
      RunKeepsHolding(before, a, live, held, own);
    }

    /** One pass over a snapshot: whatever is not held yet gets suspended. */
    method SuspendAll(ids: seq<nat>, held: seq<nat>, ghost before: Threads)
        returns (held': seq<nat>, failure: Option<Failure>)
      requires Holding(before, live, held, own) && forall t <- ids :: Some(t) != own
      modifies this
      ensures Holding(before, live, held', own) && failure != Some(Gone)
      ensures failure.Some? ==> faulty
      ensures !faulty && old(Stopped(live, own)) && AllIn(ids, old(live).Keys) ==>
        (forall j | 0 <= j < |ids| :: ids[j] in held') && Still(old(live), live, own)
    {
      held' := held;
      ghost var still := !faulty && Stopped(live, own) && AllIn(ids, live.Keys);
      for i := 0 to |ids|
        invariant Holding(before, live, held', own)
        invariant still ==> Still(old(live), live, own) && forall j | 0 <= j < i :: ids[j] in held'
      {
        if ids[i] !in held' {
          failure := Suspend(ids[i], before, held');
          if failure.None? {
            held' := held' + [ids[i]];
          } else if failure != Some(Gone) {
            return;
          }
        }
      }
      failure := None;
    }

    /** The guard's `Drop`: the last suspended thread resumes first, and once it runs it may do
        anything again. */
    method Release(held: seq<nat>, ghost before: Threads)
      requires Holding(before, live, held, own)
      modifies this
      ensures CountsAs(before, live, own)
    {
      var i := |held|;
      while i > 0
        invariant 0 <= i <= |held| && Holding(before, live, held[..i], own)
      {
        i := i - 1;
        assert held[..i + 1] == held[..i] + [held[i]];
        ResumeKeepsHolding(before, live, held[..i], own, held[i]);
        live := live[held[i] := live[held[i]] - 1];
        Running(before, held[..i]);
      }
    }

    /** `try_suspend_others`: success means that every other thread is held, so that none runs and
        nothing can start; otherwise every thread is as it was before the attempt. */
    method TrySuspendOthers() returns (r: Attempt)
      requires own.Some? ==> own.value in live
      modifies this
      ensures r.AllHeld? ==> Holding(old(live), live, r.held, own) && Stopped(live, own)
      ensures r.AllHeld? ==> forall t :: t in r.held <==> t in live && Some(t) != own
      ensures !r.AllHeld? ==> CountsAs(old(live), live, own)
      ensures r.GiveUp? ==> faulty
      ensures !faulty && old(Stopped(live, own)) ==> r.AllHeld?
    {
      ghost var before := live;
      var held: seq<nat> := [];
      for k := 0 to ROUNDS
        invariant Holding(before, live, held, own)
        invariant !faulty && Stopped(before, own) ==> k == 0 && live == before
      {
        var ids := ThreadIds();
        var failure := Some(Fatal);
        Running(before, held);
        if ids.Some? {
          held, failure := SuspendAll(ids.value, held, before);
        }
        if failure.Some? {
          Release(held, before);
          return if failure.value == Again then TryAgain else GiveUp;
        }
        var now := ThreadIds();
        if now.None? {
          Release(held, before);
          return GiveUp;
        }
        if forall t <- now.value :: t in held {
          return AllHeld(held);
        }
        Running(before, held);
      }
      Release(held, before);
      return TryAgain;
    }

    /** Nothing runs while every other thread is held: the world the guard was given is the world
        until it is dropped. */
    method WhileHeld(held: seq<nat>, ghost before: Threads)
      requires Holding(before, live, held, own) && Stopped(live, own)
      modifies this
      ensures live == old(live)
    {
      Run();
    }

    /** `suspend_others`: attempts that may be repeated are, for two seconds. */
    method SuspendOthers() returns (r: Option<seq<nat>>)
      requires own.Some? ==> own.value in live
      modifies this
      ensures r.Some? ==> Holding(old(live), live, r.value, own) && Stopped(live, own)
      ensures r.None? ==> CountsAs(old(live), live, own)
    {
      ghost var before := live;
      var elapsed: nat := 0;
      while true
        invariant CountsAs(before, live, own)
        decreases if elapsed < RETRY_TIMEOUT_MS then RETRY_TIMEOUT_MS - elapsed else 0
      {
        ghost var start := live;
        var attempt := TrySuspendOthers();
        if attempt.AllHeld? {
          return Some(attempt.held);
        }
        if attempt.GiveUp? || elapsed >= RETRY_TIMEOUT_MS {
          return None;
        }
        Running(before, []);
        var overslept: int := *;
        elapsed := elapsed + 1 + if overslept > 0 then overslept else 0;
      }
    }
  }

}
