/** What safety leaves possible: from every initial state the hook can become READY, and from every
    reachable state in which it serves, whatever failed before, it can be shut down and freed. */
module UnloadLifeCycle {
  import opened SiteProtocol
  import opened PatchToggles
  import opened UnloadProtocol
  import opened UnloadSafety

  ghost predicate Reach(s: State, t: State) {
    exists events :: Run(s, events) && After(s, events) == t
  }

  lemma {:induction false} RunSnoc(s: State, events: seq<Event>, e: Event)
    requires Run(s, events) && Enabled(After(s, events), e)
    ensures Run(s, events + [e]) && After(s, events + [e]) == Next(After(s, events), e)
    decreases |events|
  {
    if events == [] {
      assert Run(Next(s, e), []) && ([] + [e])[1..] == [];
    } else {
      RunSnoc(Next(s, events[0]), events[1..], e);
      assert (events + [e])[1..] == events[1..] + [e];
    }
  }

  lemma Start(s: State)
    ensures Reach(s, s)
  {
    assert Run(s, []) && After(s, []) == s;
  }

  lemma Go(s: State, t: State, e: Event, u: State)
    requires Reach(s, t) && Enabled(t, e) && u == Next(t, e)
    ensures Reach(s, u)
  {
    var events :| Run(s, events) && After(s, events) == t;
    RunSnoc(s, events, e);
  }

  /** A call that succeeds and leaves its site as given; groups are untouched. */
  ghost function Good(site: Site): Act {
    Act(true, site, Group([], false, false), Done, 0)
  }

  ghost function Picked(pick: nat): Act {
    Good(PRISTINE).(pick := pick)
  }

  ghost function Quiet(g: Group): Act {
    Good(PRISTINE).(group := g)
  }

  /** Injected, and the control block claimed. */
  lemma Claimed(s: State) returns (t: State)
    requires Init(s)
    ensures Reach(s, t)
    ensures t == s.(pc := Pc.Start(CheckInsecure), ctl := Waiting, block := s.block.(state := Starting))
  {
    Start(s);
    var s1 := s.(ctl := Waiting, pc := Pc.Start(Opening));
    Go(s, s, Controller(Good(PRISTINE)), s1);
    var s2 := s1.(pc := Pc.Start(Claiming));
    Go(s, s1, Worker(Good(PRISTINE)), s2);
    t := s2.(pc := Pc.Start(CheckInsecure), block := s.block.(state := Starting));
    Go(s, s2, Worker(Good(PRISTINE)), t);
  }

  /** `run` up to its first write. */
  lemma Resolved(o: State, s: State) returns (t: State)
    requires Reach(o, s) && s.pc == Pc.Start(CheckInsecure)
    ensures t == s.(pc := Raw(ApplyRaw(0)), raw := s.raw.(dirty := true)) && Reach(o, t)
  {
    var w := Worker(Good(PRISTINE));
    var s1 := s.(pc := Pc.Start(WaitModules));
    Go(o, s, w, s1);
    var s2 := s.(pc := Pc.Start(EngineInstall));
    Go(o, s1, w, s2);
    var s3 := s.(pc := Pc.Start(FullscreenInstall));
    Go(o, s2, w, s3);
    var s4 := s.(pc := Pc.Start(RawResolve));
    Go(o, s3, w, s4);
    t := s.(pc := Raw(ApplyRaw(0)), raw := s.raw.(dirty := true));
    Go(o, s4, w, t);
  }

  ghost function RawSites(on: nat): seq<Site> {
    [if on > 0 then APPLIED else PRISTINE, if on > 1 then APPLIED else PRISTINE,
     if on > 2 then APPLIED else PRISTINE, if on > 3 then APPLIED else PRISTINE]
  }

  /** The four raw-input sites, one after the other. */
  lemma {:induction false} RawInstalled(o: State, s: State, k: nat) returns (t: State)
    requires Reach(o, s) && k < RAW && s.pc == Raw(ApplyRaw(k)) && s.raw.sites == RawSites(k)
    ensures t == s.(pc := Features(ViewInstall), raw := s.raw.(sites := RawSites(4))) && Reach(o, t)
    decreases RAW - k
  {
    t := s.(pc := if k + 1 < RAW then Raw(ApplyRaw(k + 1)) else Features(ViewInstall),
            raw := s.raw.(sites := RawSites(k + 1)));
    assert s.raw.sites[k := APPLIED] == RawSites(k + 1);
    Go(o, s, Worker(Good(APPLIED)), t);
    if k + 1 < RAW {
      t := RawInstalled(o, t, k + 1);
    }
  }

  /** View-punch kept off, the download hook installed. */
  lemma FastInstalled(o: State, s: State) returns (t: State)
    requires Reach(o, s) && s.pc == Features(ViewInstall) && s.fast.sites == [PRISTINE]
    ensures t == s.(pc := PublishFeatures, fast := s.fast.(sites := [APPLIED], dirty := true)) && Reach(o, t)
  {
    var s1 := s.(pc := Features(FastResolve));
    Go(o, s, Worker(Picked(2)), s1);
    var s2 := s.(pc := Features(FastApply), fast := s.fast.(dirty := true));
    Go(o, s1, Worker(Good(PRISTINE)), s2);
    t := s.(pc := PublishFeatures, fast := s.fast.(sites := [APPLIED], dirty := true));
    Go(o, s2, Worker(Good(APPLIED)), t);
  }

  /** READY published and seen. */
  lemma BecomesReady(o: State, s: State) returns (t: State)
    requires Reach(o, s) && s.pc == PublishFeatures && s.ctl == Waiting
    ensures t == s.(pc := Loop, ctl := Running, block := s.block.(features := true, state := Ready)) && Reach(o, t)
  {
    var s1 := s.(pc := PublishReady, block := s.block.(features := true));
    Go(o, s, Worker(Good(PRISTINE)), s1);
    var s2 := s.(pc := Loop, block := s.block.(features := true, state := Ready));
    Go(o, s1, Worker(Good(PRISTINE)), s2);
    t := s2.(ctl := Running);
    Go(o, s2, Controller(Picked(0)), t);
  }

  /** The hook serves and the controller watches: nothing is said of the two groups of patches, nor
      of the threads that are inside callbacks. */
  ghost predicate InService(s: State) {
    && s.pc == Loop && s.ctl == Running
    && s.raw.sites == RawSites(4) && s.raw.count == |s.raw.inside|
    && s.fast.sites == [APPLIED] && s.fast.count == |s.fast.inside|
    && GroupsSettled(s)
  }

  /** Whatever a group's toggles left behind, it can be brought to where a disable will clear it. */
  ghost predicate Clearable(g: Group) {
    g.enabled || !g.dirty
  }

  ghost function Cleared(g: Group, on: bool): (g': Group)
    requires AllSettled(g.sites)
    ensures g.enabled != on ==> ToggleStep(g, on, Done, g') && g'.enabled == on == g'.dirty
    ensures AllSettled(g'.sites)
  {
    SettledCanBeDone(g.sites, on);
    Group(Uniform(|g.sites|, if on then APPLIED else PRISTINE), on, on)
  }

  /** By enabling each group that is off and DIRTY. */
  lemma GroupsClearable(o: State, s: State) returns (t: State)
    requires Reach(o, s) && s.pc == Loop && GroupsSettled(s)
    ensures t == s.(full := t.full, view := t.view) && Clearable(t.full) && Clearable(t.view)
    ensures GroupsSettled(t) && Reach(o, t)
  {
    var s1 := s;
    if !Clearable(s.full) {
      s1 := s.(full := Cleared(s.full, true));
      Go(o, s, Worker(Quiet(s1.full)), s1);
    }
    t := s1;
    if !Clearable(s.view) {
      t := s1.(view := Cleared(s.view, true));
      Go(o, s1, Worker(Quiet(t.view).(pick := 1)), t);
    }
  }

  /** The threads inside raw-input callbacks leave. */
  lemma {:induction false} RawEmptied(o: State, s: State) returns (t: State)
    requires Reach(o, s) && s.raw.count == |s.raw.inside|
    ensures t == s.(raw := s.raw.(inside := {}, count := 0)) && Reach(o, t)
    decreases s.raw.count
  {
    t := s;
    if s.raw.count > 0 {
      var id :| id in s.raw.inside;
      var s1 := s.(raw := Left(s.raw, id));
      Go(o, s, RawLeave(id), s1);
      t := RawEmptied(o, s1);
    }
  }

  lemma {:induction false} FastEmptied(o: State, s: State) returns (t: State)
    requires Reach(o, s) && s.fast.count == |s.fast.inside|
    ensures t == s.(fast := s.fast.(inside := {}, count := 0)) && Reach(o, t)
    decreases s.fast.count
  {
    t := s;
    if s.fast.count > 0 {
      var id :| id in s.fast.inside;
      var s1 := s.(fast := Left(s.fast, id));
      Go(o, s, FastLeave(id), s1);
      t := FastEmptied(o, s1);
    }
  }

  /** The controller asks for the stop and waits; the worker leaves its loop. */
  lemma Stopping(o: State, s: State) returns (t: State)
    requires Reach(o, s) && s.pc == Loop && s.ctl == Running
    ensures t == s.(pc := Shut(FastRestore), ctl := ShutJoin,
                    block := s.block.(stop := true, state := HookState.Stopping))
    ensures Reach(o, t)
  {
    var s2 := s.(ctl := ShutStop);
    Go(o, s, Controller(Good(PRISTINE)), s2);
    var s3 := s.(ctl := ShutJoin, block := s.block.(stop := true));
    Go(o, s2, Controller(Good(PRISTINE)), s3);
    var s4 := s3.(pc := SetStopping);
    Go(o, s3, Worker(Picked(2)), s4);
    t := s3.(pc := Shut(FastRestore), block := s.block.(stop := true, state := HookState.Stopping));
    Go(o, s4, Worker(Good(PRISTINE)), t);
  }

  ghost function Off(g: Group): Group
    requires AllSettled(g.sites)
  {
    if g.enabled then Cleared(g, false) else g
  }

  /** The shutdown ladder: the download hook. */
  lemma FastDone(o: State, s: State) returns (t: State)
    requires Reach(o, s) && s.pc == Shut(FastRestore) && s.fast.sites == [APPLIED] && s.fast.count == 0
    ensures t == s.(pc := Shut(FullRestore), errors := false, fast := s.fast.(sites := [PRISTINE], dirty := false))
    ensures Reach(o, t)
  {
    var s1 := s.(pc := Shut(FastPoll), errors := false, fast := s.fast.(sites := [PRISTINE]));
    Go(o, s, Worker(Good(PRISTINE)), s1);
    var s2 := s1.(pc := Shut(FastFinish));
    Go(o, s1, Worker(Good(PRISTINE)), s2);
    t := s1.(pc := Shut(FullRestore), fast := s1.fast.(dirty := false));
    Go(o, s2, Worker(Good(PRISTINE)), t);
  }

  /** The two groups. */
  lemma GroupsDone(o: State, s: State) returns (t: State)
    requires Reach(o, s) && s.pc == Shut(FullRestore)
    requires Clearable(s.full) && Clearable(s.view) && GroupsSettled(s)
    ensures t == s.(pc := Cleanup(Shutdown, RestoreRaw(RAW, false)), full := Off(s.full), view := Off(s.view))
    ensures Reach(o, t) && !t.full.dirty && !t.view.dirty
  {
    var s1 := s.(pc := Shut(ViewRestore), full := Off(s.full));
    Go(o, s, Worker(Quiet(Off(s.full))), s1);
    t := s1.(pc := Cleanup(Shutdown, RestoreRaw(RAW, false)), view := Off(s.view));
    Go(o, s1, Worker(Quiet(Off(s.view))), t);
  }

  /** Restored last first. */
  lemma {:induction false} RawRestored(o: State, s: State, k: nat) returns (t: State)
    requires Reach(o, s) && k <= RAW
    requires s.pc == Cleanup(Shutdown, RestoreRaw(k, false)) && s.raw.sites == RawSites(k)
    ensures t == s.(pc := Cleanup(Shutdown, RestoreRaw(0, false)), raw := s.raw.(sites := RawSites(0))) && Reach(o, t)
    decreases k
  {
    t := s;
    if k > 0 {
      t := s.(pc := Cleanup(Shutdown, RestoreRaw(k - 1, false)), raw := s.raw.(sites := RawSites(k - 1)));
      assert s.raw.sites[k - 1 := PRISTINE] == RawSites(k - 1);
      Go(o, s, Worker(Good(PRISTINE)), t);
      t := RawRestored(o, t, k - 1);
    }
  }

  /** `cleanup_hooks`: drained, freed, clean. */
  lemma DrainedAndFreed(o: State, s: State) returns (t: State)
    requires Reach(o, s) && s.pc == Cleanup(Shutdown, RestoreRaw(0, false))
    requires s.raw.sites == RawSites(0) && s.raw.count == 0
    ensures t == s.(pc := End(CheckFast(10)), raw := s.raw.(released := true, dirty := false))
    ensures Reach(o, t)
  {
    var w := Worker(Good(PRISTINE));
    var s1 := s.(pc := Cleanup(Shutdown, PollRaw));
    Go(o, s, w, s1);
    var s2 := s.(pc := Cleanup(Shutdown, ReleaseRaw));
    Go(o, s1, w, s2);
    var s3 := s.(pc := Cleanup(Shutdown, FinishRaw), raw := s.raw.(released := true));
    Go(o, s2, w, s3);
    t := s.(pc := End(CheckFast(10)), raw := s.raw.(released := true, dirty := false));
    Go(o, s3, w, t);
  }

  /** The quiescence tests pass. */
  lemma Quiescent(o: State, s: State) returns (t: State)
    requires Reach(o, s) && s.pc == End(CheckFast(10)) && !s.errors
    requires !s.fast.dirty && s.fast.count == 0 && !s.raw.dirty && s.raw.count == 0 && !s.full.dirty && !s.view.dirty
    ensures t == s.(pc := End(ClearFeatures(0))) && Reach(o, t)
  {
    var s1 := s.(pc := End(CheckRaw(10)));
    Go(o, s, Worker(Picked(7)), s1);
    t := s.(pc := End(ClearFeatures(0)));
    Go(o, s1, Worker(Picked(7)), t);
  }

  /** The clean stop is published and the worker exits. */
  lemma WorkerGone(o: State, s: State) returns (t: State)
    requires Reach(o, s) && s.pc == End(ClearFeatures(0))
    ensures t == s.(pc := Exited(0), block := s.block.(features := false, unloadSafe := true, state := Stopped))
    ensures Reach(o, t)
  {
    var w := Worker(Picked(7));
    var s1 := s.(pc := End(PublishSafe(0)), block := s.block.(features := false));
    Go(o, s, w, s1);
    var s2 := s.(pc := End(PublishState(0)), block := s.block.(features := false, unloadSafe := true));
    Go(o, s1, w, s2);
    var s3 := s.(pc := Dropping(0), block := s.block.(features := false, unloadSafe := true, state := Stopped));
    Go(o, s2, w, s3);
    t := s3.(pc := Exited(0));
    Go(o, s3, w, t);
  }

  lemma LibraryFreed(o: State, s: State) returns (t: State)
    requires Reach(o, s) && s.ctl == ShutJoin && s.pc == Exited(0) && s.block.state == Stopped && s.block.unloadSafe
    ensures t == s.(ctl := Finished, freed := true) && Reach(o, t)
  {
    var c := Controller(Good(PRISTINE));
    var s1 := s.(ctl := ShutState(0));
    Go(o, s, c, s1);
    var s2 := s.(ctl := ShutSafe(0, Stopped));
    Go(o, s1, c, s2);
    var s3 := s.(ctl := Freeing);
    Go(o, s2, c, s3);
    t := s.(ctl := Finished, freed := true);
    Go(o, s3, c, t);
  }

  ghost predicate ServedAndFreed(s: State) {
    s.freed && s.pc == Exited(0) && s.raw.released
  }

  /** From the loop to the quiescence tests. */
  lemma StopPossible(s: State) returns (t: State)
    requires InService(s)
    ensures Reach(s, t) && t.pc == End(CheckFast(10)) && t.ctl == ShutJoin && t.raw.released && !t.errors
    ensures !t.fast.dirty && t.fast.count == 0 && !t.raw.dirty && t.raw.count == 0 && !t.full.dirty && !t.view.dirty
  {
    Start(s);
    var s2 := GroupsClearable(s, s);
    var s3 := RawEmptied(s, s2);
    var s4 := FastEmptied(s, s3);
    var s5 := Stopping(s, s4);
    var s6 := FastDone(s, s5);
    var s7 := GroupsDone(s, s6);
    var s8 := RawRestored(s, s7, RAW);
    t := DrainedAndFreed(s, s8);
  }

  lemma FreePossible(s: State) returns (t: State)
    requires InService(s)
    ensures Reach(s, t) && ServedAndFreed(t)
  {
    var g := StopPossible(s);
    var h := Quiescent(s, g);
    var k := WorkerGone(s, h);
    t := LibraryFreed(s, k);
  }

  /** No dead end: in every reachable state in which the hook serves under a running controller,
      even after failed rollbacks of its groups and with threads inside its callbacks, the run can
      go on until the library is freed. */
  lemma FreeAlwaysPossible(s: State, events: seq<Event>)
    requires Init(s) && Run(s, events) && After(s, events).pc == Loop && After(s, events).ctl == Running
    ensures exists t: State :: Reach(After(s, events), t) && ServedAndFreed(t)
  {
    RunPreserves(s, events);
    RunSettled(s, events);
    var o := After(s, events);
    assert o.raw.sites == RawSites(4) && o.fast.sites == [APPLIED];
    var t := FreePossible(o);
  }

  /** And such states are reachable from every initial state. */
  lemma ReadyPossible(s: State)
    requires Init(s)
    ensures exists t: State :: Reach(s, t) && InService(t) && t.block.state == Ready
  {
    var claimed := Claimed(s);
    var a := Resolved(s, claimed);
    assert a.raw.sites == RawSites(0) && a.fast.sites == [PRISTINE];
    var b := RawInstalled(s, a, 0);
    var c := FastInstalled(s, b);
    var t := BecomesReady(s, c);
  }

  ghost function AtStart(): State {
    var off := Group([PRISTINE, PRISTINE], false, false);
    State(NotStarted, false, Feature(RawSites(0), false, 0, {}, false), Feature([PRISTINE], false, 0, {}, false),
          off, off, Block(Created, false, false, false, 0), Creating, false)
  }

  /** So the safety theorems are not empty: there is an initial state, and a whole life from it. */
  lemma LifeCyclePossible()
    ensures Init(AtStart())
    ensures exists s, t :: Reach(AtStart(), s) && InService(s) && Reach(s, t) && ServedAndFreed(t)
  {
    ReadyPossible(AtStart());
    var s: State :| Reach(AtStart(), s) && InService(s);
    var t := FreePossible(s);
    assert Reach(AtStart(), s) && InService(s) && Reach(s, t) && ServedAndFreed(t);
  }
}
