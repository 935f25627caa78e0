/** Proof that the unload protocol keeps its invariant, and the safety theorems that follow. */
module UnloadSafety {
  import opened SiteProtocol
  import opened PatchToggles
  import opened UnloadProtocol

  lemma DroppedQuiet(g: Group, g': Group)
    requires DroppedGroup(g, g') && InState(g, false)
    ensures g' == g
  {
    forall i | 0 <= i < |g.sites|
      ensures g'.sites[i] == g.sites[i]
    {
    }
    assert g'.sites == g.sites;
  }

  lemma OpeningPreserves(s: State, p: StartPc, a: Act)
    requires Inv(s) && s.pc == Start(p) && (p.Opening? || p.Claiming? || p.CheckInsecure?)
    ensures Inv(StartNext(s, p, a))
  {
  }

  lemma InstallingPreserves(s: State, p: StartPc, a: Act)
    requires Inv(s) && s.pc == Start(p) && (p.EngineInstall? || p.FullscreenInstall? || p.RawResolve?)
    ensures Inv(StartNext(s, p, a))
  {
  }

  lemma WaitingPreserves(s: State, p: StartPc, a: Act)
    requires Inv(s) && s.pc == Start(p) && (p.WaitModules? || p.NoModules?)
    ensures Inv(StartNext(s, p, a))
  {
  }

  lemma StartPreserves(s: State, p: StartPc, a: Act)
    requires Inv(s) && s.pc == Start(p)
    ensures Inv(StartNext(s, p, a))
  {
    if p.Opening? || p.Claiming? || p.CheckInsecure? {
      OpeningPreserves(s, p, a);
    } else if p.WaitModules? || p.NoModules? {
      WaitingPreserves(s, p, a);
    } else {
      InstallingPreserves(s, p, a);
    }
  }

  lemma RawPreserves(s: State, p: RawPc, a: Act)
    requires Inv(s) && s.pc == Raw(p) && RawEnabled(s, p, a)
    ensures Inv(RawNext(s, p, a))
  {
  }

  lemma RestoreRawPreserves(s: State, caller: Caller, left: nat, failed: bool, a: Act)
    requires Inv(s) && s.pc == Cleanup(caller, RestoreRaw(left, failed)) && CleanEnabled(s, s.pc.clean, a)
    ensures Inv(CleanNext(s, caller, s.pc.clean, a))
  {
  }

  lemma CleanPreserves(s: State, caller: Caller, p: CleanPc, a: Act)
    requires Inv(s) && s.pc == Cleanup(caller, p) && CleanEnabled(s, p, a)
    ensures Inv(CleanNext(s, caller, p, a))
  {
    if p.RestoreRaw? {
      RestoreRawPreserves(s, caller, p.left, p.failed, a);
    }
  }

  lemma FeaturePreserves(s: State, p: FeaturePc, a: Act)
    requires Inv(s) && s.pc == Features(p) && FeatureEnabled(s, p, a)
    ensures Inv(FeatureNext(s, p, a))
  {
    if p.ViewDrop? && InState(s.view, false) {
      DroppedQuiet(s.view, a.group);
    }
  }

  lemma LoopPreserves(s: State, a: Act)
    requires Inv(s) && s.pc == Loop && LoopEnabled(s, a)
    ensures Inv(LoopNext(s, a))
  {
  }

  lemma ShutPreserves(s: State, p: ShutPc, a: Act)
    requires Inv(s) && s.pc == Shut(p) && ShutEnabled(s, p, a)
    ensures Inv(ShutNext(s, p, a))
  {
  }

  /** What the quiescence tests buy. */
  lemma QuiescentIsClean(s: State, code: nat)
    requires (code == 7 || (!s.errors && !s.view.dirty)) && !s.raw.dirty && s.raw.count == 0 && !s.full.dirty
    requires Inv(s) && s.pc == End(CheckRaw(code))
    ensures Clean(s)
  {
  }

  lemma CheckRawPreserves(s: State, p: EndPc)
    requires Inv(s) && s.pc == End(p) && p.CheckRaw?
    ensures Inv(EndNext(s, p))
  {
    var code := p.code;
    if (code == 7 || (!s.errors && !s.view.dirty)) && !s.raw.dirty && s.raw.count == 0 && !s.full.dirty {
      QuiescentIsClean(s, code);
    }
  }

  lemma EndPreserves(s: State, p: EndPc)
    requires Inv(s) && s.pc == End(p)
    ensures Inv(EndNext(s, p))
  {
    match p {
      case CheckRaw(_) => CheckRawPreserves(s, p);
      case _ =>
    }
  }

  lemma DropPreserves(s: State, code: nat, a: Act)
    requires Inv(s) && s.pc == Dropping(code) && DropEnabled(s, a)
    ensures Inv(DropNext(s, code, a))
  {
    if a.pick == 5 && InState(s.view, false) {
      DroppedQuiet(s.view, a.group);
    }
    if a.pick == 6 && InState(s.full, false) {
      DroppedQuiet(s.full, a.group);
    }
  }

  /** Coming and going of threads in one feature's callbacks. */
  ghost predicate Traffic(f: Feature, f': Feature) {
    && f' == f.(inside := f'.inside, count := f'.count)
    && f'.count == |f'.inside| && (Drained(f) ==> f'.inside == {})
  }

  lemma TrafficPreserves(s: State, raw: Feature, fast: Feature)
    requires Inv(s) && Traffic(s.raw, raw) && Traffic(s.fast, fast)
    ensures Inv(s.(raw := raw, fast := fast))
  {
  }

  lemma EnterLeave(f: Feature, n: nat, k: nat, id: nat)
    requires FeatureInv(f, n)
    ensures CanEnter(f, k, id) ==> Traffic(f, Entered(f, id))
    ensures id in f.inside && f.count > 0 ==> Traffic(f, Left(f, id))
  {
  }

  /** The controller changes only its own state and the stop word, and starts the worker once. */
  lemma ControllerFrame(s: State, a: Act)
    requires CtlInv(s)
    ensures CtlInv(ControllerNext(s, a))
    ensures var t := ControllerNext(s, a);
      && t == s.(pc := t.pc, ctl := t.ctl, freed := t.freed, block := s.block.(stop := t.block.stop))
      && (t.pc == s.pc || (s.pc == NotStarted && t.pc == Start(Opening)))
  {
  }

  lemma ControllerPreserves(s: State, a: Act)
    requires Inv(s)
    ensures Inv(ControllerNext(s, a))
  {
    ControllerFrame(s, a);
    var t := ControllerNext(s, a);
    assert PcInv(t);
  }

  /** Installing, up to READY. */
  predicate Early(pc: Pc) {
    pc.Start? || pc.Raw? || pc.Cleanup? || pc.Features?
  }

  /** The steps between installing and shutting down. */
  predicate Middle(pc: Pc) {
    pc.PublishFeatures? || pc.PublishReady? || pc.Loop? || pc.SetStopping?
  }

  lemma EarlyPreserves(s: State, a: Act)
    requires Inv(s) && WorkerEnabled(s, a) && Early(s.pc)
    ensures Inv(WorkerNext(s, a))
  {
    match s.pc
    case Start(p) => StartPreserves(s, p, a);
    case Raw(p) => RawPreserves(s, p, a);
    case Cleanup(caller, p) => CleanPreserves(s, caller, p, a);
    case Features(p) => FeaturePreserves(s, p, a);
  }

  lemma MiddlePreserves(s: State, a: Act)
    requires Inv(s) && WorkerEnabled(s, a) && Middle(s.pc)
    ensures Inv(WorkerNext(s, a))
  {
    if s.pc.Loop? {
      LoopPreserves(s, a);
    }
  }

  lemma LatePreserves(s: State, a: Act)
    requires Inv(s) && WorkerEnabled(s, a) && !Early(s.pc) && !Middle(s.pc)
    ensures Inv(WorkerNext(s, a))
  {
    match s.pc
    case Shut(p) => ShutPreserves(s, p, a);
    case End(p) => EndPreserves(s, p);
    case Dropping(code) => DropPreserves(s, code, a);
  }

  lemma WorkerPreserves(s: State, a: Act)
    requires Inv(s) && WorkerEnabled(s, a)
    ensures Inv(WorkerNext(s, a))
  {
    if Early(s.pc) {
      EarlyPreserves(s, a);
    } else if Middle(s.pc) {
      MiddlePreserves(s, a);
    } else {
      LatePreserves(s, a);
    }
  }

  lemma GamePreserves(s: State, e: Event)
    requires Inv(s) && Enabled(s, e) && !e.Worker? && !e.Controller?
    ensures Inv(Next(s, e))
  {
    match e
    case RawEnter(k, id) =>
      EnterLeave(s.raw, RAW, k, id);
      TrafficPreserves(s, Entered(s.raw, id), s.fast);
    case RawLeave(id) =>
      EnterLeave(s.raw, RAW, 0, id);
      TrafficPreserves(s, Left(s.raw, id), s.fast);
    case FastEnter(id) =>
      EnterLeave(s.fast, 1, 0, id);
      TrafficPreserves(s, s.raw, Entered(s.fast, id));
    case FastLeave(id) =>
      EnterLeave(s.fast, 1, 0, id);
      TrafficPreserves(s, s.raw, Left(s.fast, id));
    case ControllerDies =>
  }

  lemma StepPreserves(s: State, e: Event)
    requires Inv(s) && Enabled(s, e)
    ensures Inv(Next(s, e))
  {
    if e.Worker? {
      WorkerPreserves(s, e.act);
    } else if e.Controller? {
      ControllerPreserves(s, e.act);
    } else {
      GamePreserves(s, e);
    }
  }

  /** No site of a group is ever in unmarked doubt. */
  ghost predicate GroupsSettled(s: State) {
    AllSettled(s.full.sites) && AllSettled(s.view.sites)
  }

  lemma DroppedSettled(g: Group, g': Group)
    requires DroppedGroup(g, g') && AllSettled(g.sites)
    ensures AllSettled(g'.sites)
  {
    forall i | 0 <= i < |g'.sites| ensures Settled(g'.sites[i]) {
      assert EitherRestored(g.sites[i], g'.sites[i]) && Settled(g.sites[i]);
    }
  }

  /** Only at these places does the worker touch a group. */
  predicate Toggling(pc: Pc) {
    pc.Features? || pc.Loop? || pc.Shut? || pc.Dropping?
  }

  lemma TogglingSettled(s: State, a: Act)
    requires GroupsSettled(s) && WorkerEnabled(s, a) && Toggling(s.pc)
    ensures GroupsSettled(WorkerNext(s, a))
  {
    if s.pc == Features(ViewDrop) || (s.pc.Dropping? && a.pick == 5) {
      DroppedSettled(s.view, a.group);
    } else if s.pc.Dropping? && a.pick == 6 {
      DroppedSettled(s.full, a.group);
    }
  }

  lemma WorkerSettled(s: State, a: Act)
    requires GroupsSettled(s) && WorkerEnabled(s, a)
    ensures GroupsSettled(WorkerNext(s, a))
  {
    if Toggling(s.pc) {
      TogglingSettled(s, a);
    }
  }

  lemma {:induction false} RunSettled(s: State, events: seq<Event>)
    requires GroupsSettled(s) && Run(s, events)
    ensures GroupsSettled(After(s, events))
    decreases |events|
  {
    if events != [] {
      if events[0].Worker? {
        WorkerSettled(s, events[0].act);
      }
      RunSettled(Next(s, events[0]), events[1..]);
    }
  }

  lemma {:induction false} RunPreserves(s: State, events: seq<Event>)
    requires Inv(s) && Run(s, events)
    ensures Inv(After(s, events))
    decreases |events|
  {
    if events != [] {
      StepPreserves(s, events[0]);
      RunPreserves(Next(s, events[0]), events[1..]);
    }
  }

  /** Unload safety. In every state of every run in which FreeLibrary has been called, the worker
      never started or has exited, every site holds its original bytes untainted, and no thread
      is inside a hooked callback. */
  lemma FreedOnlyWhenClean(s: State, events: seq<Event>)
    requires Init(s) && Run(s, events) && After(s, events).freed
    ensures After(s, events).pc == NotStarted || After(s, events).pc.Exited?
    ensures Clean(After(s, events))
  {
    RunPreserves(s, events);
  }

  /** The published word means what its documentation says, at every moment of every run. */
  lemma UnloadSafeMeaning(s: State, events: seq<Event>)
    requires Init(s) && Run(s, events) && After(s, events).block.unloadSafe
    ensures Clean(After(s, events)) && !After(s, events).block.features
  {
    RunPreserves(s, events);
  }

  /** While READY is published every rawinput and fastdl hook is installed. */
  lemma ReadyMeansInstalled(s: State, events: seq<Event>)
    requires Init(s) && Run(s, events) && After(s, events).block.state == Ready
    ensures AllAre(After(s, events).raw.sites, APPLIED) && AllAre(After(s, events).fast.sites, APPLIED)
    ensures After(s, events).block.features && !After(s, events).freed
  {
    RunPreserves(s, events);
  }

  /** Once `cleanup_hooks` has released the trampoline no thread is, or ever again comes, inside
      a raw-input callback. */
  lemma ReleasedMeansDrained(s: State, events: seq<Event>)
    requires Init(s) && Run(s, events) && After(s, events).raw.released
    ensures After(s, events).raw.inside == {} && AllAre(After(s, events).raw.sites, PRISTINE)
  {
    RunPreserves(s, events);
  }
}
