/** Controller, hook worker and game threads, interleaved: when may the DLL be freed?

    One worker step is one atomic action of `run` as the other parties can see it: a store to or
    load from the shared block, a load of a callback counter, or one guarded write to one site
    (no game thread runs while the guard is held, so the write is one step). A callback's entry
    and its counter increment are one step, and so are its decrement and its exit. */
module UnloadProtocol {
  import opened SiteProtocol
  import opened PatchToggles

  datatype HookState = Created | Starting | Ready | Stopping | Stopped | Failed

  /** The words of the shared control block that the unload decision uses. */
  datatype Block = Block(state: HookState, stop: bool, unloadSafe: bool, features: bool, error: nat)

  const RAW: nat := 4 // window procedure, accumulator slot, two sample-time slots

  /** A feature with callbacks: its sites, its DIRTY and ACTIVE_CALLBACKS statics, the threads
      really inside its callbacks, and whether cleanup released its trampoline. */
  datatype Feature = Feature(sites: seq<Site>, dirty: bool, count: nat, inside: set<nat>, released: bool)

  /** `cleanup_hooks` callers: a failed install, install codes 8 and 9, and the shutdown. */
  datatype Caller = Install | Eight | Nine | Shutdown

  datatype StartPc =
    | Opening | Claiming | CheckInsecure | WaitModules | NoModules | EngineInstall | FullscreenInstall | RawResolve

  datatype RawPc = ApplyRaw(k: nat) | UndoRaw(k: nat) | ClearRaw | DropRaw(k: nat)

  datatype CleanPc = RestoreRaw(left: nat, failed: bool) | PollRaw | ReleaseRaw | FinishRaw

  datatype FeaturePc =
    | ViewInstall | ViewDrop | FastResolve | FastApply | FastUndo | FastClean | ViewUndo

  datatype ShutPc = FastRestore | FastPoll | FastFinish | FullRestore | ViewRestore

  datatype EndPc =
    | CheckFast(code: nat) | CheckRaw(code: nat)
    | FailError(code: nat, safe: bool) | ClearFeatures(code: nat) | PublishSafe(code: nat) | PublishState(code: nat)

  /** Where the worker stands in `run`. End code 0 is the clean stop. */
  datatype Pc =
    | NotStarted
    | Start(start: StartPc)
    | Raw(raw: RawPc)
    | Cleanup(caller: Caller, clean: CleanPc)
    | Features(feature: FeaturePc)
    | PublishFeatures
    | PublishReady
    | Loop
    | SetStopping
    | Shut(shut: ShutPc)
    | End(end: EndPc)
    | Dropping(code: nat)
    | Exited(code: nat)

  datatype Ctl =
    | Creating | Waiting
    | StartupStop | StartupJoin | StartupCheck
    | Running
    | ShutStop | ShutJoin | ShutState(code: nat) | ShutSafe(code: nat, state: HookState)
    | Freeing | Finished | GaveUp | Dead

  datatype State = State(
    pc: Pc, errors: bool,
    raw: Feature, fast: Feature, full: Group, view: Group,
    block: Block, ctl: Ctl, freed: bool)

  /** How the nondeterminism of one step is resolved: did the call succeed, what became of the
      site or group it worked on, and which of several possible actions was taken. */
  datatype Act = Act(ok: bool, site: Site, group: Group, result: ToggleResult, pick: nat)

  datatype Event =
    | Worker(act: Act)
    | RawEnter(site: nat, id: nat)
    | RawLeave(id: nat)
    | FastEnter(id: nat)
    | FastLeave(id: nat)
    | Controller(act: Act)
    | ControllerDies

  ghost predicate GroupQuiet(g: Group) {
    !g.enabled && !g.dirty && InState(g, false)
  }

  /** Nothing points into the feature's callbacks and no thread is inside one. */
  ghost predicate Drained(f: Feature) {
    AllAre(f.sites, PRISTINE) && f.inside == {}
  }

  ghost predicate FeatureQuiet(f: Feature) {
    Drained(f) && !f.dirty
  }

  ghost predicate Init(s: State) {
    && s.pc == NotStarted && !s.errors
    && |s.raw.sites| == RAW && FeatureQuiet(s.raw) && s.raw.count == 0 && !s.raw.released
    && |s.fast.sites| == 1 && FeatureQuiet(s.fast) && s.fast.count == 0 && !s.fast.released
    && GroupQuiet(s.full) && GroupQuiet(s.view)
    && s.block == Block(Created, false, false, false, 0)
    && s.ctl == Creating && !s.freed
  }

  /** The worker sees a stop request or a dead controller. */
  predicate ShouldStop(s: State) {
    s.block.stop || s.ctl == Dead
  }

  ghost predicate EitherRestored(s: Site, s': Site) {
    Restored(s, true, s') || Restored(s, false, s')
  }

  /** Dropping the patches of a group: each restored, outcomes ignored. */
  ghost predicate DroppedGroup(g: Group, g': Group) {
    && |g'.sites| == |g.sites| && g'.enabled == g.enabled && g'.dirty == g.dirty
    && forall i | 0 <= i < |g.sites| :: EitherRestored(g.sites[i], g'.sites[i])
  }

  function Set(f: Feature, k: nat, site: Site): Feature {
    if k < |f.sites| then f.(sites := f.sites[k := site]) else f
  }

  function Get(f: Feature, k: nat): Site {
    if k < |f.sites| then f.sites[k] else PRISTINE
  }

  // ---- the worker ----

  /** `run` up to the first write, rawinput resolution included. */
  function StartNext(s: State, p: StartPc, a: Act): State {
    match p
    case Opening => s.(pc := if a.ok then Start(Claiming) else Exited(1))
    case Claiming =>
      if s.block.state == Created then s.(pc := Start(CheckInsecure), block := s.block.(state := Starting))
      else s.(pc := End(FailError(2, true)))
    case CheckInsecure => s.(pc := if a.ok then Start(WaitModules) else End(FailError(3, true)))
    case WaitModules => s.(pc := if a.ok then Start(EngineInstall) else Start(NoModules))
    case NoModules => s.(pc := End(if ShouldStop(s) then PublishSafe(0) else FailError(4, true)))
    case EngineInstall => s.(pc := if a.ok then Start(FullscreenInstall) else End(FailError(5, true)))
    case FullscreenInstall => s.(pc := if a.ok then Start(RawResolve) else End(FailError(6, true)))
    case RawResolve =>
      if a.ok then s.(pc := Raw(ApplyRaw(0)), raw := s.raw.(dirty := true)) else s.(pc := End(CheckRaw(7)))
  }

  /** rawinput `Hooks::install`: the four sites in order; a failed one is undone by itself, and a
      clean failure unwinds the earlier ones through `cleanup_hooks`. */
  ghost predicate RawEnabled(s: State, p: RawPc, a: Act) {
    match p
    case ApplyRaw(k) =>
      if k == 0 then PatchApplied(Get(s.raw, k), a.ok, a.site) else PointerApplied(Get(s.raw, k), a.ok, a.site)
    case UndoRaw(k) => Restored(Get(s.raw, k), a.ok, a.site)
    case ClearRaw => true
    case DropRaw(k) => k > 0 ==> EitherRestored(Get(s.raw, k - 1), a.site)
  }

  function RawNext(s: State, p: RawPc, a: Act): State {
    match p
    case ApplyRaw(k) => s.(raw := Set(s.raw, k, a.site),
      pc := if !a.ok then Raw(UndoRaw(k)) else if k + 1 < RAW then Raw(ApplyRaw(k + 1)) else Features(ViewInstall))
    case UndoRaw(k) => s.(raw := Set(s.raw, k, a.site),
      pc := if !a.ok then Raw(DropRaw(k)) else if k == 0 then Raw(ClearRaw) else Cleanup(Install, RestoreRaw(k, false)))
    case ClearRaw => s.(pc := End(CheckRaw(7)), raw := s.raw.(dirty := false))
    case DropRaw(k) =>
      if k == 0 then s.(pc := End(CheckRaw(7)))
      else s.(pc := Raw(DropRaw(k - 1)), raw := Set(s.raw, k - 1, a.site))
  }

  /** Where `cleanup_hooks` returns to. */
  function AfterCleanup(caller: Caller): Pc {
    match caller
    case Install => End(CheckRaw(7))
    case Eight => End(CheckRaw(8))
    case Nine => End(CheckFast(9))
    case Shutdown => End(CheckFast(10))
  }

  ghost predicate CleanEnabled(s: State, p: CleanPc, a: Act) {
    match p
    case RestoreRaw(left, _) => left > 0 ==> Restored(Get(s.raw, left - 1), a.ok, a.site)
    case PollRaw => a.ok ==> s.raw.count == 0
    case ReleaseRaw => true
    case FinishRaw => true
  }

  /** `cleanup_hooks`: samples, accumulator, window procedure, each tried; then wait for the
      callbacks, free the trampoline, and only then clear DIRTY. */
  function CleanNext(s: State, caller: Caller, p: CleanPc, a: Act): State {
    match p
    case RestoreRaw(left, failed) =>
      if left > 0 then
        s.(pc := Cleanup(caller, RestoreRaw(left - 1, failed || !a.ok)), raw := Set(s.raw, left - 1, a.site))
      else if failed then s.(pc := AfterCleanup(caller), errors := true)
      else s.(pc := Cleanup(caller, PollRaw))
    case PollRaw =>
      if a.ok then s.(pc := Cleanup(caller, ReleaseRaw))
      else if a.pick == 0 then s
      else s.(pc := AfterCleanup(caller), errors := true)
    case ReleaseRaw =>
      if a.ok && Get(s.raw, 0) == PRISTINE then s.(pc := Cleanup(caller, FinishRaw), raw := s.raw.(released := true))
      else s.(pc := AfterCleanup(caller), errors := true)
    case FinishRaw => s.(pc := AfterCleanup(caller), raw := s.raw.(dirty := false))
  }

  ghost predicate FeatureEnabled(s: State, p: FeaturePc, a: Act) {
    match p
    case ViewInstall => a.pick == 1 ==> ToggleStep(s.view, true, a.result, a.group)
    case ViewDrop => DroppedGroup(s.view, a.group)
    case FastResolve => true
    case FastApply => PointerApplied(Get(s.fast, 0), a.ok, a.site)
    case FastUndo => Restored(Get(s.fast, 0), a.ok, a.site)
    case FastClean => true
    case ViewUndo => ToggleStep(s.view, false, a.result, a.group)
  }

  /** viewpunch and fastdl installs and their unwinding (codes 8 and 9). ViewInstall picks:
      0 resolution failed, 1 enabled at start, 2 kept off. */
  function FeatureNext(s: State, p: FeaturePc, a: Act): State {
    match p
    case ViewInstall =>
      if a.pick == 0 then s.(pc := Cleanup(Eight, RestoreRaw(RAW, false)))
      else if a.pick == 1 then s.(view := a.group, pc := Features(if a.result == Done then FastResolve else ViewDrop))
      else s.(pc := Features(FastResolve))
    case ViewDrop => s.(pc := Cleanup(Eight, RestoreRaw(RAW, false)), view := a.group)
    case FastResolve =>
      if a.ok then s.(pc := Features(FastApply), fast := s.fast.(dirty := true)) else s.(pc := Features(ViewUndo))
    case FastApply => s.(fast := Set(s.fast, 0, a.site), pc := if a.ok then PublishFeatures else Features(FastUndo))
    case FastUndo => s.(fast := Set(s.fast, 0, a.site), pc := Features(if a.ok then FastClean else ViewUndo))
    case FastClean => s.(pc := Features(ViewUndo), fast := s.fast.(dirty := false))
    case ViewUndo => s.(view := a.group, errors := a.result != Done, pc := Cleanup(Nine, RestoreRaw(RAW, false)))
  }

  ghost predicate LoopEnabled(s: State, a: Act) {
    && (a.pick == 2 ==> ShouldStop(s))
    && (a.pick == 0 ==> ToggleStep(s.full, !s.full.enabled, a.result, a.group))
    && (a.pick == 1 ==> ToggleStep(s.view, !s.view.enabled, a.result, a.group))
  }

  /** One turn of the service loop: F6, F7, stop, or nothing. The stop word is read at the head of
      the loop only, so a toggle may still run after it was stored. */
  function LoopNext(s: State, a: Act): State {
    if a.pick == 0 then s.(full := a.group)
    else if a.pick == 1 then s.(view := a.group)
    else if a.pick == 2 then s.(pc := SetStopping)
    else s
  }

  ghost predicate ShutEnabled(s: State, p: ShutPc, a: Act) {
    match p
    case FastRestore => Restored(Get(s.fast, 0), a.ok, a.site)
    case FastPoll => a.ok ==> s.fast.count == 0
    case FastFinish => true
    case FullRestore => ToggleStep(s.full, false, a.result, a.group)
    case ViewRestore => ToggleStep(s.view, false, a.result, a.group)
  }

  /** The shutdown ladder: fastdl, fullscreen, viewpunch, then rawinput. */
  function ShutNext(s: State, p: ShutPc, a: Act): State {
    match p
    case FastRestore =>
      s.(fast := Set(s.fast, 0, a.site), errors := !a.ok, pc := Shut(if a.ok then FastPoll else FullRestore))
    case FastPoll =>
      if a.ok then s.(pc := Shut(FastFinish))
      else if a.pick == 0 then s
      else s.(pc := Shut(FullRestore), errors := true)
    case FastFinish => s.(pc := Shut(FullRestore), fast := s.fast.(dirty := false))
    case FullRestore => s.(full := a.group, errors := s.errors || a.result != Done, pc := Shut(ViewRestore))
    case ViewRestore =>
      s.(view := a.group, errors := s.errors || a.result != Done, pc := Cleanup(Shutdown, RestoreRaw(RAW, false)))
  }

  /** The `is_quiescent` conjunctions of codes 7 to 10, then `fail` or the clean stop. */
  function EndNext(s: State, p: EndPc): State {
    match p
    case CheckFast(code) =>
      s.(pc := End(if !s.errors && !s.fast.dirty && s.fast.count == 0 then CheckRaw(code) else FailError(code, false)))
    case CheckRaw(code) =>
      if (code == 7 || (!s.errors && !s.view.dirty)) && !s.raw.dirty && s.raw.count == 0 && !s.full.dirty
      then s.(pc := End(if code == 10 then ClearFeatures(0) else FailError(code, true)))
      else s.(pc := End(FailError(code, false)))
    case FailError(code, safe) =>
      s.(pc := End(if safe then ClearFeatures(code) else PublishState(code)), block := s.block.(error := code))
    case ClearFeatures(code) => s.(pc := End(PublishSafe(code)), block := s.block.(features := false))
    case PublishSafe(code) => s.(pc := End(PublishState(code)), block := s.block.(unloadSafe := true))
    case PublishState(code) =>
      s.(pc := Dropping(code), block := s.block.(state := if code == 0 then Stopped else Failed))
  }

  /** Locals of `run` are dropped: any hook may be restored again, in any order. */
  ghost predicate DropEnabled(s: State, a: Act) {
    && (a.pick < RAW ==> EitherRestored(Get(s.raw, a.pick), a.site))
    && (a.pick == 4 ==> EitherRestored(Get(s.fast, 0), a.site))
    && (a.pick == 5 ==> DroppedGroup(s.view, a.group))
    && (a.pick == 6 ==> DroppedGroup(s.full, a.group))
  }

  function DropNext(s: State, code: nat, a: Act): State {
    if a.pick < RAW then s.(raw := Set(s.raw, a.pick, a.site))
    else if a.pick == 4 then s.(fast := Set(s.fast, 0, a.site))
    else if a.pick == 5 then s.(view := a.group)
    else if a.pick == 6 then s.(full := a.group)
    else s.(pc := Exited(code))
  }

  ghost predicate WorkerEnabled(s: State, a: Act) {
    match s.pc
    case NotStarted => false
    case Exited(_) => false
    case Raw(p) => RawEnabled(s, p, a)
    case Cleanup(_, p) => CleanEnabled(s, p, a)
    case Features(p) => FeatureEnabled(s, p, a)
    case Loop => LoopEnabled(s, a)
    case Shut(p) => ShutEnabled(s, p, a)
    case Dropping(_) => DropEnabled(s, a)
    case _ => true
  }

  function WorkerNext(s: State, a: Act): State {
    match s.pc
    case NotStarted => s
    case Start(p) => StartNext(s, p, a)
    case Raw(p) => RawNext(s, p, a)
    case Cleanup(caller, p) => CleanNext(s, caller, p, a)
    case Features(p) => FeatureNext(s, p, a)
    case PublishFeatures => s.(pc := PublishReady, block := s.block.(features := true))
    case PublishReady => s.(pc := Loop, block := s.block.(state := Ready))
    case Loop => LoopNext(s, a)
    case SetStopping => s.(pc := Shut(FastRestore), block := s.block.(state := Stopping))
    case Shut(p) => ShutNext(s, p, a)
    case End(p) => EndNext(s, p)
    case Dropping(code) => DropNext(s, code, a)
    case Exited(_) => s
  }

  // ---- the controller ----

  /** `inject`, `wait_ready`, `startup_failure` and `shutdown`; any wait may fail or time out. The
      library counts as freed from the moment the remote FreeLibrary thread has been started (pick 1:
      it was not), whatever its wait, its exit code and the module list then say. */
  function ControllerNext(s: State, a: Act): State {
    match s.ctl
    case Creating =>
      if a.ok then s.(ctl := Waiting, pc := Start(Opening)) else s.(ctl := if a.pick == 0 then Freeing else GaveUp)
    case Waiting =>
      if a.pick == 0 then
        (if s.block.state == Ready then s.(ctl := Running)
         else if s.block.state == Failed then s.(ctl := StartupStop)
         else s)
      else if a.pick == 1 then (if s.pc.Exited? then s.(ctl := StartupStop) else s)
      else s.(ctl := StartupStop)
    case StartupStop => s.(ctl := StartupJoin, block := s.block.(stop := true))
    case StartupJoin => if !a.ok then s.(ctl := GaveUp) else if s.pc.Exited? then s.(ctl := StartupCheck) else s
    case StartupCheck => s.(ctl := if s.block.unloadSafe then Freeing else GaveUp)
    case Running => if a.ok then s.(ctl := ShutStop) else s
    case ShutStop => s.(ctl := ShutJoin, block := s.block.(stop := true))
    case ShutJoin => if !a.ok then s.(ctl := GaveUp) else if s.pc.Exited? then s.(ctl := ShutState(s.pc.code)) else s
    case ShutState(code) => s.(ctl := ShutSafe(code, s.block.state))
    case ShutSafe(code, state) =>
      s.(ctl := if state != Stopped || code != 0 || !s.block.unloadSafe then GaveUp else Freeing)
    case Freeing =>
      if a.pick == 1 then s.(ctl := GaveUp) else s.(ctl := if a.ok then Finished else GaveUp, freed := true)
    case Finished => s
    case GaveUp => s
    case Dead => s
  }

  // ---- all three parties ----

  /** A thread can enter a callback through any site that does not hold its original contents. */
  predicate CanEnter(f: Feature, k: nat, id: nat) {
    k < |f.sites| && f.sites[k].contents != Original && id !in f.inside
  }

  function Entered(f: Feature, id: nat): Feature {
    f.(inside := f.inside + {id}, count := f.count + 1)
  }

  function Left(f: Feature, id: nat): Feature
    requires f.count > 0
  {
    f.(inside := f.inside - {id}, count := f.count - 1)
  }

  ghost predicate Enabled(s: State, e: Event) {
    match e
    case Worker(a) => WorkerEnabled(s, a)
    case RawEnter(k, id) => CanEnter(s.raw, k, id)
    case RawLeave(id) => id in s.raw.inside && s.raw.count > 0
    case FastEnter(id) => CanEnter(s.fast, 0, id)
    case FastLeave(id) => id in s.fast.inside && s.fast.count > 0
    case Controller(_) => true
    case ControllerDies => true
  }

  ghost function Next(s: State, e: Event): State
    requires Enabled(s, e)
  {
    match e
    case Worker(a) => WorkerNext(s, a)
    case RawEnter(_, id) => s.(raw := Entered(s.raw, id))
    case RawLeave(id) => s.(raw := Left(s.raw, id))
    case FastEnter(id) => s.(fast := Entered(s.fast, id))
    case FastLeave(id) => s.(fast := Left(s.fast, id))
    case Controller(a) => ControllerNext(s, a)
    case ControllerDies => s.(ctl := Dead)
  }

  ghost predicate Run(s: State, events: seq<Event>)
    decreases |events|
  {
    events == [] || (Enabled(s, events[0]) && Run(Next(s, events[0]), events[1..]))
  }

  ghost function After(s: State, events: seq<Event>): State
    requires Run(s, events)
    decreases |events|
  {
    if events == [] then s else After(Next(s, events[0]), events[1..])
  }

  // ---- the invariant ----

  /** Nothing in the process points into the DLL and no thread executes it. */
  ghost predicate Clean(s: State) {
    CleanSites(s.raw, s.fast, s.full, s.view)
  }

  ghost predicate CleanSites(raw: Feature, fast: Feature, full: Group, view: Group) {
    Drained(raw) && Drained(fast) && InState(full, false) && InState(view, false)
  }

  ghost predicate FeatureInv(f: Feature, n: nat) {
    |f.sites| == n && f.count == |f.inside| && (!f.dirty ==> AllAre(f.sites, PRISTINE))
  }

  ghost predicate GroupKept(g: Group) {
    !g.dirty ==> GroupQuiet(g)
  }

  ghost predicate Core(s: State) {
    FeatureInv(s.raw, RAW) && FeatureInv(s.fast, 1) && GroupKept(s.full) && GroupKept(s.view)
  }

  ghost predicate Installed(f: Feature) {
    f.dirty && AllAre(f.sites, APPLIED)
  }

  // The parts of the invariant speak of the components of the state that they depend on, so that a
  // step that leaves these alone keeps them without more ado.

  ghost predicate OthersQuiet(fast: Feature, full: Group, view: Group) {
    FeatureQuiet(fast) && GroupQuiet(full) && GroupQuiet(view)
  }

  ghost predicate PristineFrom(f: Feature, k: nat) {
    forall i | k <= i < |f.sites| :: f.sites[i] == PRISTINE
  }

  ghost predicate RawInv(p: RawPc, raw: Feature) {
    match p
    case ApplyRaw(k) => k < RAW && raw.dirty && PristineFrom(raw, k)
      && forall i | 0 <= i < k && i < |raw.sites| :: raw.sites[i] == APPLIED
    case UndoRaw(k) => k < RAW && raw.dirty && PristineFrom(raw, k + 1)
    case ClearRaw => AllAre(raw.sites, PRISTINE)
    case DropRaw(k) => k < RAW && raw.dirty
  }

  /** The parts that a cleanup's caller has not touched yet. */
  ghost predicate CallerInv(caller: Caller, fast: Feature, full: Group, view: Group) {
    match caller
    case Install => OthersQuiet(fast, full, view)
    case Eight => FeatureQuiet(fast)
    case Nine => true
    case Shutdown => true
  }

  ghost predicate CleanInv(p: CleanPc, raw: Feature) {
    raw.dirty &&
    match p
    case RestoreRaw(left, failed) => left <= RAW && (!failed ==> PristineFrom(raw, left))
    case PollRaw => AllAre(raw.sites, PRISTINE)
    case ReleaseRaw => Drained(raw)
    case FinishRaw => Drained(raw)
  }

  ghost predicate FeaturePcInv(p: FeaturePc, raw: Feature, fast: Feature, full: Group, view: Group) {
    Installed(raw) &&
    match p
    case ViewInstall => OthersQuiet(fast, full, view)
    case ViewDrop => FeatureQuiet(fast)
    case FastResolve => FeatureQuiet(fast)
    case FastApply => fast.dirty && AllAre(fast.sites, PRISTINE)
    case FastUndo => fast.dirty
    case FastClean => AllAre(fast.sites, PRISTINE)
    case ViewUndo => true
  }

  ghost predicate ShutInv(p: ShutPc, raw: Feature, fast: Feature) {
    raw.dirty &&
    match p
    case FastRestore => fast.dirty
    case FastPoll => AllAre(fast.sites, PRISTINE)
    case FastFinish => Drained(fast)
    case FullRestore => true
    case ViewRestore => true
  }

  ghost predicate EndInv(p: EndPc, clean: bool, fast: Feature, view: Group, features: bool) {
    match p
    case CheckFast(code) => code == 9 || code == 10
    case CheckRaw(code) => 7 <= code <= 10 && Drained(fast) && (code == 7 ==> GroupQuiet(view))
    case FailError(code, safe) => code != 0 && (safe ==> clean)
    case ClearFeatures(code) => clean
    case PublishSafe(code) => clean && !features
    case PublishState(code) => true
  }

  ghost predicate PcHolds(pc: Pc, raw: Feature, fast: Feature, full: Group, view: Group, features: bool) {
    match pc
    case NotStarted => FeatureQuiet(raw) && OthersQuiet(fast, full, view)
    case Start(p) => FeatureQuiet(raw) && OthersQuiet(fast, full, view)
    case Raw(p) => RawInv(p, raw) && OthersQuiet(fast, full, view)
    case Cleanup(caller, p) => CleanInv(p, raw) && CallerInv(caller, fast, full, view)
    case Features(p) => FeaturePcInv(p, raw, fast, full, view)
    case PublishFeatures => Installed(raw) && Installed(fast)
    case PublishReady => Installed(raw) && Installed(fast)
    case Loop => Installed(raw) && Installed(fast)
    case SetStopping => Installed(raw) && Installed(fast)
    case Shut(p) => ShutInv(p, raw, fast)
    case End(p) => EndInv(p, CleanSites(raw, fast, full, view), fast, view, features)
    case Dropping(_) => true
    case Exited(_) => true
  }

  ghost predicate PcInv(s: State) {
    PcHolds(s.pc, s.raw, s.fast, s.full, s.view, s.block.features)
  }

  /** Points of `run` after `unload_safe` has been published, if it was. */
  predicate Published(pc: Pc) {
    (pc.End? && pc.end.PublishState?) || pc.Dropping? || pc.Exited?
  }

  /** Points at which features may be nonzero in the block. */
  predicate Featured(pc: Pc) {
    pc.PublishReady? || pc.Loop? || pc.SetStopping? || pc.Shut? || (pc.Cleanup? && pc.caller == Shutdown)
    || pc.End? || pc.Dropping? || pc.Exited?
  }

  ghost predicate BlockHolds(pc: Pc, clean: bool, state: HookState, unloadSafe: bool, features: bool) {
    && (unloadSafe ==> clean && Published(pc) && !features)
    && (state == Ready ==> (pc.Loop? || pc.SetStopping?) && features)
    && (pc.PublishReady? ==> features)
    && (features ==> Featured(pc))
  }

  ghost predicate BlockInv(s: State) {
    BlockHolds(s.pc, Clean(s), s.block.state, s.block.unloadSafe, s.block.features)
  }

  ghost predicate ReleaseInv(pc: Pc, raw: Feature) {
    && (raw.released ==> Drained(raw))
    && (raw.released ==> pc.End? || pc.Dropping? || pc.Exited? || (pc.Cleanup? && pc.clean.FinishRaw?))
  }

  ghost predicate CtlInv(s: State) {
    && (s.ctl == Creating ==> s.pc == NotStarted)
    && (s.freed ==> s.ctl == Finished || s.ctl == GaveUp || s.ctl == Dead)
    && (s.ctl == StartupCheck || s.ctl.ShutState? || s.ctl.ShutSafe? ==> s.pc.Exited?)
    && (s.ctl == Freeing || s.freed ==> s.pc == NotStarted || (s.pc.Exited? && s.block.unloadSafe))
  }

  ghost predicate Inv(s: State) {
    Core(s) && PcInv(s) && BlockInv(s) && ReleaseInv(s.pc, s.raw) && CtlInv(s)
  }
}
