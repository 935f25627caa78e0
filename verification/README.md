# bunnyhopfix: a verified model

bunnyhopfix is a pair of programs for one game. A *hook* library runs inside the game process:
it rewrites instructions, redirects virtual-table slots, collects raw mouse motion, repairs map
archives and looks up records. A *controller* runs outside: it injects the hook, patches the
game's jump prediction, reads the hook's log, and decides when the hook may be freed. Both
change live code of a process that keeps running, on an operating system whose calls can fail.

This project states what that code promises and proves it with Dafny. `dafny verify
dfyconfig.toml` checks everything.

## How the model is built

- **Code patching** (`CodePatch`, `PatchToggles`, `PredictionPatch`, `StopTheWorld`). Memory is a
  byte sequence with a protection for each page. Each operating-system call may fail, and a copy
  may leave any bytes in its window; a `faulty` flag that is off says that no call fails, so that
  the contracts also say when an operation must succeed. The hook's patches, pointer hooks and
  inline hooks are classes with the source's fields. Where they stop the other threads, the stop is
  a call that may fail; `StopTheWorld` proves what its success means. `SiteProtocol` is the abstract account of one
  site that those classes are proved to follow, and on which the next part is built.
- **Unloading** (`UnloadProtocol`, `UnloadSafety`, `UnloadLifeCycle`). Controller, hook worker and game
  threads are one transition system over the shared block, the sites and the callback counters. Safety
  is proved of every run, and that every serving state still leads to a clean unload.
- **Mouse input** (`MouseServing`, `FrameRate`, `RingProtocol`). The two rings are classes proved
  against one specification of a tick; the purpose of the feature, independence from the frame
  rate, is a theorem about whole sessions of that specification. The Windows ring is treated once
  more as interleaved atomic accesses.
- **Log ring** (`LogProtocol`, `LogDrain`). Writers behind a spin lock and a reader with two
  sequence checks, interleaved; and the controller's draining.
- **Scanning** (`PatternText`, `HitLists`, `PatternSearch`, `ChunkedScan`, `NeedleSearch`, `UniqueMatch`,
  `PeVtables`, `VirtualLookup`, `ElfVtables`, `AddssSites`, `PunchSelection`). Chunked scans against
  whole-section scans, unique matches, run-time type information on both systems, and the decoder that
  feeds the view-punch patcher. The theory of chunks is stated for any test on file offsets and used
  with patterns, locators and instructions.
- **Map archives** (`PakPaths`, `PakReader`, `PakArchive`). The reader, and a writer after the PKWARE
  application note (sections 4.3.7, 4.3.12 and 4.3.16) that it is proved to undo.
- **Record lookups** (`SourceJump`). The coalescing worker and every interleaving of its requests.

Assumptions that the source does not check:

- Interleaved steps are sequentially consistent; ring indices and log sequence numbers do not wrap.
- A callback's entry and its counter increment are one step, and so are its decrement and its exit.
- One worker runs per control block (`Mapping::create` refuses a second mapping).
- Nobody else writes the patched sites, and nobody else suspends or resumes threads. Only running
  threads start or end threads. Resuming a suspended thread works.
- Time is real-valued and the clock does not run backwards.
- A window of a prediction site lies in pages of one protection, where the claims about page
  protections and about succeeding say so (`PredictionPatch.Closed`); the source compares the first
  page. The claims about bytes do not need it.
- File reads in a scan succeed and, where it is said, mapped sections do not overlap.

Where the code does something other than one might think, the code was followed:

- After a failed rollback a toggle to the state that the flag already shows is answered Ok without
  doing anything, so Ok does not always mean that the patches are in the requested state.
  `PatchToggles.ToggleHistory` gives the exact condition, in both directions, and
  `PatchToggles.NoOpAfterFailedRollback` the case.
- A session's very first mode-2 serve does not count down. An extra serve before it is then noticed,
  exactly when `FrameRate.ColdStartIff` says. That happens on Linux (`FrameRate.LinuxColdStart`) and
  not on Windows, where the refresh restarts the clock (`FrameRate.WindowsNeverCold`).
- Asking for the map on show while another one is waiting does not cancel the other
  (`SourceJump.RestShowsLastRequestIff`, and `SourceJump.OvertakenRequestLost` for the case); a failed
  thread spawn leaves the newest map waiting (`SourceJump.RestShowsLastAcceptedIff`,
  `SourceJump.LostSpawnLeavesWaiting`).
- A patch window that straddles pages of different protection is closed with the first page's
  (`CodePatch.ProtectionRestoredIff`, `CodePatch.StraddlingWindowChanges`).
- A pattern word such as `+F` is read as a byte, because the number parser takes a plus sign
  (`PatternText.PlusSignReads`).
- `min(raw_size, max(virtual_size, raw_size))` in the PE reader is always `raw_size` (`PeVtables.Backed`).

## Model

| member | source | states |
|---|---|---|
| SiteProtocol.RunKeepsSettled | crates/bhopfix-hook/src/windows/hook.rs:336-407 | over every history of applies and restores with any failures, a site not in doubt holds the original or the replacement, and each reported success says which |
| SiteProtocol.FailureIsVisible | crates/bhopfix-hook/src/windows/hook.rs:361-407 | a failed step leaves the site as it was, pristine, or marked tainted; it never passes silently into the other state |
| CodePatch.Memory.VirtualProtect | crates/bhopfix-hook/src/windows/hook.rs:177-234 | the page-protection call: all pages of the range or none, and the first page's old value; fails only on a faulty system |
| CodePatch.Memory.Copy | crates/bhopfix-hook/src/windows/hook.rs:177-234 | the raw copy touches the window only, and may land wrong only on a faulty system |
| CodePatch.WriteCode | crates/bhopfix-hook/src/windows/hook.rs:177-234 | success means the bytes verify and the pages are back at the remembered protection, and at a first write all pages are as before if and only if they had one protection; whatever happens only the window and its pages change; failure needs a faulty system |
| CodePatch.Patch.State | crates/bhopfix-hook/src/windows/hook.rs:336-346 | which of the two byte strings is in memory, the original compared first |
| CodePatch.Patch.Prepare | crates/bhopfix-hook/src/windows/hook.rs:290-311 | a patch is made exactly when the lengths agree and the live bytes are the expected ones; nothing is written |
| CodePatch.Patch.ForceOriginal | crates/bhopfix-hook/src/windows/hook.rs:348-359 | success leaves the site pristine with its pages closed, failure leaves it tainted |
| CodePatch.Patch.Restore | crates/bhopfix-hook/src/windows/hook.rs:394-407 | Ok means original bytes and not tainted; it fails only on a faulty system or on unknown bytes; no write when there is nothing to restore |
| CodePatch.Patch.Apply | crates/bhopfix-hook/src/windows/hook.rs:361-392 | Ok means replacement bytes and not tainted; it fails only on a faulty system or on unknown bytes; no byte or page outside the window changes |
| CodePatch.Patch.Install | crates/bhopfix-hook/src/windows/hook.rs:313-334 | a clean failure leaves memory byte for byte as before; without faults, installed exactly when sizes and live bytes fit |
| CodePatch.Patch.Drive | crates/bhopfix-hook/src/windows/hook.rs:281-407 | any history of applies and restores: untainted means original or replacement with the pages closed, and the last Ok says which |
| CodePatch.ProtectionRestoredIff | crates/bhopfix-hook/src/windows/hook.rs:177-234 | closing a window puts every page back if and only if its pages had one protection |
| CodePatch.StraddlingWindowChanges | crates/bhopfix-hook/src/windows/hook.rs:177-234 | a page of the window that differed from the first is left changed; `StraddlingWindowExists` gives two such pages |
| CodePatch.PointerHook.ForceOriginal | crates/bhopfix-hook/src/windows/hook.rs:466-481 | as for a patch, on one pointer-sized slot |
| CodePatch.PointerHook.Apply | crates/bhopfix-hook/src/windows/hook.rs:483-510 | refuses a tainted hook; otherwise the slot holds the callback or was left, restored or marked |
| CodePatch.PointerHook.Restore | crates/bhopfix-hook/src/windows/hook.rs:512-526 | Ok means the slot holds the original pointer, untainted |
| CodePatch.PointerHook.Install | crates/bhopfix-hook/src/windows/hook.rs:425-460 | misaligned or changed slots are refused untouched; a clean failure leaves memory as before; without faults the slot ends up holding the replacement |
| CodePatch.JumpRoundTrip | crates/bhopfix-hook/src/windows/hook.rs:236-241 | the encoded jump is decoded to its target, whatever follows |
| CodePatch.InlineHook.Install | crates/bhopfix-hook/src/windows/hook.rs:540-613 | the entry jumps to the callback, the trampoline runs the displaced bytes and continues after them, and the callback's cell holds the trampoline |
| CodePatch.InlineHook.PatchEntry | crates/bhopfix-hook/src/windows/hook.rs:598-612 | the entry is written, and a failed write undone, only while the callback's cell holds the trampoline's address; however it ends only the window changes |
| CodePatch.InlineHook.ReleaseTrampoline | crates/bhopfix-hook/src/windows/hook.rs:615-629 | the trampoline is freed only while the entry holds its original bytes untainted |
| PatchToggles.TogglePreserves | crates/bhopfix-hook/src/windows/viewpunch.rs:169-197 | one toggle keeps: DIRTY cleared means all original and off; the flag is the state if and only if no rollback failed since the last success or completed rollback |
| PatchToggles.ToggleHistory | crates/bhopfix-hook/src/windows/viewpunch.rs:169-218 | over any sequence of toggles with any failures: DIRTY false means every patch original and untainted; an Ok leaves the requested state if and only if it was not a no-op after a failed rollback; a completed rollback leaves every patch as it was |
| PatchToggles.FailedRollbackShows | crates/bhopfix-hook/src/windows/viewpunch.rs:173-192 | after a failed rollback some patch is not in the state that the flag shows |
| PatchToggles.FailedRollbackPossible | crates/bhopfix-hook/src/windows/viewpunch.rs:173-218 | the steps of `apply_all` and `restore_all` can lead from the uniform state to every patch in doubt, for groups of every size and both requests |
| PatchToggles.SettledCanBeDone | crates/bhopfix-hook/src/windows/viewpunch.rs:199-218 | from sites that are not in unmarked doubt the steps of `apply_all` and `restore_all` can bring every patch to either state |
| PatchToggles.NoOpAfterFailedRollback | crates/bhopfix-hook/src/windows/viewpunch.rs:169-218 | the exception is real for groups of every size and both requests, by a run of those steps |
| PatchToggles.ApplyAll | crates/bhopfix-hook/src/windows/viewpunch.rs:199-204 | patches applied in order up to the first failure; all of them if and only if none failed |
| PatchToggles.RestoreAll | crates/bhopfix-hook/src/windows/viewpunch.rs:206-218 | every patch is tried, last first; Ok exactly when all are original |
| PatchToggles.ApplyOrUndo | crates/bhopfix-hook/src/windows/viewpunch.rs:173-184 | enabling: all applied, or rolled back with memory byte for byte as before, or a reported failed rollback |
| PatchToggles.RestoreOrRedo | crates/bhopfix-hook/src/windows/viewpunch.rs:185-192 | disabling: all restored, or put back on with memory as before, or a reported failed rollback |
| PatchToggles.SameMemory | crates/bhopfix-hook/src/windows/viewpunch.rs:169-218 | the same uniform state with nothing else touched is the same memory |
| PatchToggles.PatchGroup.TurnOn | crates/bhopfix-hook/src/windows/fullscreen.rs:93-144 | enabling the pair or the list, with the DIRTY flag: one abstract toggle step |
| PatchToggles.PatchGroup.TurnOff | crates/bhopfix-hook/src/windows/fullscreen.rs:93-144 | disabling it likewise |
| PatchToggles.PatchGroup.SetEnabled | crates/bhopfix-hook/src/windows/viewpunch.rs:169-197 | every toggle is an abstract step; only the windows change; without faults it is done |
| PatchToggles.PrepareAll | crates/bhopfix-hook/src/windows/viewpunch.rs:119-139 | all sites are validated before any is written: prepared exactly when every one matches the live bytes |
| PatchToggles.InstallGroup | crates/bhopfix-hook/src/windows/viewpunch.rs:116-152 | installed in the requested state, or refused; a mismatch anywhere leaves memory untouched; without faults a match installs |
| UnloadSafety.RunPreserves | crates/bhopfix-hook/src/windows/mod.rs:58-280 | the invariant of controller, worker and game threads over every run |
| UnloadSafety.RunSettled | crates/bhopfix-hook/src/windows/mod.rs:58-280 | over every run no patch of either group is ever in unmarked doubt |
| UnloadSafety.FreedOnlyWhenClean | crates/bunnyhopfix/src/windows/inject.rs:289-494 | in every run, from the moment the FreeLibrary thread was started, whatever is reported of it, the worker never started or has exited, every site is original and untainted, and no thread is in a callback |
| UnloadSafety.UnloadSafeMeaning | crates/bhopfix-core/src/control.rs:116-119 | whenever `unload_safe` is set nothing points into the library and nothing runs in it |
| UnloadSafety.ReadyMeansInstalled | crates/bhopfix-hook/src/windows/mod.rs:205-243 | while READY is published every raw-input and download hook is in place and the library is not freed |
| UnloadSafety.ReleasedMeansDrained | crates/bhopfix-hook/src/windows/rawinput.rs:439-480 | once the trampoline was released no thread is or comes again inside a raw-input callback |
| UnloadLifeCycle.LifeCyclePossible | crates/bhopfix-hook/src/windows/mod.rs:69-280 | the safety theorems are not empty: there is an initial state and a whole life from it |
| UnloadLifeCycle.ReadyPossible | crates/bhopfix-hook/src/windows/mod.rs:69-212 | from every initial state the hook can be installed and become READY |
| UnloadLifeCycle.FreeAlwaysPossible | crates/bhopfix-hook/src/windows/mod.rs:212-280 | no dead end: from every reachable serving state, even after failed rollbacks and with threads inside callbacks, the run can go on by steps that the patches can take until the library is freed |
| UnloadSafety.CleanPreserves | crates/bhopfix-hook/src/windows/rawinput.rs:439-476 | `cleanup_hooks`: restore, wait for callbacks, free, and only then clear DIRTY |
| UnloadSafety.RawPreserves | crates/bhopfix-hook/src/windows/rawinput.rs:310-421 | the four-site install and its unwinding |
| UnloadSafety.FeaturePreserves | crates/bhopfix-hook/src/windows/fastdl.rs:492-533 | view-punch and download installs and their unwinding |
| UnloadSafety.ShutPreserves | crates/bhopfix-hook/src/windows/fastdl.rs:535-551 | the shutdown ladder, callback draining included |
| UnloadSafety.EndPreserves | crates/bhopfix-hook/src/windows/mod.rs:258-279 | the quiescence tests before an error or a clean stop is published |
| UnloadSafety.ControllerPreserves | crates/bunnyhopfix/src/windows/inject.rs:289-494 | injection, waiting, startup failure, shutdown and freeing, any call or wait failing |
| MouseServing.DrainIsPrefix | crates/bhopfix-hook/src/windows/rawinput.rs:83-101 | a drain takes the longest prefix without an event later than the threshold |
| MouseServing.QueuedAppend | crates/bhopfix-hook/src/windows/rawinput.rs:67-81 | writing the free slot and publishing it appends one event to the queue |
| MouseServing.WindowsRing.RingPush | crates/bhopfix-hook/src/windows/rawinput.rs:67-81 | appends the event, or drops the newest when 1024 are queued |
| MouseServing.WindowsRing.RingDrain | crates/bhopfix-hook/src/windows/rawinput.rs:83-101 | consumes exactly that prefix and returns its saturating sums |
| MouseServing.WindowsRing.TakeTime | crates/bhopfix-hook/src/windows/rawinput.rs:206-223 | the countdown by the time since the last serve, never below zero |
| MouseServing.WindowsRing.HookedGetRaw | crates/bhopfix-hook/src/windows/rawinput.rs:191-236 | one serve of the specification; outside mode 2 the ring is emptied and the stock deltas pass |
| MouseServing.WindowsRing.HookedSetSample | crates/bhopfix-hook/src/windows/rawinput.rs:238-249 | the per-tick refresh, which also restarts the countdown's clock |
| MouseServing.LinuxRing.RingPush | crates/bhopfix-hook/src/rawinput.rs:58-70 | appends the event and drops the oldest when full: a deque of the newest 1024, with pushed = served + dropped + queued |
| MouseServing.LinuxRing.RingDrain | crates/bhopfix-hook/src/rawinput.rs:72-90 | consumes exactly the prefix, counts it as served, and returns its sums |
| MouseServing.LinuxRing.HookedGetRawMouseAccumulators | crates/bhopfix-hook/src/rawinput.rs:226-247 | one serve of the specification |
| MouseServing.LinuxRing.HookedCreateMove | crates/bhopfix-hook/src/rawinput.rs:267-275 | the per-tick refresh, which leaves the clock alone |
| FrameRate.DrainSplit | crates/bhopfix-hook/src/windows/rawinput.rs:83-101 | draining to an earlier limit and then to a later one takes what the later one takes alone, sorted or not |
| FrameRate.CountdownComposes | crates/bhopfix-hook/src/windows/rawinput.rs:206-223 | an extra serve changes neither the remaining time nor a later threshold, and thresholds only grow |
| FrameRate.CountdownClosedForm | crates/bhopfix-hook/src/windows/rawinput.rs:206-223 | after any run of serves and events since the reference instant a serve leaves max(0, sample - elapsed) |
| FrameRate.ColdStartIff | crates/bhopfix-hook/src/windows/rawinput.rs:191-223 | when no serve has happened yet, an extra serve leaves the state and the joined outputs as without it if and only if there is no time left, or some and the two serves are at one instant |
| FrameRate.LinuxColdStart | crates/bhopfix-hook/src/rawinput.rs:226-275 | on Linux the exception is real for every positive sample: first serves apart are noticed, and an event can be handed out early |
| FrameRate.WindowsNeverCold | crates/bhopfix-hook/src/windows/rawinput.rs:191-249 | on Windows it cannot happen: no session has time left without a reference instant, and every extra serve is unnoticed |
| FrameRate.ExtraServe | crates/bhopfix-hook/src/windows/rawinput.rs:191-236 | an extra serve leaves read index, remaining time and last-serve time as without it, and the two outputs join to the single one |
| FrameRate.WindowIndependence | crates/bhopfix-hook/src/windows/rawinput.rs:191-236 | however often a sample window is served it ends in the same state with the same events |
| FrameRate.FrameRateIndependence | crates/bhopfix-hook/src/rawinput.rs:226-275 | whole sessions of windows with the same input and different serves play out the same, on both platforms |
| FrameRate.DeltasExact | crates/bhopfix-hook/src/windows/rawinput.rs:83-101 | without saturation or overflow the returned deltas are the true sums |
| FrameRate.DeltaIndependence | crates/bhopfix-hook/src/windows/rawinput.rs:191-236 | the deltas the game receives over a window are the same for every serving schedule |
| RingProtocol.RingSafety | crates/bhopfix-hook/src/windows/rawinput.rs:67-101 | in every interleaving write - read stays within 0..1024, and accepted = drained + queued as sequences |
| RingProtocol.NoSlotRace | crates/bhopfix-hook/src/windows/rawinput.rs:67-101 | the consumer never reads the slot being written |
| RingProtocol.DrainReturnsTaken | crates/bhopfix-hook/src/windows/rawinput.rs:83-101 | a drain returns the deltas of exactly the events it took, in order |
| RingProtocol.RunPreserves | crates/bhopfix-hook/src/windows/rawinput.rs:67-101 | the invariant behind these, over every run |
| LogProtocol.NoTornRead | crates/bhopfix-core/src/control.rs:161-204 | in every interleaving a returned record is the level and first 240 bytes of exactly that push |
| LogProtocol.WritersExclude | crates/bhopfix-core/src/control.rs:161-185 | at most one writer is past the lock |
| LogProtocol.QuietReads | crates/bhopfix-core/src/control.rs:187-205 | with the lock free exactly the last min(64, latest) numbers are readable, each as pushed |
| LogProtocol.RunPreserves | crates/bhopfix-core/src/control.rs:161-205 | the invariant behind these, over every run |
| LogDrain.PushKeepsQuiet | crates/bhopfix-core/src/control.rs:161-185 | a complete push keeps the ring: the oldest record makes room for the newest |
| LogDrain.ControlBlock.PushLog | crates/bhopfix-core/src/control.rs:161-185 | without interference the log grows by exactly this record |
| LogDrain.ControlBlock.ReadLog | crates/bhopfix-core/src/control.rs:187-205 | without interference it reads the record of a recent number and nothing of any other |
| LogDrain.HookSession.Attempt | crates/bunnyhopfix/src/windows/inject.rs:416-428 | one read attempt of the next number, delivered when found |
| LogDrain.HookSession.SkipOverrun | crates/bunnyhopfix/src/windows/inject.rs:407-415 | overwritten numbers are skipped and counted as dropped |
| LogDrain.HookSession.FlushLogs | crates/bunnyhopfix/src/windows/inject.rs:405-430 | each flush attempts every number up to the newest once; dropped + attempted = latest - next + 1; over the run none is attempted twice |
| LogDrain.FoundIncreasing | crates/bunnyhopfix/src/windows/inject.rs:416-428 | delivered numbers strictly increase and each carries what its one attempt read |
| LogDrain.QuietFlushDelivers | crates/bunnyhopfix/src/windows/inject.rs:405-430 | with no push in progress, the attempts of a flush find exactly the records pushed since the last one that were not overwritten, whatever earlier flushes read |
| LogDrain.HookSession.FlushQuiet | crates/bunnyhopfix/src/windows/inject.rs:405-430 | a flush beside which no push runs, reading with `read_log`, appends those records in order to what was delivered: delivered + dropped = pushed |
| LogDrain.HookSession.RunSession | crates/bunnyhopfix/src/windows/inject.rs:405-430 | over a whole session of quiet pushes and flushes: whenever a flush has ended delivered + dropped = pushed, every delivered text is that of its push, and the numbers increase |
| LogDrain.DeliveredAsPushed | crates/bhopfix-core/src/control.rs:161-209 | in every interleaving with any number of writers, delivered numbers increase strictly and each delivered text is the level and the first 240 bytes of the push of that number |
| PatternText.Parse | crates/bhopfix-core/src/sig.rs:22-33 | the parsing loop: the bytes and wildcards of the words, or refusal |
| PatternText.ParsedJoin | crates/bhopfix-core/src/sig.rs:22-33 | two texts with a blank between them are read as the bytes of the one and then of the other, refused if and only if one of them is malformed; further blanks mean nothing |
| PatternText.ShowReadsBack | crates/bhopfix-core/src/sig.rs:14-33 | round trip: every pattern written in the usual notation is read back |
| PatternSearch.ExactMatches | crates/bhopfix-core/src/sig.rs:54-61 | a pattern without wildcards matches exactly where the bytes stand |
| PatternSearch.FindFrom | crates/bhopfix-core/src/sig.rs:64-67 | the first match at or after an offset, or that there is none |
| PatternSearch.FindAll | crates/bhopfix-core/src/sig.rs:76-84 | all matches, overlapping ones included |
| PatternSearch.AllHitsExactly | crates/bhopfix-core/src/sig.rs:76-84 | that list is strictly increasing and holds exactly the matching offsets |
| PatternSearch.ScanOne | crates/bunnyhopfix/src/linux.rs:72-84 | one signature: its only match, or malformed, or how often it matched |
| PatternSearch.ScanTable | crates/bunnyhopfix/src/linux.rs:70-87 | succeeds if and only if every signature is well formed and matches once, with every patch window in the buffer; otherwise names the first offender |
| ChunkedScan.ScanRegion | crates/bhopfix-core/src/pe.rs:199-221 | the chunk loop terminates for every size and overlap, the overlap-sized tail included, and visits the specified chunks |
| ChunkedScan.Scan | crates/bhopfix-core/src/elf.rs:226-241 | the same loop over all wanted segments |
| ChunkedScan.ScannedOnce | crates/bhopfix-core/src/pe.rs:199-221 | with overlap one less than the window every hit of a section is reported exactly once, in order |
| ChunkedScan.AllScannedOnce | crates/bhopfix-core/src/elf.rs:226-241 | the same over all segments |
| ChunkedScan.ScanFindsAll | crates/bhopfix-core/src/pe.rs:223-238 | sorted and deduplicated, the scan holds exactly the addresses of hits |
| ChunkedScan.WindowSeen | crates/bhopfix-core/src/pe.rs:199-221 | every window no longer than overlap + 1 lies whole in some chunk |
| ChunkedScan.ChunksAreCuts | crates/bhopfix-core/src/pe.rs:199-221 | chunks start at multiples of the stride, or are the short tail |
| ChunkedScan.ChunkHitIffOccurs | crates/bhopfix-core/src/elf.rs:226-241 | for every window that fits the overlap chunked search equals whole search |
| NeedleSearch.WindowsEqual | crates/bhopfix-core/src/pe.rs:223-238 | comparing every window finds all occurrences in a chunk |
| NeedleSearch.SkipToFirstByte | crates/bhopfix-core/src/elf.rs:250-266 | skipping from one first byte to the next finds the same |
| NeedleSearch.FindAllAddresses | crates/bhopfix-core/src/elf.rs:244-270 | both readers' `find_all` return the specified list |
| NeedleSearch.FoundExactly | crates/bhopfix-core/src/pe.rs:223-238 | that list is ascending and holds an address exactly when the needle stands there in a wanted section |
| UniqueMatch.VisitChunk | crates/bhopfix-hook/src/windows/module.rs:69-80 | the visiting closure, which returns at the first disagreement, keeps what `found` and `ambiguous` say |
| UniqueMatch.SightsMatch | crates/bhopfix-hook/src/windows/module.rs:66-80 | the scan sees an address exactly when a pattern matches there, for patterns of different lengths |
| UniqueMatch.FindUnique | crates/bhopfix-hook/src/windows/module.rs:61-82 | an answer if and only if every pattern is well formed and the matching addresses are a singleton; the answer is that address with the file's bytes there |
| PeVtables.Backed | crates/bhopfix-core/src/pe.rs:148-153 | the backed size is the raw size |
| PeVtables.ScanChunk | crates/bhopfix-core/src/pe.rs:303-316 | all locators of a chunk at offsets that are multiples of four |
| PeVtables.ChunkLocatorIff | crates/bhopfix-core/src/pe.rs:199-221 | chunking loses and adds no aligned locator, the stride being a multiple of four |
| PeVtables.FindLocators | crates/bhopfix-core/src/pe.rs:299-316 | exactly the words aligned from their section's start with signature one, a descriptor of the class and their own address |
| PeVtables.Descriptors | crates/bhopfix-core/src/pe.rs:280-296 | exactly the addresses sixteen before the decorated name in read-only or writable data |
| PeVtables.TablesOf | crates/bhopfix-core/src/pe.rs:318-330 | exactly the addresses after a pointer to the locator whose first word points to executable code |
| PeVtables.Vtables | crates/bhopfix-core/src/pe.rs:280-333 | sound and complete: a table is returned if and only if some locator of the class has it; ascending, once each |
| VirtualLookup.Virtuals | crates/bhopfix-core/src/pe.rs:351-355 | the table's entries up to the first that does not point at code, or the limit |
| VirtualLookup.BeginsWithAny | crates/bhopfix-hook/src/windows/module.rs:98-103 | a function is accepted exactly when its code can be read and begins with one of the patterns |
| VirtualLookup.ResolveVirtual | crates/bhopfix-hook/src/windows/module.rs:84-113 | the slot and function if and only if one candidate and one only exists over all tables of the class; two different ones or none give no answer |
| ElfVtables.ReadTable | crates/bhopfix-core/src/elf.rs:279-302 | a relocation table read in chunks of whole entries yields exactly its whole entries that make a slot hold a target |
| ElfVtables.RelativeTo | crates/bhopfix-core/src/elf.rs:274-305 | every slot that points at a target, over all tables, ascending and once each |
| ElfVtables.Vtables | crates/bhopfix-core/src/elf.rs:349-391 | sound and complete: exactly the slots of table shape that point at a type-information object whose name slot points at the class's name |
| AddssSites.SitesApart | crates/bhopfix-hook/src/windows/viewpunch.rs:24-66 | no accepted encoding starts inside another, for any plausible displacement range |
| AddssSites.PlatformSitesApart | crates/bhopfix-hook/src/windows/viewpunch.rs:24-66 | so on both platforms, whose displacement ranges are plausible |
| AddssSites.DecodeChunk | crates/bhopfix-hook/src/viewpunch.rs:37-80 | the decoding loop finds exactly the sites of a chunk |
| AddssSites.ChunkSiteIff | crates/bhopfix-hook/src/windows/viewpunch.rs:26-69 | chunked decoding equals decoding each section whole |
| AddssSites.FindAddss | crates/bhopfix-hook/src/windows/viewpunch.rs:24-73 | every site of the code sections, in address order, one for each address |
| AddssSites.FoundExact | crates/bhopfix-hook/src/viewpunch.rs:80-83 | with sections apart a site is found if and only if it is there |
| AddssSites.FoundDisjoint | crates/bhopfix-hook/src/windows/viewpunch.rs:70-72 | the sites are pairwise disjoint byte ranges |
| PunchSelection.StartsSpaced | crates/bhopfix-hook/src/windows/viewpunch.rs:75-107 | triples of one field never overlap |
| PunchSelection.GroupTriples | crates/bhopfix-hook/src/windows/viewpunch.rs:76-88 | every field is mapped to the starts of its triples, in order |
| PunchSelection.SelectPunchSites | crates/bhopfix-hook/src/windows/viewpunch.rs:75-107 | the field with more triples than any other and all their members, 3 for each triple; no triple or a tie is reported; the overlap error never |
| PunchSelection.PunchSites | crates/bhopfix-hook/src/viewpunch.rs:87-110 | the best field by number of triples, then by smallness, and all its members |
| PunchSelection.SelectedAreGood | crates/bhopfix-hook/src/windows/viewpunch.rs:116-139 | what the decoder finds and the selection picks, as far as it lies in memory, meets what the patcher requires of its targets |
| PunchSelection.Install | crates/bhopfix-hook/src/windows/viewpunch.rs:116-152 | from decoding to patches: one for each member of the leading field, in the requested state; without hooks and DIRTY, memory is as before |
| PakPaths.GoodPiecesIff | crates/bhopfix-core/src/pakfix.rs:79-85 | the split check accepts exactly names all of whose components are nonempty and not dots |
| PakPaths.SaneNameIff | crates/bhopfix-core/src/pakfix.rs:68-87 | when exactly a stored name is refused |
| PakPaths.LooseNameSafe | crates/bhopfix-core/src/pakfix.rs:160-165 | every destination is a lower-case relative path under one of the four roots without empty, dot or dot-dot components |
| PakReader.Disk.Store | crates/bhopfix-core/src/pakfix.rs:228-255 | the file is there whole or nothing changed; refused when a file has a parent directory's name |
| PakReader.Disk.ExtractStored | crates/bhopfix-core/src/pakfix.rs:194-255 | writes the stored data exactly when no file or directory of that name exists and the records are sound |
| PakReader.Disk.FixPak | crates/bhopfix-core/src/pakfix.rs:127-189 | for any bytes and any failures: existing files keep their bytes, new ones are at safe paths, and at most the archive's length is written |
| PakReader.Disk.FixBsp | crates/bhopfix-core/src/pakfix.rs:92-190 | malformed maps are refused untouched; otherwise the archive's entries are extracted, with the same bounds: existing files kept, new ones at safe paths, at most the archive's length written |
| PakArchive.CentralReads | crates/bhopfix-core/src/pakfix.rs:133-156 | a directory record of the application note reads back field by field |
| PakArchive.LocalReads | crates/bhopfix-core/src/pakfix.rs:217-226 | so does a local record, and its data |
| PakArchive.EndFound | crates/bhopfix-core/src/pakfix.rs:52-64 | the end record of an archive without comment is found |
| PakArchive.EntryReadBack | crates/bhopfix-core/src/pakfix.rs:131-188 | the walk reads every entry of a written archive back: name, size, data, next |
| PakArchive.WalkExpected | crates/bhopfix-core/src/pakfix.rs:127-189 | the walk does what the entries ask, and the write budget never stops it |
| PakArchive.ArchiveRoundTrip | crates/bhopfix-core/src/pakfix.rs:52-189 | reading the serialised archive leaves the files that its entries ask for, the first of each name stored |
| PakArchive.ExpectedExactly | crates/bhopfix-core/src/pakfix.rs:158-188 | without directory clashes: old files kept, every other path the data of the first entry that becomes it, nothing else |
| PakArchive.ExtractionExact | crates/bhopfix-core/src/pakfix.rs:92-190 | extraction adds exactly lower(name) -> data for each case-broken entry, the first entry winning |
| PakArchive.MapReads | crates/bhopfix-core/src/pakfix.rs:92-121 | the archive put into a map file is read from it again |
| PakArchive.MapExtractionExact | crates/bhopfix-core/src/pakfix.rs:92-190 | the same law for a map that holds the written archive |
| PredictionPatch.AllBack | crates/bunnyhopfix/src/linux.rs:381-393 | putting every window back is putting the memory back, windows overlapping or not |
| PredictionPatch.ProgressUp | crates/bunnyhopfix/src/linux.rs:374-380 | one write of the transaction, complete or partial |
| PredictionPatch.ProgressDown | crates/bunnyhopfix/src/linux.rs:381-393 | one step of the rollback |
| PredictionPatch.WriteFile | crates/bunnyhopfix/src/linux.rs:203-214 | success means the bytes read back; only the window changes |
| PredictionPatch.WriteProcess | crates/bunnyhopfix/src/windows.rs:526-618 | the same with page protections; a changed protection is refused except to repair the transaction's own failed write |
| PredictionPatch.CheckSites | crates/bunnyhopfix/src/windows.rs:793-812 | passes, when nothing fails, exactly when every site holds its prior bytes and protection |
| PredictionPatch.WriteAll | crates/bunnyhopfix/src/linux.rs:374-380 | all sites written, or the index of the first failure with nothing else touched |
| PredictionPatch.RollBack | crates/bunnyhopfix/src/linux.rs:381-399 | the prefix put back in reverse, a failure not stopping it |
| PredictionPatch.Apply | crates/bunnyhopfix/src/windows.rs:791-846 | Ok means every site holds the desired bytes; a failure reported as rolled back leaves every byte as before, even after a partial write and with overlapping windows, and every page protection that was the discovered one; without faults applied exactly from the prior state |
| PredictionPatch.Discover | crates/bunnyhopfix/src/linux.rs:321-345 | one site for each signature at its only match, cut from one picture of the memory |
| PredictionPatch.Patcher.Toggle | crates/bunnyhopfix/src/linux.rs:401-413 | over any toggle history the flag agrees with memory, unless a rollback failed and no toggle succeeded since: off is the original memory, on is every window turned into no-operations; nothing beyond the windows ever changes |
| StopTheWorld.RunKeepsHolding | crates/bhopfix-hook/src/windows/hook.rs:78-140 | whatever the running threads do, every suspend count is its own plus one for each held thread |
| StopTheWorld.Process.Suspend | crates/bhopfix-hook/src/windows/hook.rs:88-128 | a thread is held or classified as gone, to be tried again, or fatal |
| StopTheWorld.Process.TrySuspendOthers | crates/bhopfix-hook/src/windows/hook.rs:79-140 | success means every other thread is suspended and held; otherwise every suspend count is as before; without faults it never gives up, and succeeds when nothing else runs |
| StopTheWorld.Process.WhileHeld | crates/bhopfix-hook/src/windows/hook.rs:130-136 | while they are held the set of threads and their counts cannot change |
| StopTheWorld.Process.Release | crates/bhopfix-hook/src/windows/hook.rs:166-175 | dropping the guard gives every thread its own suspend count back |
| StopTheWorld.Process.SuspendOthers | crates/bhopfix-hook/src/windows/hook.rs:142-163 | the bounded retrying keeps both promises |
| StopTheWorld.Process.SuspendAll | crates/bunnyhopfix/src/windows.rs:657-694 | one pass over a snapshot, the same in the controller |
| SourceJump.Shared.Schedule | crates/bhopfix-hook/src/sourcejump.rs:91-104 | a request under the lock, and whether to spawn |
| SourceJump.Shared.ShowWr | crates/bhopfix-hook/src/sourcejump.rs:45-110 | undisturbed, odd names are ignored, and a failed spawn releases the flag but keeps the map waiting |
| SourceJump.Shared.Take | crates/bhopfix-hook/src/sourcejump.rs:141-160 | a worker's turn under the lock, and what to fetch |
| SourceJump.Shared.WorkerMain | crates/bhopfix-hook/src/sourcejump.rs:139-162 | undisturbed, the worker shows what was waiting and exits |
| SourceJump.RunKeeps | crates/bhopfix-hook/src/sourcejump.rs:91-162 | the invariant of every interleaving, spawn failures included |
| SourceJump.NoRequestLost | crates/bhopfix-hook/src/sourcejump.rs:91-162 | without spawn failures: one worker at most, a waiting map has a worker and differs from the one shown, and at rest the last accepted map is shown |
| SourceJump.RestShowsLastAcceptedIff | crates/bhopfix-hook/src/sourcejump.rs:68-88 | with spawn failures that holds if and only if the flag was last released by a worker |
| SourceJump.LostSpawnLeavesWaiting | crates/bhopfix-hook/src/sourcejump.rs:76-110 | that failure is real for every name: at rest the accepted map waits and is not shown |
| SourceJump.RestShowsLastRequestIff | crates/bhopfix-hook/src/sourcejump.rs:91-104 | the last request is shown if and only if it was not for the map on show while another waited |
| SourceJump.OvertakenRequestLost | crates/bhopfix-hook/src/sourcejump.rs:91-162 | so is this one, for every two names |
| SourceJump.FetchesPlain | crates/bhopfix-hook/src/sourcejump.rs:45-53 | only plain names are fetched, never one twice in a row |

## Left out

- Memory ordering weaker than sequential consistency, and wrap-around of ring indices and of log sequence numbers after 2^32 records.
- In-flight log records at a flush: they are skipped and not delivered later; delivery is claimed for quiet flushes only.
- CodePatch.InlineHook.Install: does not claim that callbacks have left when a cleanly failed install frees its trampoline, because the source does not consult the counter there.
- UnloadSafety.FreedOnlyWhenClean: does not speak of the SourceJump thread, whose handle can be overwritten before it has finished.
- UnloadSafety.RunPreserves: the hooks that are dropped when `run` returns may be restored in any order, more orders than the source has.
- FrameRate.FrameRateIndependence: assumes that a serve has happened before, that no ring overflows, and exact arithmetic without rounding or not-a-number values.
- MouseServing.LinuxRing.RingPush: run sequentially; its interleavings are not modelled, the game calling both ends from one thread.
- StopTheWorld.Process.TrySuspendOthers: stands for the in-process guard and the controller's thread guard; the ptrace guard has the same loop and its stop-status checks are not modelled.
- PredictionPatch.Discover: the Linux discovery; the Windows one also checks branch opcodes and distinct addresses.
- PakReader.Disk.Store: directories exist only as prefixes of files, and the temporary file and rename are one step.
- PakReader.Disk.ExtractStored: paths are bytes, as on Linux; the lossy conversion on other systems is not modelled.
- PatternText.Parse: words are split at the ASCII blanks, not at every blank of Unicode.
- Export lookup, imported-symbol slots and their names: lookups beside the searches that are modelled.
- Parsing of the PE and ELF headers: sections are given, with the bounds that opening the file checks.
- SourceJump shutdown, the web fetch and the parsing of its answer.
- Map downloads, checksums, decompression, display modes, launching, command lines and console output.
- The contents of the real game's signatures, structure offsets and variables.
