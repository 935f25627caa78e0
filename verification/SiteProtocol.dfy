/** What one reversible write site may do: the abstract steps of `Patch` and `PointerHook`.
    The classes of module `CodePatch` are proved to take only these steps, and the
    toggles and the unload protocol are built from them. */
module SiteProtocol {

  datatype Contents = Original | Replacement | Unknown

  /** A site as the hook sees it: what its bytes are, and whether a failed write left it in doubt. */
  datatype Site = Site(contents: Contents, tainted: bool)

  const PRISTINE := Site(Original, false)
  const APPLIED := Site(Replacement, false)

  /** A site that no failed write left in doubt holds one of its two byte strings. */
  ghost predicate Settled(s: Site) {
    !s.tainted ==> s.contents != Unknown
  }

  /** A forced rewrite of the original bytes: it succeeds, or the site stays tainted. */
  ghost predicate ForcedOriginal(ok: bool, s': Site) {
    if ok then s' == PRISTINE else s'.tainted
  }

  ghost predicate Restored(s: Site, ok: bool, s': Site) {
    if s == PRISTINE then ok && s' == s
    else if s == Site(Unknown, false) then !ok && s' == s
    else (!ok && s' == s) || ForcedOriginal(ok, s')
  }

  /** Applying to a site that is not tainted. */
  ghost predicate AppliedClean(s: Site, ok: bool, s': Site) {
    match s.contents
    case Replacement => ok && s' == s
    case Unknown => !ok && s' == s
    case Original => if ok then s' == APPLIED else s' == s || s' == PRISTINE || s'.tainted
  }

  /** `Patch::apply`: a tainted patch is restored first. */
  ghost predicate PatchApplied(s: Site, ok: bool, s': Site) {
    if s.tainted then
      || (!ok && Restored(s, false, s'))
      || (Restored(s, true, PRISTINE) && AppliedClean(PRISTINE, ok, s'))
    else AppliedClean(s, ok, s')
  }

  /** `PointerHook::apply`: a tainted hook refuses. */
  ghost predicate PointerApplied(s: Site, ok: bool, s': Site) {
    if s.tainted then !ok && s' == s else AppliedClean(s, ok, s')
  }

  datatype Op = Apply | Restore

  datatype SiteEvent = SiteEvent(op: Op, ok: bool, after: Site)

  ghost predicate SiteStep(s: Site, e: SiteEvent) {
    match e.op
    case Apply => PatchApplied(s, e.ok, e.after)
    case Restore => Restored(s, e.ok, e.after)
  }

  /** Every run of applies and restores, whatever fails in it. */
  ghost predicate SiteRun(s: Site, events: seq<SiteEvent>)
    decreases |events|
  {
    events == [] || (SiteStep(s, events[0]) && SiteRun(events[0].after, events[1..]))
  }

  function SiteAfter(s: Site, events: seq<SiteEvent>): Site {
    if events == [] then s else events[|events| - 1].after
  }

  /** Over every apply/restore history with any failures, a site not left in doubt holds the
      original or the replacement bytes, and each reported success says exactly which. */
  lemma {:induction false} RunKeepsSettled(s: Site, events: seq<SiteEvent>)
    requires Settled(s) && SiteRun(s, events)
    ensures Settled(SiteAfter(s, events))
    ensures forall i | 0 <= i < |events| ::
      && Settled(events[i].after)
      && (events[i].ok ==> events[i].after == if events[i].op == Apply then APPLIED else PRISTINE)
    decreases |events|
  {
    if events != [] {
      RunKeepsSettled(events[0].after, events[1..]);
      assert forall i | 1 <= i < |events| :: events[i] == events[1..][i - 1];
    }
  }

  /** A failed step never turns a settled, untainted site into the other state unless the
      forced rewrite completed: it stays as it was, becomes original, or is marked tainted. */
  lemma FailureIsVisible(s: Site, e: SiteEvent)
    requires Settled(s) && SiteStep(s, e) && !e.ok
    ensures e.after == s || e.after == PRISTINE || e.after.tainted
  {
  }
}
