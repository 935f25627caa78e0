/** All-or-nothing groups of patches: the viewpunch list and the fullscreen pair. */
module PatchToggles {
  import opened Bytes
  import opened SiteProtocol
  import opened CodePatch

  // ---- what a toggle may do, on abstract sites ----

  datatype Group = Group(sites: seq<Site>, enabled: bool, dirty: bool)

  datatype ToggleResult = Done | RolledBack | RollbackFailed

  ghost predicate AllAre(sites: seq<Site>, s: Site) {
    forall i | 0 <= i < |sites| :: sites[i] == s
  }

  ghost predicate AllSettled(sites: seq<Site>) {
    forall i | 0 <= i < |sites| :: Settled(sites[i])
  }

  ghost predicate InState(g: Group, on: bool) {
    AllAre(g.sites, if on then APPLIED else PRISTINE)
  }

  /** `apply_all` stops at the first failure, site `done`. */
  ghost predicate AppliedAll(s: seq<Site>, done: nat, s': seq<Site>) {
    && |s'| == |s| && done <= |s|
    && (forall i | 0 <= i < done :: PatchApplied(s[i], true, s'[i]))
    && (done < |s| ==> PatchApplied(s[done], false, s'[done]))
    && (forall i | done < i < |s| :: s'[i] == s[i])
  }

  /** `restore_all` tries every site and succeeds when all did. */
  ghost predicate RestoredAll(s: seq<Site>, oks: seq<bool>, s': seq<Site>) {
    && |s'| == |s| == |oks|
    && (forall i | 0 <= i < |s| :: Restored(s[i], oks[i], s'[i]))
  }

  /** Every site applied, or every site restored. */
  ghost predicate AllDone(s: seq<Site>, on: bool, s': seq<Site>) {
    && |s'| == |s|
    && forall i | 0 <= i < |s| :: if on then PatchApplied(s[i], true, s'[i]) else Restored(s[i], true, s'[i])
  }

  /** Sites in no doubt, or marked, can be brought to either state. */
  lemma SettledCanBeDone(s: seq<Site>, on: bool)
    requires AllSettled(s)
    ensures AllDone(s, on, Uniform(|s|, if on then APPLIED else PRISTINE))
  {
    forall i | 0 <= i < |s|
      ensures if on then PatchApplied(s[i], true, APPLIED) else Restored(s[i], true, PRISTINE)
    {
      assert Settled(s[i]);
    }
  }

  /** An enable that failed at site `done`, and whose rollback failed too. */
  ghost predicate UndoFailed(s: seq<Site>, done: nat, middle: seq<Site>, oks: seq<bool>, s': seq<Site>) {
    AppliedAll(s, done, middle) && done < |s| && RestoredAll(middle, oks, s') && false in oks
  }

  /** A disable that failed, and whose rollback failed too, at site `done`. */
  ghost predicate RedoFailed(s: seq<Site>, oks: seq<bool>, middle: seq<Site>, done: nat, s': seq<Site>) {
    RestoredAll(s, oks, middle) && false in oks && AppliedAll(middle, done, s') && done < |s|
  }

  ghost predicate FailedRollback(s: seq<Site>, on: bool, s': seq<Site>) {
    if on then exists done: nat, middle, oks :: UndoFailed(s, done, middle, oks, s')
    else exists done: nat, middle, oks :: RedoFailed(s, oks, middle, done, s')
  }

  /** After a failed rollback some patch is not in the state that the flag shows. */
  lemma FailedRollbackShows(s: seq<Site>, on: bool, s': seq<Site>)
    requires FailedRollback(s, on, s')
    ensures !AllAre(s', if on then PRISTINE else APPLIED)
  {
    if on {
      var done: nat, middle, oks :| UndoFailed(s, done, middle, oks, s');
      var k :| 0 <= k < |oks| && !oks[k];
      assert Restored(middle[k], false, s'[k]);
    } else {
      var done: nat, middle, oks :| RedoFailed(s, oks, middle, done, s');
      assert PatchApplied(middle[done], false, s'[done]);
    }
  }

  ghost predicate ToggleStep(g: Group, on: bool, r: ToggleResult, g': Group) {
    && |g'.sites| == |g.sites|
    && (AllSettled(g.sites) ==> AllSettled(g'.sites))
    && if on == g.enabled then r == Done && g' == g
       else match r
         case Done => AllDone(g.sites, on, g'.sites) && InState(g', on) && g'.enabled == on && g'.dirty == on
         case RolledBack => InState(g', !on) && g'.enabled == !on && g'.dirty == if on then false else g.dirty
         case RollbackFailed =>
           FailedRollback(g.sites, on, g'.sites) && g'.enabled == !on && g'.dirty == if on then true else g.dirty
  }

  datatype Toggle = Toggle(on: bool, result: ToggleResult, after: Group)

  ghost predicate ToggleRun(g: Group, run: seq<Toggle>)
    decreases |run|
  {
    run == [] || (ToggleStep(g, run[0].on, run[0].result, run[0].after) && ToggleRun(run[0].after, run[1..]))
  }

  /** Whether the last toggle that did any work ended in a failed rollback: a caller has seen
      that result and no later success or completed rollback. */
  function Broken(enabled: bool, broken: bool, t: Toggle): bool {
    match t.result
    case RollbackFailed => true
    case RolledBack => false
    case Done => broken && t.on == enabled
  }

  ghost predicate GroupInv(g: Group, broken: bool) {
    && (!g.dirty ==> !g.enabled && InState(g, false))
    && (broken <==> !InState(g, g.enabled))
    && (!broken ==> g.enabled || !g.dirty)
  }

  lemma TogglePreserves(g: Group, broken: bool, t: Toggle)
    requires GroupInv(g, broken) && ToggleStep(g, t.on, t.result, t.after)
    ensures GroupInv(t.after, Broken(g.enabled, broken, t))
    ensures t.result == Done ==> (InState(t.after, t.on) <==> !(broken && t.on == g.enabled))
    ensures t.result == RolledBack && !broken ==> t.after.sites == g.sites
  {
    if t.result == RollbackFailed && t.on != g.enabled {
      FailedRollbackShows(g.sites, t.on, t.after.sites);
    }
    if t.result == RolledBack && !broken {
      assert t.on != g.enabled;
      assert forall i | 0 <= i < |g.sites| :: t.after.sites[i] == g.sites[i];
    }
  }

  /** The group and the caller's knowledge before toggle `i` of a run. */
  function Before(g: Group, broken: bool, run: seq<Toggle>, i: nat): (r: (Group, bool))
    requires i <= |run|
    decreases i
  {
    if i == 0 then (g, broken)
    else
      var p := Before(g, broken, run, i - 1);
      (run[i - 1].after, Broken(p.0.enabled, p.1, run[i - 1]))
  }

  lemma {:induction false} RunStep(g: Group, run: seq<Toggle>, i: nat)
    requires ToggleRun(g, run) && i < |run|
    ensures ToggleStep(if i == 0 then g else run[i - 1].after, run[i].on, run[i].result, run[i].after)
    decreases i
  {
    if i > 0 {
      RunStep(run[0].after, run[1..], i - 1);
    }
  }

  /** Over any sequence of toggles with any failures: a cleared DIRTY flag means every patch is
      original and untainted; a success leaves the requested state if and only if it was not a
      no-op after a failed rollback; a completed rollback leaves every patch as it was. */
  lemma {:induction false} ToggleHistory(g: Group, run: seq<Toggle>, i: nat)
    requires GroupInv(g, false) && ToggleRun(g, run) && i <= |run|
    ensures var (before, broken) := Before(g, false, run, i);
      && GroupInv(before, broken)
      && (i < |run| ==>
        && ToggleStep(before, run[i].on, run[i].result, run[i].after)
        && (!run[i].after.dirty ==> InState(run[i].after, false))
        && (run[i].result == Done ==>
              (InState(run[i].after, run[i].on) <==> !(broken && run[i].on == before.enabled)))
        && (run[i].result == RolledBack && !broken ==> run[i].after.sites == before.sites))
    decreases i
  {
    if i > 0 {
      ToggleHistory(g, run, i - 1);
      var (before, broken) := Before(g, false, run, i - 1);
      TogglePreserves(before, broken, run[i - 1]);
    }
    if i < |run| {
      RunStep(g, run, i);
      var (before, broken) := Before(g, false, run, i);
      TogglePreserves(before, broken, run[i]);
    }
  }

  /** A run of a group of `n` patches that ends in an Ok while no patch is in the requested state. */
  ghost predicate StuckRun(g: Group, run: seq<Toggle>, n: nat, on: bool) {
    && GroupInv(g, false) && |g.sites| == n && ToggleRun(g, run) && run != []
    && run[|run| - 1].on == on && run[|run| - 1].result == Done && !InState(run[|run| - 1].after, on)
    && Before(g, false, run, |run| - 1).1 && Before(g, false, run, |run| - 1).0.enabled == on
  }

  ghost function Uniform(n: nat, s: Site): (sites: seq<Site>)
    ensures |sites| == n && AllAre(sites, s)
  {
    seq(n, _ => s)
  }

  /** A rollback of every site can fail: the last apply of an enable and then every restore, or
      every restore of a disable and then the first apply. */
  lemma FailedRollbackPossible(n: nat, on: bool)
    requires n > 0
    ensures FailedRollback(Uniform(n, if on then PRISTINE else APPLIED), on, Uniform(n, Site(Unknown, true)))
  {
    var (doubt, oks) := (Uniform(n, Site(Unknown, true)), seq(n, _ => false));
    assert !oks[0];
    if on {
      var middle := Uniform(n, APPLIED)[n - 1 := Site(Unknown, true)];
      assert UndoFailed(Uniform(n, PRISTINE), n - 1, middle, oks, doubt);
    } else {
      assert RedoFailed(Uniform(n, APPLIED), oks, doubt, 0, doubt);
    }
  }

  /** The exception is real, for groups of every size and both requests: after a failed rollback a
      request that matches the flag is answered Ok while the patches are not in that state. */
  lemma NoOpAfterFailedRollback(n: nat, on: bool)
    requires n > 0
    ensures exists g: Group, run: seq<Toggle> :: StuckRun(g, run, n, on)
  {
    var g := Group(Uniform(n, if on then APPLIED else PRISTINE), on, on);
    var stuck := Group(Uniform(n, Site(Unknown, true)), on, true);
    var run := [Toggle(!on, RollbackFailed, stuck), Toggle(on, Done, stuck)];
    FailedRollbackPossible(n, !on);
    assert ToggleRun(stuck, run[1..]) by {
      assert ToggleRun(stuck, run[1..][1..]);
    }
    assert stuck.sites[0].tainted;
    assert Before(g, false, run, 0) == (g, false);
    assert Before(g, false, run, 1) == (stuck, true);
    assert StuckRun(g, run, n, on);
  }

  // ---- the real groups ----

  ghost predicate Disjoint(a: Patch, b: Patch) {
    a.address + |a.original| <= b.address || b.address + |b.original| <= a.address
  }

  ghost predicate Inside(x: int, p: Patch) {
    p.address <= x < p.address + |p.original|
  }

  ghost predicate ValidAll(os: Memory, ps: seq<Patch>)
    reads os, ps
  {
    && (forall i | 0 <= i < |ps| :: ps[i].os == os && ps[i].Valid() && ps[i].original != ps[i].replacement)
    && (forall i, j | 0 <= i < j < |ps| :: ps[i] != ps[j] && Disjoint(ps[i], ps[j]))
  }

  ghost function Sites(os: Memory, ps: seq<Patch>): (s: seq<Site>)
    requires ValidAll(os, ps)
    reads os, ps
    ensures |s| == |ps| && forall i | 0 <= i < |s| :: s[i] == ps[i].View()
  {
    seq(|ps|, i requires 0 <= i < |ps| && ValidAll(os, ps) reads os, ps => ps[i].View())
  }

  /** No byte outside the windows of the group differs. */
  ghost predicate Untouched(a: seq<byte>, b: seq<byte>, ps: seq<Patch>) {
    && |a| == |b|
    && forall x | 0 <= x < |a| && (forall i | 0 <= i < |ps| :: !Inside(x, ps[i])) :: a[x] == b[x]
  }

  lemma OtherWindow(a: seq<byte>, b: seq<byte>, p: Patch, q: Patch)
    requires SameOutside(a, b, p.address, |p.original|) && Disjoint(p, q) && q.address + |q.original| <= |a|
    ensures a[q.address..q.address + |q.original|] == b[q.address..q.address + |q.original|]
  {
    var (at, end) := (q.address, q.address + |q.original|);
    forall k | 0 <= k < |q.original|
      ensures a[at..end][k] == b[at..end][k]
    {
      SamePoint(a, b, p, at + k);
    }
  }

  lemma SamePoint(a: seq<byte>, b: seq<byte>, p: Patch, x: nat)
    requires SameOutside(a, b, p.address, |p.original|) && x < |a| && !Inside(x, p)
    ensures a[x] == b[x]
  {
    var end := p.address + |p.original|;
    if x < p.address {
      assert a[..p.address][x] == b[..p.address][x];
    } else {
      assert a[end..][x - end] == b[end..][x - end];
    }
  }

  /** Writing inside one window of the group keeps everything outside the group. */
  lemma StillUntouched(a: seq<byte>, b: seq<byte>, c: seq<byte>, ps: seq<Patch>, k: nat)
    requires k < |ps| && Untouched(b, c, ps) && SameOutside(a, b, ps[k].address, |ps[k].original|)
    ensures Untouched(a, c, ps)
  {
    forall x | 0 <= x < |a| && (forall i | 0 <= i < |ps| :: !Inside(x, ps[i]))
      ensures a[x] == c[x]
    {
      SamePoint(a, b, ps[k], x);
    }
  }

  method ApplyAt(os: Memory, ps: seq<Patch>, k: nat) returns (ok: bool)
    requires ValidAll(os, ps) && k < |ps|
    modifies os, ps
    ensures ValidAll(os, ps) && SameOutside(os.bytes, old(os.bytes), ps[k].address, |ps[k].original|)
    ensures PatchApplied(old(Sites(os, ps))[k], ok, Sites(os, ps)[k])
    ensures !ok ==> os.faulty || !Settled(old(Sites(os, ps))[k])
    ensures Sites(os, ps) == old(Sites(os, ps))[k := Sites(os, ps)[k]]
  {
    ok := ps[k].Apply();
    forall i | 0 <= i < |ps| && i != k
      ensures ps[i].Valid() && ps[i].View() == old(ps[i].View())
    {
      OtherWindow(os.bytes, old(os.bytes), ps[k], ps[i]);
    }
  }

  method RestoreAt(os: Memory, ps: seq<Patch>, k: nat) returns (ok: bool)
    requires ValidAll(os, ps) && k < |ps|
    modifies os, ps
    ensures ValidAll(os, ps) && SameOutside(os.bytes, old(os.bytes), ps[k].address, |ps[k].original|)
    ensures Restored(old(Sites(os, ps))[k], ok, Sites(os, ps)[k])
    ensures !ok ==> os.faulty || !Settled(old(Sites(os, ps))[k])
    ensures Sites(os, ps) == old(Sites(os, ps))[k := Sites(os, ps)[k]]
  {
    ok := ps[k].Restore();
    forall i | 0 <= i < |ps| && i != k
      ensures ps[i].Valid() && ps[i].View() == old(ps[i].View())
    {
      OtherWindow(os.bytes, old(os.bytes), ps[k], ps[i]);
    }
  }

  lemma Settles(s: seq<Site>, done: nat, oks: seq<bool>, s': seq<Site>)
    requires AppliedAll(s, done, s') || RestoredAll(s, oks, s')
    ensures AllSettled(s) ==> AllSettled(s')
  {
    if AllSettled(s) {
      forall i | 0 <= i < |s'|
        ensures Settled(s'[i])
      {
        assert Settled(s[i]);
      }
    }
  }

  lemma UntouchedTrans(a: seq<byte>, b: seq<byte>, c: seq<byte>, ps: seq<Patch>)
    requires Untouched(a, b, ps) && Untouched(b, c, ps)
    ensures Untouched(a, c, ps)
  {
  }

  ghost predicate AppliedUpTo(s: seq<Site>, done: nat, s': seq<Site>) {
    && |s'| == |s| && done <= |s|
    && (forall i | 0 <= i < done :: PatchApplied(s[i], true, s'[i]))
    && (forall i | done <= i < |s| :: s'[i] == s[i])
  }

  /** One turn of `apply_all`. */
  lemma AppliedOne(s: seq<Site>, done: nat, s': seq<Site>, ok: bool, s'': seq<Site>)
    requires AppliedUpTo(s, done, s') && done < |s| && |s''| == |s|
    requires s'' == s'[done := s''[done]] && PatchApplied(s'[done], ok, s''[done])
    ensures if ok then AppliedUpTo(s, done + 1, s'') else AppliedAll(s, done, s'')
  {
  }

  method ApplyAll(os: Memory, ps: seq<Patch>) returns (done: nat)
    requires ValidAll(os, ps)
    modifies os, ps
    ensures ValidAll(os, ps) && Untouched(os.bytes, old(os.bytes), ps)
    ensures AppliedAll(old(Sites(os, ps)), done, Sites(os, ps))
    ensures done == |ps| <==> AllAre(Sites(os, ps), APPLIED)
    ensures !os.faulty && AllSettled(old(Sites(os, ps))) ==> done == |ps|
  {
    ghost var start := Sites(os, ps);
    done := 0;
    while done < |ps|
      invariant ValidAll(os, ps) && Untouched(os.bytes, old(os.bytes), ps)
      invariant AppliedUpTo(start, done, Sites(os, ps))
    {
      ghost var (before, sofar) := (os.bytes, Sites(os, ps));
      var ok := ApplyAt(os, ps, done);
      StillUntouched(os.bytes, before, old(os.bytes), ps, done);
      AppliedOne(start, done, sofar, ok, Sites(os, ps));
      if !ok {
        return;
      }
      done := done + 1;
    }
  }

  ghost predicate RestoredDownTo(s: seq<Site>, oks: seq<bool>, k: nat, s': seq<Site>, ok: bool) {
    && k <= |s| == |oks| == |s'|
    && (forall i | 0 <= i < k :: s'[i] == s[i])
    && (forall i | k <= i < |s| :: Restored(s[i], oks[i], s'[i]))
    && (ok <==> forall i | k <= i < |s| :: oks[i])
  }

  /** One turn of `restore_all`. */
  lemma RestoredOne(s: seq<Site>, oks: seq<bool>, k: nat, s': seq<Site>, ok: bool, restored: bool, s'': seq<Site>)
    requires RestoredDownTo(s, oks, k + 1, s', ok) && |s''| == |s|
    requires s'' == s'[k := s''[k]] && Restored(s'[k], restored, s''[k])
    ensures RestoredDownTo(s, oks[k := restored], k, s'', ok && restored)
  {
    var oks' := oks[k := restored];
    if ok && restored {
      assert forall i | k <= i < |s| :: oks'[i];
    } else if !restored {
      assert !oks'[k];
    } else {
      var i :| k + 1 <= i < |s| && !oks[i];
      assert !oks'[i];
    }
  }

  method RestoreAll(os: Memory, ps: seq<Patch>) returns (ok: bool, ghost oks: seq<bool>)
    requires ValidAll(os, ps)
    modifies os, ps
    ensures ValidAll(os, ps) && Untouched(os.bytes, old(os.bytes), ps)
    ensures RestoredAll(old(Sites(os, ps)), oks, Sites(os, ps))
    ensures ok <==> forall i | 0 <= i < |ps| :: oks[i]
    ensures ok <==> AllAre(Sites(os, ps), PRISTINE)
    ensures !os.faulty && AllSettled(old(Sites(os, ps))) ==> ok
  {
    ghost var start := Sites(os, ps);
    ok := true;
    oks := seq(|ps|, _ => true);
    var k: nat := |ps|;
    while k > 0
      invariant ValidAll(os, ps) && Untouched(os.bytes, old(os.bytes), ps)
      invariant RestoredDownTo(start, oks, k, Sites(os, ps), ok)
      invariant !os.faulty && AllSettled(start) ==> ok
    {
      k := k - 1;
      ghost var (before, sofar) := (os.bytes, Sites(os, ps));
      var restored := RestoreAt(os, ps, k);
      StillUntouched(os.bytes, before, old(os.bytes), ps, k);
      RestoredOne(start, oks, k, sofar, ok, restored, Sites(os, ps));
      oks := oks[k := restored];
      ok := ok && restored;
    }
  }

  ghost predicate UniformBytes(b: seq<byte>, ps: seq<Patch>, on: bool) {
    forall i | 0 <= i < |ps| ::
      && ps[i].address + |ps[i].original| <= |b|
      && b[ps[i].address..ps[i].address + |ps[i].original|] == if on then ps[i].replacement else ps[i].original
  }

  lemma UniformSites(os: Memory, ps: seq<Patch>, on: bool)
    requires ValidAll(os, ps) && AllAre(Sites(os, ps), if on then APPLIED else PRISTINE)
    ensures UniformBytes(os.bytes, ps, on)
  {
    forall i | 0 <= i < |ps|
      ensures ps[i].Bytes() == if on then ps[i].replacement else ps[i].original
    {
      assert Sites(os, ps)[i] == ps[i].View();
    }
  }

  lemma SameInside(a: seq<byte>, b: seq<byte>, ps: seq<Patch>, on: bool, i: nat, x: nat)
    requires |a| == |b| && UniformBytes(a, ps, on) && UniformBytes(b, ps, on) && i < |ps| && Inside(x, ps[i])
    ensures x < |a| && a[x] == b[x]
  {
    var (at, n) := (ps[i].address, |ps[i].original|);
    assert a[at..at + n][x - at] == b[at..at + n][x - at];
  }

  /** Back in the same uniform state, with nothing else touched, memory is byte-for-byte as before. */
  lemma SameMemory(a: seq<byte>, b: seq<byte>, ps: seq<Patch>, on: bool)
    requires Untouched(a, b, ps) && UniformBytes(a, ps, on) && UniformBytes(b, ps, on)
    ensures a == b
  {
    forall x | 0 <= x < |a|
      ensures a[x] == b[x]
    {
      if i :| 0 <= i < |ps| && Inside(x, ps[i]) {
        SameInside(a, b, ps, on, i, x);
      }
    }
  }

  /** Enabling a group: a failed apply is rolled back. */
  method ApplyOrUndo(os: Memory, ps: seq<Patch>, ghost start: seq<Site>) returns (r: ToggleResult)
    requires ValidAll(os, ps) && start == Sites(os, ps)
    modifies os, ps
    ensures ValidAll(os, ps) && Untouched(os.bytes, old(os.bytes), ps)
    ensures AllSettled(start) ==> AllSettled(Sites(os, ps))
    ensures r == Done ==> AllDone(start, true, Sites(os, ps)) && AllAre(Sites(os, ps), APPLIED)
    ensures r == RolledBack ==> AllAre(Sites(os, ps), PRISTINE)
    ensures r == RollbackFailed ==> FailedRollback(start, true, Sites(os, ps))
    ensures r == RolledBack && AllAre(start, PRISTINE) ==> os.bytes == old(os.bytes)
    ensures !os.faulty && AllSettled(start) ==> r == Done
  {
    if AllAre(start, PRISTINE) {
      UniformSites(os, ps, false);
    }
    var done := ApplyAll(os, ps);
    ghost var (middle, between) := (Sites(os, ps), os.bytes);
    Settles(start, done, [], middle);
    if done == |ps| {
      return Done;
    }
    var restored, oks := RestoreAll(os, ps);
    Settles(middle, 0, oks, Sites(os, ps));
    UntouchedTrans(os.bytes, between, old(os.bytes), ps);
    if !restored {
      assert UndoFailed(start, done, middle, oks, Sites(os, ps));
      return RollbackFailed;
    }
    UniformSites(os, ps, false);
    if AllAre(start, PRISTINE) {
      SameMemory(os.bytes, old(os.bytes), ps, false);
    }
    return RolledBack;
  }

  /** Disabling a group: a failed restore puts the patches back on. */
  method RestoreOrRedo(os: Memory, ps: seq<Patch>, ghost start: seq<Site>) returns (r: ToggleResult)
    requires ValidAll(os, ps) && start == Sites(os, ps)
    modifies os, ps
    ensures ValidAll(os, ps) && Untouched(os.bytes, old(os.bytes), ps)
    ensures AllSettled(start) ==> AllSettled(Sites(os, ps))
    ensures r == Done ==> AllDone(start, false, Sites(os, ps)) && AllAre(Sites(os, ps), PRISTINE)
    ensures r == RolledBack ==> AllAre(Sites(os, ps), APPLIED)
    ensures r == RollbackFailed ==> FailedRollback(start, false, Sites(os, ps))
    ensures r == RolledBack && AllAre(start, APPLIED) ==> os.bytes == old(os.bytes)
    ensures !os.faulty && AllSettled(start) ==> r == Done
  {
    if AllAre(start, APPLIED) {
      UniformSites(os, ps, true);
    }
    var restored, oks := RestoreAll(os, ps);
    ghost var (middle, between) := (Sites(os, ps), os.bytes);
    Settles(start, 0, oks, middle);
    if restored {
      return Done;
    }
    var done := ApplyAll(os, ps);
    Settles(middle, done, [], Sites(os, ps));
    UntouchedTrans(os.bytes, between, old(os.bytes), ps);
    if done < |ps| {
      assert RedoFailed(start, oks, middle, done, Sites(os, ps));
      return RollbackFailed;
    }
    UniformSites(os, ps, true);
    if AllAre(start, APPLIED) {
      SameMemory(os.bytes, old(os.bytes), ps, true);
    }
    return RolledBack;
  }

  lemma ToggleOutcome(start: seq<Site>, wasDirty: bool, on: bool, r: ToggleResult, end: seq<Site>, g': Group)
    requires |end| == |start| && (AllSettled(start) ==> AllSettled(end))
    requires r == Done ==> AllDone(start, on, end) && AllAre(end, if on then APPLIED else PRISTINE)
    requires r == RolledBack ==> AllAre(end, if on then PRISTINE else APPLIED)
    requires r == RollbackFailed ==> FailedRollback(start, on, end)
    requires g' == Group(end, if r == Done then on else !on,
      if r == (if on then RolledBack else Done) then false else if on then true else wasDirty)
    ensures ToggleStep(Group(start, !on, wasDirty), on, r, g')
  {
  }

  /** viewpunch `Hooks`; `dirty` is its DIRTY static. */
  class PatchGroup {
    const os: Memory
    const patches: seq<Patch>
    var enabled: bool
    var dirty: bool

    ghost predicate Valid()
      reads this, os, patches
    {
      ValidAll(os, patches)
    }

    ghost function View(): Group
      requires Valid()
      reads this, os, patches
    {
      Group(Sites(os, patches), enabled, dirty)
    }

    constructor (os: Memory, patches: seq<Patch>)
      requires ValidAll(os, patches)
      ensures Valid() && this.os == os && this.patches == patches && !enabled && !dirty
    {
      this.os := os;
      this.patches := patches;
      this.enabled := false;
      this.dirty := false;
    }

    /** Storing the flags touches no site. */
    method SetFlags(on: bool, mark: bool)
      requires Valid()
      modifies this`enabled, this`dirty
      ensures Valid() && enabled == on && dirty == mark && Sites(os, patches) == old(Sites(os, patches))
    {
      enabled, dirty := on, mark;
    }

    method TurnOn(ghost g: Group) returns (r: ToggleResult)
      requires Valid() && g == View() && !enabled
      modifies this, os, patches
      ensures Valid() && Untouched(os.bytes, old(os.bytes), patches)
      ensures ToggleStep(g, true, r, View())
      ensures r == RolledBack && AllAre(g.sites, PRISTINE) ==> os.bytes == old(os.bytes)
      ensures !os.faulty && AllSettled(g.sites) ==> r == Done
    {
      SetFlags(enabled, true);
      r := ApplyOrUndo(os, patches, g.sites);
      SetFlags(r == Done, r != RolledBack);
      ToggleOutcome(g.sites, g.dirty, true, r, Sites(os, patches), View());
    }

    method TurnOff(ghost g: Group) returns (r: ToggleResult)
      requires Valid() && g == View() && enabled
      modifies this, os, patches
      ensures Valid() && Untouched(os.bytes, old(os.bytes), patches)
      ensures ToggleStep(g, false, r, View())
      ensures r == RolledBack && AllAre(g.sites, APPLIED) ==> os.bytes == old(os.bytes)
      ensures !os.faulty && AllSettled(g.sites) ==> r == Done
    {
      r := RestoreOrRedo(os, patches, g.sites);
      if r == Done {
        SetFlags(false, false);
      }
      ToggleOutcome(g.sites, g.dirty, false, r, Sites(os, patches), View());
    }

    method SetEnabled(on: bool) returns (r: ToggleResult)
      requires Valid()
      modifies this, os, patches
      ensures Valid() && Untouched(os.bytes, old(os.bytes), patches)
      ensures ToggleStep(old(View()), on, r, View())
      ensures r == RolledBack && old(InState(View(), enabled)) ==> os.bytes == old(os.bytes)
      ensures !os.faulty && old(AllSettled(Sites(os, patches))) ==> r == Done
    {
      if enabled == on {
        return Done;
      }
      if on {
        r := TurnOn(View());
      } else {
        r := TurnOff(View());
      }
    }
  }

  /** A decoded instruction: where it is loaded and the bytes it must hold. */
  datatype Target = Target(address: nat, bytes: seq<byte>)

  ghost predicate GoodTargets(targets: seq<Target>, size: nat) {
    && (forall i | 0 <= i < |targets| :: |targets[i].bytes| > 0 && targets[i].bytes[0] == 0xf3)
    && (forall i | 0 <= i < |targets| :: targets[i].address + |targets[i].bytes| <= size)
    && (forall i, j | 0 <= i < j < |targets| :: targets[i].address + |targets[i].bytes| <= targets[j].address)
  }

  method DropAt(os: Memory, ps: seq<Patch>, k: nat)
    requires ValidAll(os, ps) && k < |ps|
    modifies os, ps
    ensures ValidAll(os, ps) && Untouched(os.bytes, old(os.bytes), ps)
    ensures old(AllAre(Sites(os, ps), PRISTINE)) ==> AllAre(Sites(os, ps), PRISTINE) && os.bytes == old(os.bytes)
  {
    ghost var (before, calm) := (os.bytes, AllAre(Sites(os, ps), PRISTINE));
    if calm {
      UniformSites(os, ps, false);
    }
    var _ := RestoreAt(os, ps, k);
    StillUntouched(os.bytes, before, before, ps, k);
    if calm {
      UniformSites(os, ps, false);
      SameMemory(os.bytes, before, ps, false);
    }
  }

  /** Dropping a vector of patches restores each in order and ignores the outcome. */
  method DropAll(os: Memory, ps: seq<Patch>)
    requires ValidAll(os, ps)
    modifies os, ps
    ensures ValidAll(os, ps) && Untouched(os.bytes, old(os.bytes), ps)
    ensures old(AllAre(Sites(os, ps), PRISTINE)) ==> os.bytes == old(os.bytes)
  {
    ghost var calm := AllAre(Sites(os, ps), PRISTINE);
    for k := 0 to |ps|
      invariant ValidAll(os, ps) && Untouched(os.bytes, old(os.bytes), ps)
      invariant calm ==> AllAre(Sites(os, ps), PRISTINE) && os.bytes == old(os.bytes)
    {
      ghost var before := os.bytes;
      DropAt(os, ps, k);
      UntouchedTrans(os.bytes, before, old(os.bytes), ps);
    }
  }

  ghost predicate Prepared(os: Memory, p: Patch, t: Target)
    reads os, p
  {
    && p.os == os && p.address == t.address && p.original == t.bytes
    && p.replacement == seq(|t.bytes|, _ => NOP) && p.original != p.replacement
    && p.Valid() && p.View() == PRISTINE
  }

  ghost predicate LiveMatch(b: seq<byte>, t: Target) {
    t.address + |t.bytes| <= |b| && b[t.address..t.address + |t.bytes|] == t.bytes
  }

  method PrepareOne(os: Memory, t: Target) returns (patch: Patch?)
    requires os.Valid() && |t.bytes| > 0 && t.bytes[0] == 0xf3 && t.address + |t.bytes| <= |os.bytes|
    ensures patch != null <==> LiveMatch(os.bytes, t)
    ensures patch != null ==> fresh(patch) && Prepared(os, patch, t)
  {
    var nops := seq(|t.bytes|, _ => NOP);
    patch := Patch.Prepare(os, t.address, t.bytes, nops);
    assert nops[0] != t.bytes[0];
  }

  lemma PreparedValid(os: Memory, patches: seq<Patch>, targets: seq<Target>)
    requires GoodTargets(targets, |os.bytes|) && |patches| == |targets|
    requires forall i | 0 <= i < |targets| :: Prepared(os, patches[i], targets[i])
    requires forall i, j | 0 <= i < j < |targets| :: patches[i] != patches[j]
    ensures ValidAll(os, patches) && AllAre(Sites(os, patches), PRISTINE)
  {
    forall i, j | 0 <= i < j < |patches|
      ensures patches[i] != patches[j] && Disjoint(patches[i], patches[j])
    {
      assert targets[i].address + |targets[i].bytes| <= targets[j].address;
    }
  }

  method PrepareAll(os: Memory, targets: seq<Target>) returns (ok: bool, patches: seq<Patch>)
    requires os.Valid() && GoodTargets(targets, |os.bytes|)
    ensures ok <==> forall i | 0 <= i < |targets| :: LiveMatch(os.bytes, targets[i])
    ensures ok ==> |patches| == |targets| && ValidAll(os, patches) && AllAre(Sites(os, patches), PRISTINE)
    ensures ok ==> forall i | 0 <= i < |targets| :: fresh(patches[i]) && Prepared(os, patches[i], targets[i])
  {
    patches := [];
    for k := 0 to |targets|
      invariant |patches| == k
      invariant forall i | 0 <= i < k :: fresh(patches[i]) && Prepared(os, patches[i], targets[i])
      invariant forall i, j | 0 <= i < j < k :: patches[i] != patches[j]
      invariant forall i | 0 <= i < k :: LiveMatch(os.bytes, targets[i])
    {
      var patch := PrepareOne(os, targets[k]);
      if patch == null {
        return false, [];
      }
      patches := patches + [patch];
    }
    PreparedValid(os, patches, targets);
    ok := true;
  }

  /** viewpunch `Hooks::install`: every site is validated before any is written. */
  method InstallGroup(os: Memory, targets: seq<Target>, enabled: bool) returns (hooks: PatchGroup?, dirty: bool)
    requires os.Valid() && GoodTargets(targets, |os.bytes|)
    modifies os
    ensures hooks != null ==> fresh(hooks) && hooks.Valid() && hooks.os == os && |hooks.patches| == |targets|
    ensures hooks != null ==> InState(hooks.View(), enabled) && hooks.enabled == hooks.dirty == dirty == enabled
    ensures hooks != null ==> forall i | 0 <= i < |targets| ::
      && hooks.patches[i].address == targets[i].address && hooks.patches[i].original == targets[i].bytes
      && hooks.patches[i].replacement == seq(|targets[i].bytes|, _ => NOP)
    ensures hooks == null && !dirty ==> os.bytes == old(os.bytes)
    ensures (exists i | 0 <= i < |targets| :: !LiveMatch(old(os.bytes), targets[i]))
      ==> hooks == null && !dirty && os.prot == old(os.prot)
    ensures !os.faulty && (forall i | 0 <= i < |targets| :: LiveMatch(old(os.bytes), targets[i])) ==> hooks != null
  {
    var ok, patches := PrepareAll(os, targets);
    if !ok {
      return null, false;
    }
    var group := new PatchGroup(os, patches);
    assert InState(group.View(), false);
    if enabled {
      var r := group.SetEnabled(true);
      dirty := group.dirty;
      if r != Done {
        DropAll(os, patches);
        return null, dirty;
      }
    }
    return group, group.dirty;
  }
}
