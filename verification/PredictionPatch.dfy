/** The controller's transaction on another process: check every site, write in order, roll
    back the prefix in reverse when a write fails. */
module PredictionPatch {
  import opened Bytes
  import opened PatternSearch
  import opened CodePatch

  datatype Platform = Linux | Windows

  datatype PatchSite = PatchSite(addr: nat, original: seq<byte>, replacement: seq<byte>, protection: nat)

  function Nops(n: nat): (r: seq<byte>)
    ensures |r| == n && forall k | 0 <= k < n :: r[k] == NOP
  {
    seq(n, k => NOP)
  }

  /** The bytes of a site when the feature is on, or off. */
  function Wanted(s: PatchSite, on: bool): seq<byte> {
    if on then s.replacement else s.original
  }

  /** Every site's bytes, on or off, are a window of one image of the whole memory. */
  function Picture(snapshot: seq<byte>, on: bool): (r: seq<byte>)
    ensures |r| == |snapshot|
  {
    if on then Nops(|snapshot|) else snapshot
  }

  /** Two memories agree on a window. */
  ghost predicate Agree(a: seq<byte>, b: seq<byte>, at: nat, n: nat) {
    |a| == |b| && at + n <= |a| && forall k | at <= k < at + n :: a[k] == b[k]
  }

  /** The site was cut from the snapshot: its original bytes are the snapshot's, its replacement
      no-operations. Windows of different sites may overlap. */
  ghost predicate SiteOf(snapshot: seq<byte>, s: PatchSite) {
    && s.addr + |s.original| <= |snapshot|
    && s.original == snapshot[s.addr..s.addr + |s.original|]
    && s.replacement == Nops(|s.original|)
  }

  ghost predicate SitesOf(snapshot: seq<byte>, sites: seq<PatchSite>) {
    forall i | 0 <= i < |sites| :: SiteOf(snapshot, sites[i])
  }

  ghost predicate Shows(bytes: seq<byte>, image: seq<byte>, s: PatchSite) {
    Agree(bytes, image, s.addr, |s.original|)
  }

  ghost predicate InWindow(s: PatchSite, k: nat) {
    s.addr <= k < s.addr + |s.original|
  }

  ghost predicate Outside(sites: seq<PatchSite>, n: nat, k: nat)
    requires n <= |sites|
  {
    forall i | 0 <= i < n :: !InWindow(sites[i], k)
  }

  /** Nothing outside the first `n` windows differs. */
  ghost predicate SameBeyond(a: seq<byte>, b: seq<byte>, sites: seq<PatchSite>, n: nat)
    requires n <= |sites|
  {
    |a| == |b| && forall k | 0 <= k < |a| && Outside(sites, n, k) :: a[k] == b[k]
  }

  // ---- the effect of one window write on the windows and on the rest ----

  lemma OutsideSame(a: seq<byte>, b: seq<byte>, at: nat, n: nat, k: nat)
    requires SameOutside(a, b, at, n) && k < |a| && !(at <= k < at + n)
    ensures a[k] == b[k]
  {
    if k < at {
      assert a[..at][k] == b[..at][k];
    } else {
      assert a[at + n..][k - (at + n)] == b[at + n..][k - (at + n)];
    }
  }

  lemma WantedShows(snapshot: seq<byte>, s: PatchSite, on: bool, bytes: seq<byte>)
    requires SiteOf(snapshot, s) && |bytes| == |snapshot|
    ensures |Wanted(s, on)| == |s.original|
    ensures bytes[s.addr..s.addr + |s.original|] == Wanted(s, on) <==> Shows(bytes, Picture(snapshot, on), s)
  {
    var (w, image) := (Wanted(s, on), Picture(snapshot, on));
    forall k | s.addr <= k < s.addr + |w|
      ensures image[k] == w[k - s.addr]
    {
    }
    if bytes[s.addr..s.addr + |w|] == w {
      forall k | s.addr <= k < s.addr + |w| ensures bytes[k] == image[k] {
        assert bytes[s.addr..s.addr + |w|][k - s.addr] == w[k - s.addr];
      }
    }
  }

  /** A window that shows the image still does after another window is written from it. */
  lemma WriteKeepsShown(before: seq<byte>, after: seq<byte>, image: seq<byte>, s: PatchSite, t: PatchSite)
    requires SameOutside(after, before, s.addr, |s.original|) && Shows(after, image, s) && Shows(before, image, t)
    ensures Shows(after, image, t)
  {
    forall k | t.addr <= k < t.addr + |t.original|
      ensures after[k] == image[k]
    {
      if !InWindow(s, k) {
        OutsideSame(after, before, s.addr, |s.original|, k);
      }
    }
  }

  lemma WriteKeepsBeyond(before: seq<byte>, after: seq<byte>, old': seq<byte>, sites: seq<PatchSite>, i: nat, n: nat)
    requires i < n <= |sites| && SameOutside(after, before, sites[i].addr, |sites[i].original|)
    requires SameBeyond(before, old', sites, n)
    ensures SameBeyond(after, old', sites, n)
  {
    forall k | 0 <= k < |after| && Outside(sites, n, k)
      ensures after[k] == old'[k]
    {
      assert !InWindow(sites[i], k);
      OutsideSame(after, before, sites[i].addr, |sites[i].original|, k);
    }
  }

  lemma BeyondMore(a: seq<byte>, b: seq<byte>, sites: seq<PatchSite>, m: nat, n: nat)
    requires m <= n <= |sites| && SameBeyond(a, b, sites, m)
    ensures SameBeyond(a, b, sites, n)
  {
    forall k | 0 <= k < |a| && Outside(sites, n, k) ensures a[k] == b[k] {
      assert Outside(sites, m, k);
    }
  }

  ghost predicate AllShow(bytes: seq<byte>, image: seq<byte>, sites: seq<PatchSite>, lo: nat, hi: nat)
    requires hi <= |sites|
  {
    forall i | lo <= i < hi :: Shows(bytes, image, sites[i])
  }

  /** Putting every window back is putting the memory back, windows overlapping or not. */
  lemma AllBack(bytes: seq<byte>, old': seq<byte>, image: seq<byte>, sites: seq<PatchSite>, n: nat)
    requires n <= |sites| && SameBeyond(bytes, old', sites, n)
    requires AllShow(bytes, image, sites, 0, n) && AllShow(old', image, sites, 0, n)
    ensures bytes == old'
  {
    forall k | 0 <= k < |bytes| ensures bytes[k] == old'[k] {
      if !Outside(sites, n, k) {
        var i :| 0 <= i < n && InWindow(sites[i], k);
        assert Shows(bytes, image, sites[i]) && Shows(old', image, sites[i]);
      }
    }
  }

  // ---- the same for page protections ----

  ghost predicate PageOf(s: PatchSite, page: nat)
  {
    0 < |s.original| && s.addr / PAGE <= page <= (s.addr + |s.original| - 1) / PAGE
  }

  /** The pages of the site's window carry what they carried in `base`. */
  ghost predicate PagesKept(prot: seq<nat>, base: seq<nat>, s: PatchSite) {
    |prot| == |base| && forall p | 0 <= p < |prot| && PageOf(s, p) :: prot[p] == base[p]
  }

  ghost predicate NoPage(sites: seq<PatchSite>, n: nat, page: nat)
    requires n <= |sites|
  {
    forall i | 0 <= i < n :: !PageOf(sites[i], page)
  }

  ghost predicate PagesBeyond(a: seq<nat>, b: seq<nat>, sites: seq<PatchSite>, n: nat)
    requires n <= |sites|
  {
    |a| == |b| && forall p | 0 <= p < |a| && NoPage(sites, n, p) :: a[p] == b[p]
  }

  ghost predicate AllKept(prot: seq<nat>, base: seq<nat>, sites: seq<PatchSite>, lo: nat, hi: nat)
    requires hi <= |sites|
  {
    forall i | lo <= i < hi :: PagesKept(prot, base, sites[i])
  }

  /** Every page of every window carries the protection found at discovery; it matters on Windows
      only. */
  ghost predicate Closed(platform: Platform, prot: seq<nat>, sites: seq<PatchSite>) {
    forall i | 0 <= i < |sites| :: ClosedAt(platform, prot, sites[i])
  }

  ghost predicate ClosedAt(platform: Platform, prot: seq<nat>, s: PatchSite) {
    platform == Windows ==> 0 < |s.original| && Uniform(prot, s.addr, |s.original|, s.protection)
  }

  /** Pages of a window, which may be empty. */
  ghost predicate SamePagesBut(a: seq<nat>, b: seq<nat>, s: PatchSite) {
    |a| == |b| && forall p | 0 <= p < |a| && !PageOf(s, p) :: a[p] == b[p]
  }

  /** The protection query at an address. */
  function PageAt(prot: seq<nat>, addr: nat): Option<nat> {
    if addr / PAGE < |prot| then Some(prot[addr / PAGE]) else None
  }

  lemma WriteKeepsKept(before: seq<nat>, after: seq<nat>, base: seq<nat>, s: PatchSite, t: PatchSite)
    requires SamePagesBut(after, before, s)
    requires PagesKept(after, base, s) && PagesKept(before, base, t)
    ensures PagesKept(after, base, t)
  {
    forall p | 0 <= p < |after| && PageOf(t, p)
      ensures after[p] == base[p]
    {
      if !PageOf(s, p) {
        assert after[p] == before[p];
      }
    }
  }

  lemma WriteKeepsPagesBeyond(before: seq<nat>, after: seq<nat>, base: seq<nat>, sites: seq<PatchSite>, i: nat, n: nat)
    requires i < n <= |sites| && SamePagesBut(after, before, sites[i])
    requires PagesBeyond(before, base, sites, n)
    ensures PagesBeyond(after, base, sites, n)
  {
    forall p | 0 <= p < |after| && NoPage(sites, n, p)
      ensures after[p] == base[p]
    {
      assert !PageOf(sites[i], p);
      assert after[p] == before[p];
    }
  }

  lemma PagesBeyondMore(a: seq<nat>, b: seq<nat>, sites: seq<PatchSite>, m: nat, n: nat)
    requires m <= n <= |sites| && PagesBeyond(a, b, sites, m)
    ensures PagesBeyond(a, b, sites, n)
  {
    forall p | 0 <= p < |a| && NoPage(sites, n, p) ensures a[p] == b[p] {
      assert NoPage(sites, m, p);
    }
  }

  lemma AllPagesBack(prot: seq<nat>, base: seq<nat>, sites: seq<PatchSite>, n: nat)
    requires n <= |sites| && PagesBeyond(prot, base, sites, n) && AllKept(prot, base, sites, 0, n)
    ensures prot == base
  {
    forall p | 0 <= p < |prot| ensures prot[p] == base[p] {
      if !NoPage(sites, n, p) {
        var i :| 0 <= i < n && PageOf(sites[i], p);
        assert PagesKept(prot, base, sites[i]);
      }
    }
  }

  // ---- writing one site ----

  /** `write_mem`: through the process file, which ignores protections, then read back. */
  method WriteFile(os: Memory, at: nat, data: seq<byte>) returns (ok: bool)
    requires os.Valid() && at + |data| <= |os.bytes|
    modifies os`bytes
    ensures os.Valid() && SameOutside(os.bytes, old(os.bytes), at, |data|)
    ensures ok ==> os.bytes[at..at + |data|] == data
    ensures !ok ==> os.faulty
  {
    var fileOpened := os.Call();
    if !fileOpened {
      return false;
    }
    if data != [] {
      os.Copy(at, data);
    }
    var complete := os.Call();
    var readable := os.Call();
    return complete && readable && os.bytes[at..at + |data|] == data;
  }

  /** `Process::write`: a page whose protection changed is refused, except to repair what this
      transaction's own failed write left behind. An empty write is refused before the call. */
  method WriteProcess(os: Memory, at: nat, data: seq<byte>, protection: nat, repair: bool) returns (ok: bool)
    requires os.Valid() && os.InRange(at, |data|)
    modifies os
    ensures os.Valid() && SameOutside(os.bytes, old(os.bytes), at, |data|)
    ensures SamePagesOutside(os.prot, old(os.prot), at, |data|)
    ensures ok ==> os.bytes[at..at + |data|] == data && Uniform(os.prot, at, |data|, protection)
    ensures ok ==> repair || old(os.prot)[at / PAGE] == protection
    ensures !ok ==> os.faulty || !(repair || old(os.prot)[at / PAGE] == protection)
  {
    var writable, found := os.VirtualProtect(at, |data|, EXECUTE_READWRITE);
    if !writable {
      return false;
    }
    if found != protection && !repair {
      var _, _ := os.VirtualProtect(at, |data|, found);
      return false;
    }
    os.Copy(at, data);
    var wrote := os.Call();
    var flushed := os.FlushInstructionCache();
    var closed, _ := os.VirtualProtect(at, |data|, protection);
    var readable := os.Call();
    return wrote && flushed && closed && readable && os.bytes[at..at + |data|] == data;
  }

  method WriteSite(platform: Platform, os: Memory, s: PatchSite, on: bool, repair: bool,
                   ghost snapshot: seq<byte>, ghost base: seq<nat>) returns (ok: bool)
    requires os.Valid() && SiteOf(snapshot, s) && |os.bytes| == |snapshot|
    requires |base| == |os.prot| && (platform == Linux ==> os.prot == base)
    modifies os
    ensures os.Valid() && SameOutside(os.bytes, old(os.bytes), s.addr, |s.original|)
    ensures SamePagesBut(os.prot, old(os.prot), s)
    ensures platform == Linux ==> os.prot == base
    ensures ok ==> Shows(os.bytes, Picture(snapshot, on), s)
    ensures ok && ClosedAt(platform, base, s) ==> PagesKept(os.prot, base, s)
    ensures !ok && platform == Linux ==> os.faulty
    ensures !ok ==>
      os.faulty || s.original == [] || (!repair && PageAt(old(os.prot), s.addr) != Some(s.protection))
  {
    if platform == Linux {
      ok := WriteFile(os, s.addr, Wanted(s, on));
    } else if s.original == [] {
      ok := false;
    } else {
      ok := WriteProcess(os, s.addr, Wanted(s, on), s.protection, repair);
    }
    WantedShows(snapshot, s, on, os.bytes);
  }

  // ---- the transaction ----

  /** The site holds the bytes of the opposite state and, on Windows, its protection. */
  ghost predicate InPriorState(platform: Platform, os: Memory, s: PatchSite, on: bool, snapshot: seq<byte>)
    requires os.Valid() && SiteOf(snapshot, s) && |os.bytes| == |snapshot|
    reads os
  {
    && Shows(os.bytes, Picture(snapshot, !on), s)
    && (platform == Windows ==> PageAt(os.prot, s.addr) == Some(s.protection))
  }

  method CheckSite(platform: Platform, os: Memory, s: PatchSite, on: bool, ghost snapshot: seq<byte>)
      returns (expected: bool)
    requires os.Valid() && SiteOf(snapshot, s) && |os.bytes| == |snapshot|
    ensures expected ==> InPriorState(platform, os, s, on, snapshot)
    ensures !expected ==> os.faulty || !InPriorState(platform, os, s, on, snapshot)
  {
    var readable := os.Call();
    WantedShows(snapshot, s, !on, os.bytes);
    if !readable || os.bytes[s.addr..s.addr + |s.original|] != Wanted(s, !on) {
      return false;
    }
    return platform == Linux || PageAt(os.prot, s.addr) == Some(s.protection);
  }

  method CheckSites(platform: Platform, os: Memory, sites: seq<PatchSite>, on: bool, ghost snapshot: seq<byte>)
      returns (expected: bool)
    requires os.Valid() && SitesOf(snapshot, sites) && |os.bytes| == |snapshot|
    ensures expected ==> forall i | 0 <= i < |sites| :: InPriorState(platform, os, sites[i], on, snapshot)
    ensures !expected ==>
      os.faulty || exists i :: 0 <= i < |sites| && !InPriorState(platform, os, sites[i], on, snapshot)
  {
    for i := 0 to |sites|
      invariant forall j | 0 <= j < i :: InPriorState(platform, os, sites[j], on, snapshot)
    {
      expected := CheckSite(platform, os, sites[i], on, snapshot);
      if !expected {
        return;
      }
    }
    return true;
  }

  /** Bytes and pages beyond the first `hi` windows are as before, and the windows `lo..hi` show the
      image, with their pages as before if these were `closed` with their own protections. */
  ghost predicate Progress(closed: bool, bytes: seq<byte>, prot: seq<nat>, before: seq<byte>, base: seq<nat>,
                           image: seq<byte>, sites: seq<PatchSite>, lo: nat, hi: nat)
    requires hi <= |sites|
  {
    && SameBeyond(bytes, before, sites, hi) && PagesBeyond(prot, base, sites, hi)
    && AllShow(bytes, image, sites, lo, hi) && (closed ==> AllKept(prot, base, sites, lo, hi))
  }

  /** What a write to a site does to memory, however it ends. */
  ghost predicate Wrote(bytes: seq<byte>, prot: seq<nat>, bytes': seq<byte>, prot': seq<nat>, s: PatchSite) {
    SameOutside(bytes', bytes, s.addr, |s.original|) && SamePagesBut(prot', prot, s)
  }

  lemma ProgressKept(closed: bool, bytes: seq<byte>, prot: seq<nat>, bytes': seq<byte>, prot': seq<nat>,
                     before: seq<byte>, base: seq<nat>, image: seq<byte>, sites: seq<PatchSite>,
                     lo: nat, hi: nat, i: nat)
    requires lo <= hi <= |sites| && i < |sites| && Wrote(bytes, prot, bytes', prot', sites[i])
    requires AllShow(bytes, image, sites, lo, hi) && (closed ==> AllKept(prot, base, sites, lo, hi))
    requires Shows(bytes', image, sites[i]) && (closed ==> PagesKept(prot', base, sites[i]))
    ensures AllShow(bytes', image, sites, lo, hi) && (closed ==> AllKept(prot', base, sites, lo, hi))
  {
    forall j | lo <= j < hi
      ensures Shows(bytes', image, sites[j]) && (closed ==> PagesKept(prot', base, sites[j]))
    {
      WriteKeepsShown(bytes, bytes', image, sites[i], sites[j]);
      if closed {
        WriteKeepsKept(prot, prot', base, sites[i], sites[j]);
      }
    }
  }

  lemma ProgressUp(closed: bool, bytes: seq<byte>, prot: seq<nat>, bytes': seq<byte>, prot': seq<nat>,
                   before: seq<byte>, base: seq<nat>, image: seq<byte>, sites: seq<PatchSite>, i: nat, ok: bool)
    requires i < |sites| && Progress(closed, bytes, prot, before, base, image, sites, 0, i)
    requires Wrote(bytes, prot, bytes', prot', sites[i])
    requires ok ==> Shows(bytes', image, sites[i]) && (closed ==> PagesKept(prot', base, sites[i]))
    ensures ok ==> Progress(closed, bytes', prot', before, base, image, sites, 0, i + 1)
    ensures Progress(closed, bytes', prot', before, base, image, sites, i + 1, i + 1)
  {
    BeyondMore(bytes, before, sites, i, i + 1);
    PagesBeyondMore(prot, base, sites, i, i + 1);
    WriteKeepsBeyond(bytes, bytes', before, sites, i, i + 1);
    WriteKeepsPagesBeyond(prot, prot', base, sites, i, i + 1);
    if ok {
      ProgressKept(closed, bytes, prot, bytes', prot', before, base, image, sites, 0, i, i);
    }
  }

  lemma ProgressDown(closed: bool, bytes: seq<byte>, prot: seq<nat>, bytes': seq<byte>, prot': seq<nat>,
                     before: seq<byte>, base: seq<nat>, image: seq<byte>, sites: seq<PatchSite>,
                     i: nat, n: nat, ok: bool)
    requires i < n <= |sites| && Progress(closed, bytes, prot, before, base, image, sites, if ok then i + 1 else n, n)
    requires Wrote(bytes, prot, bytes', prot', sites[i])
    requires ok ==> Shows(bytes', image, sites[i]) && (closed ==> PagesKept(prot', base, sites[i]))
    ensures Progress(closed, bytes', prot', before, base, image, sites, if ok then i else n, n)
  {
    WriteKeepsBeyond(bytes, bytes', before, sites, i, n);
    WriteKeepsPagesBeyond(prot, prot', base, sites, i, n);
    if ok {
      ProgressKept(closed, bytes, prot, bytes', prot', before, base, image, sites, i + 1, n, i);
    }
  }

  /** While every write so far succeeded, the next site's page still has its own protection. */
  lemma FirstPage(platform: Platform, bytes: seq<byte>, prot: seq<nat>, before: seq<byte>, base: seq<nat>,
                  image: seq<byte>, sites: seq<PatchSite>, i: nat)
    requires i < |sites| && Progress(true, bytes, prot, before, base, image, sites, 0, i)
    requires platform == Windows && ClosedAt(platform, base, sites[i]) && sites[i].addr / PAGE < |base|
    ensures PageAt(prot, sites[i].addr) == Some(sites[i].protection)
  {
    var page := sites[i].addr / PAGE;
    if !NoPage(sites, i, page) {
      var j :| 0 <= j < i && PageOf(sites[j], page);
      assert PagesKept(prot, base, sites[j]);
    }
  }

  /** The write loop, up to the first failure. */
  method WriteAll(platform: Platform, os: Memory, sites: seq<PatchSite>, on: bool,
                  ghost snapshot: seq<byte>, ghost base: seq<nat>, ghost closed: bool) returns (failed: Option<nat>)
    requires os.Valid() && SitesOf(snapshot, sites) && |os.bytes| == |snapshot|
    requires os.prot == base && (closed ==> Closed(platform, base, sites))
    modifies os
    ensures os.Valid() && |os.bytes| == |snapshot| && (platform == Linux ==> os.prot == base)
    ensures failed.None? ==>
      Progress(closed, os.bytes, os.prot, old(os.bytes), base, Picture(snapshot, on), sites, 0, |sites|)
    ensures failed.Some? ==> failed.value < |sites| && (closed ==> os.faulty)
    ensures failed.Some? ==> Progress(closed, os.bytes, os.prot, old(os.bytes), base, Picture(snapshot, on), sites,
                                      failed.value + 1, failed.value + 1)
  {
    ghost var before := os.bytes;
    for i := 0 to |sites|
      invariant os.Valid() && |os.bytes| == |snapshot| && |os.prot| == |base| && (platform == Linux ==> os.prot == base)
      invariant Progress(closed, os.bytes, os.prot, before, base, Picture(snapshot, on), sites, 0, i)
    {
      ghost var (bytes, prot) := (os.bytes, os.prot);
      assert SiteOf(snapshot, sites[i]) && (closed ==> ClosedAt(platform, base, sites[i]));
      if closed && platform == Windows {
        FirstPage(platform, os.bytes, os.prot, before, base, Picture(snapshot, on), sites, i);
      }
      var ok := WriteSite(platform, os, sites[i], on, false, snapshot, base);
      ProgressUp(closed, bytes, prot, os.bytes, os.prot, before, base, Picture(snapshot, on), sites, i, ok);
      if !ok {
        return Some(i);
      }
    }
    return None;
  }

  /** On Windows an empty window is never written, so it can be neither applied nor rolled back. */
  ghost predicate Unwritable(platform: Platform, sites: seq<PatchSite>) {
    platform == Windows && exists i :: 0 <= i < |sites| && sites[i].original == []
  }

  /** The rollback of the first `n` sites, last one first; a failure does not stop it. */
  method RollBack(platform: Platform, os: Memory, sites: seq<PatchSite>, n: nat, on: bool,
                  ghost snapshot: seq<byte>, ghost base: seq<nat>, ghost before: seq<byte>, ghost closed: bool)
      returns (clean: bool)
    requires os.Valid() && SitesOf(snapshot, sites) && |os.bytes| == |snapshot| && n <= |sites|
    requires (closed ==> Closed(platform, base, sites)) && (platform == Linux ==> os.prot == base)
    requires Progress(closed, os.bytes, os.prot, before, base, Picture(snapshot, !on), sites, n, n)
    modifies os
    ensures os.Valid() && |os.bytes| == |snapshot| && (platform == Linux ==> os.prot == base)
    ensures Progress(closed, os.bytes, os.prot, before, base, Picture(snapshot, !on), sites, if clean then 0 else n, n)
    ensures !clean ==> os.faulty || Unwritable(platform, sites)
  {
    clean := true;
    var i := n;
    while i > 0
      invariant 0 <= i <= n && os.Valid() && |os.bytes| == |snapshot| && (platform == Linux ==> os.prot == base)
      invariant Progress(closed, os.bytes, os.prot, before, base, Picture(snapshot, !on), sites,
                         if clean then i else n, n)
      invariant !clean ==> os.faulty || Unwritable(platform, sites)
    {
      i := i - 1;
      ghost var (bytes, prot) := (os.bytes, os.prot);
      assert SiteOf(snapshot, sites[i]) && (closed ==> ClosedAt(platform, base, sites[i]));
      var ok := WriteSite(platform, os, sites[i], !on, true, snapshot, base);
      clean := clean && ok;
      ProgressDown(closed, bytes, prot, os.bytes, os.prot, before, base, Picture(snapshot, !on), sites, i, n, clean);
    }
  }

  datatype ApplyResult = Applied | Refused | RolledBack | RollbackFailed

  /** All sites or none: a failure reported as rolled back leaves every byte as it was, whatever the
      failed write did and however the windows overlap; and every page protection, if the pages of
      each window had the protection found at discovery. */
  method Apply(platform: Platform, os: Memory, sites: seq<PatchSite>, on: bool, ghost snapshot: seq<byte>)
      returns (r: ApplyResult)
    requires os.Valid() && SitesOf(snapshot, sites) && |os.bytes| == |snapshot|
    modifies os
    ensures os.Valid() && |os.bytes| == |snapshot|
    ensures SameBeyond(os.bytes, old(os.bytes), sites, |sites|) && PagesBeyond(os.prot, old(os.prot), sites, |sites|)
    ensures r.Applied? ==> AllShow(os.bytes, Picture(snapshot, on), sites, 0, |sites|)
    ensures !r.Refused? ==> AllShow(old(os.bytes), Picture(snapshot, !on), sites, 0, |sites|)
    ensures !os.faulty && Closed(platform, old(os.prot), sites) ==>
      (r == if AllShow(old(os.bytes), Picture(snapshot, !on), sites, 0, |sites|) then Applied else Refused)
    ensures r.Refused? || r.RolledBack? ==> os.bytes == old(os.bytes)
    ensures r.RollbackFailed? ==> os.faulty || Unwritable(platform, sites)
    ensures Closed(platform, old(os.prot), sites) && !r.RollbackFailed? ==> os.prot == old(os.prot)
  {
    ghost var (base, before) := (os.prot, os.bytes);
    ghost var closed := Closed(platform, base, sites);
    var ours := os.Call();
    var stopped := SuspendOthers(os);
    if !ours || !stopped {
      return Refused;
    }
    var expected := CheckSites(platform, os, sites, on, snapshot);
    if !expected {
      return Refused;
    }
    assert AllShow(before, Picture(snapshot, !on), sites, 0, |sites|);
    var failed := WriteAll(platform, os, sites, on, snapshot, base, closed);
    if failed.None? {
      if closed {
        AllPagesBack(os.prot, base, sites, |sites|);
      }
      return Applied;
    }
    var n := failed.value + 1;
    var clean := RollBack(platform, os, sites, n, on, snapshot, base, before, closed);
    BeyondMore(os.bytes, before, sites, n, |sites|);
    PagesBeyondMore(os.prot, base, sites, n, |sites|);
    if !clean {
      return RollbackFailed;
    }
    AllBack(os.bytes, before, Picture(snapshot, !on), sites, n);
    if closed {
      AllPagesBack(os.prot, base, sites, n);
    }
    return RolledBack;
  }

  method CutSite(os: Memory, addr: nat, len: nat) returns (s: PatchSite)
    requires os.Valid() && addr + len <= |os.bytes|
    ensures SiteOf(os.bytes, s) && s.addr == addr && |s.original| == len
  {
    var original := os.bytes[addr..addr + len];
    var page := PageAt(os.prot, addr);
    s := PatchSite(addr, original, Nops(|original|), if page.Some? then page.value else 0);
  }

  /** `Patcher::discover`: one site per signature, at its only match; no site list unless every
      signature is well formed and matches once. */
  method Discover(os: Memory, base: nat, size: nat, sigs: seq<Sig>) returns (r: Option<seq<PatchSite>>)
    requires os.Valid() && base + size <= |os.bytes|
    ensures r.Some? ==> |r.value| == |sigs| && SitesOf(os.bytes, r.value)
    ensures r.Some? ==> forall i | 0 <= i < |sigs| ::
      && |r.value[i].original| == sigs[i].len && base + sigs[i].at <= r.value[i].addr
      && MatchesOnlyAt(sigs[i], os.bytes[base..base + size], r.value[i].addr - sigs[i].at - base)
    ensures r.None? ==> os.faulty || exists i :: 0 <= i < |sigs| && !MatchesOnce(sigs[i], os.bytes[base..base + size])
  {
    var readable := os.Call();
    if !readable {
      return None;
    }
    var found := ScanTable(sigs, os.bytes[base..base + size]);
    if !found.Found? {
      return None;
    }
    var sites := [];
    for i := 0 to |sigs|
      invariant |sites| == i && SitesOf(os.bytes, sites)
      invariant forall j | 0 <= j < i ::
        && |sites[j].original| == sigs[j].len && sites[j].addr == base + found.hits[j].at + sigs[j].at
    {
      readable := os.Call();
      if !readable {
        return None;
      }
      var hit := found.hits[i];
      var site := CutSite(os, base + hit.at + sigs[hit.index].at, sigs[hit.index].len);
      sites := sites + [site];
    }
    return Some(sites);
  }

  /** The controller's record of what it did to the target. */
  class Patcher {
    const platform: Platform
    const os: Memory
    const sites: seq<PatchSite>
    var enabled: bool
    ghost const snapshot: seq<byte>
    ghost var broken: bool

    /** Unless a rollback failed and no toggle succeeded since, the flag says what memory is: the
        snapshot, or the snapshot with every window turned into no-operations. */
    ghost predicate Valid()
      reads this, os
    {
      && os.Valid() && SitesOf(snapshot, sites) && |os.bytes| == |snapshot|
      && SameBeyond(os.bytes, snapshot, sites, |sites|)
      && (!broken && !enabled ==> os.bytes == snapshot)
      && (!broken && enabled ==> AllShow(os.bytes, Nops(|snapshot|), sites, 0, |sites|))
    }

    constructor (platform: Platform, os: Memory, sites: seq<PatchSite>)
      requires os.Valid() && SitesOf(os.bytes, sites)
      ensures Valid() && !enabled && !broken && this.os == os && snapshot == os.bytes
    {
      this.platform, this.os, this.sites := platform, os, sites;
      enabled, snapshot, broken := false, os.bytes, false;
    }

    /** `enable` and `disable`, after any history; a toggle that succeeds makes up for a rollback
        that failed. */
    method Toggle(on: bool) returns (r: ApplyResult)
      requires Valid()
      modifies this, os
      ensures Valid() && (broken <==> r.RollbackFailed? || (old(broken) && !r.Applied?))
      ensures !os.faulty && Closed(platform, old(os.prot), sites) && !old(broken) && on != old(enabled) ==> r.Applied?
      ensures enabled == if r.Applied? then on else old(enabled)
      ensures r.Refused? || r.RolledBack? ==> os.bytes == old(os.bytes)
      ensures Closed(platform, old(os.prot), sites) && !r.RollbackFailed? ==> os.prot == old(os.prot)
      ensures PagesBeyond(os.prot, old(os.prot), sites, |sites|)
    {
      ghost var before := os.bytes;
      r := Apply(platform, os, sites, on, snapshot);
      broken := r.RollbackFailed? || (broken && !r.Applied?);
      assert SameBeyond(os.bytes, snapshot, sites, |sites|);
      if r.Applied? {
        if !on {
          AllBack(os.bytes, snapshot, snapshot, sites, |sites|);
        }
        enabled := on;
      }
    }
  }

}
