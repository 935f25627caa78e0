/** Finding virtual tables in a Windows module by run-time type information. */
module PeVtables {
  import opened Bytes
  import opened HitLists
  import opened PatternSearch
  import opened ChunkedScan
  import opened NeedleSearch

  const U64_MAX: nat := 0xffff_ffff_ffff_ffff
  const SLOT: nat := 8
  const LOCATOR: nat := 24

  datatype Access = Code | Rodata | Data

  datatype Section = Section(rva: nat, virtualSize: nat, raw: nat, rawSize: nat, exec: bool, read: bool, write: bool)

  datatype Image = Image(data: seq<byte>, base: nat, size: nat, sections: seq<Section>)

  /** What opening the file has checked. */
  predicate Opened(m: Image) {
    && m.base <= U64_MAX
    && forall i | 0 <= i < |m.sections| :: m.sections[i].rawSize > 0 ==>
      m.sections[i].raw + m.sections[i].rawSize <= |m.data|
  }

  predicate Wanted(access: Access, s: Section) {
    match access
    case Code => s.exec
    case Rodata => s.read && !s.exec && !s.write
    case Data => s.write
  }

  function Min(a: nat, b: nat): nat { if a <= b then a else b }

  function Max(a: nat, b: nat): nat { if a <= b then b else a }

  /** The size that the readers call file-backed. */
  function Backed(s: Section): (n: nat)
    ensures n == s.rawSize
  {
    Min(s.rawSize, Max(s.virtualSize, s.rawSize))
  }

  function SectionRegion(s: Section): Region {
    Region(s.rva, s.raw, Backed(s))
  }

  /** The regions of the wanted sections among the first `n`. */
  function RegionsOf(sections: seq<Section>, access: Access, n: nat): seq<Region>
    requires n <= |sections|
  {
    if n == 0 then []
    else
      RegionsOf(sections, access, n - 1)
      + if Wanted(access, sections[n - 1]) then [SectionRegion(sections[n - 1])] else []
  }

  function Regions(m: Image, access: Access): seq<Region> {
    RegionsOf(m.sections, access, |m.sections|)
  }

  lemma {:induction false} RegionsInFile(m: Image, access: Access, n: nat)
    requires Opened(m) && n <= |m.sections|
    ensures AllInFile(|m.data|, RegionsOf(m.sections, access, n))
  {
    if n > 0 {
      RegionsInFile(m, access, n - 1);
    }
  }

  // ---- addresses ----

  function FirstRaw(sections: seq<Section>, n: nat): Option<nat>
    requires n <= |sections|
  {
    if n == 0 then None
    else
      var (rest, raw) := (FirstRaw(sections, n - 1), sections[n - 1].raw);
      if raw == 0 then rest else if rest.None? || raw < rest.value then Some(raw) else rest
  }

  function SectionOffset(sections: seq<Section>, rva: nat, i: nat): Option<nat>
    requires i <= |sections|
    decreases |sections| - i
  {
    if i == |sections| then None
    else
      var s := sections[i];
      if s.rva <= rva < s.rva + Backed(s) then Some(s.raw + (rva - s.rva)) else SectionOffset(sections, rva, i + 1)
  }

  /** Header addresses map directly before the first section. */
  function RvaToOffset(m: Image, rva: nat): Option<nat> {
    var first := FirstRaw(m.sections, |m.sections|);
    if first.None? then None
    else if rva < first.value && rva < |m.data| then Some(rva)
    else SectionOffset(m.sections, rva, 0)
  }

  function PointerRva(m: Image, rva: nat): Option<nat> {
    var off := RvaToOffset(m, rva);
    if off.None? then None else Rd(m.data, off.value, 8)
  }

  function VaToRva(m: Image, va: nat): Option<nat> {
    if m.base <= va && va - m.base < m.size then Some(va - m.base) else None
  }

  predicate IsExec(m: Image, rva: nat) {
    exists i :: 0 <= i < |m.sections| && ExecAt(m.sections[i], rva)
  }

  predicate ExecAt(s: Section, rva: nat) {
    s.exec && s.rva <= rva < s.rva + s.virtualSize
  }

  /** Virtual function `index` of a table: the word there points to module code. */
  function Vfn(m: Image, vtable: nat, index: nat): Option<nat> {
    var va := PointerRva(m, vtable + index * SLOT);
    var rva := if va.None? then None else VaToRva(m, va.value);
    if rva.Some? && IsExec(m, rva.value) then rva else None
  }

  // ---- what counts as a type descriptor, a locator and a table ----

  ghost predicate StandsAt(m: Image, access: Access, needle: seq<byte>, rva: nat)
    requires Opened(m) && needle != []
  {
    RegionsInFile(m, access, |m.sections|);
    Stands(needle, m.data, Regions(m, access), rva)
  }

  /** The decorated name, with its final zero, stands sixteen bytes on. */
  ghost predicate IsDescriptor(m: Image, name: seq<byte>, td: nat)
    requires Opened(m)
  {
    StandsAt(m, Rodata, name + [0], td + 16) || StandsAt(m, Data, name + [0], td + 16)
  }

  function U32(data: seq<byte>, at: nat): nat
    requires at + 4 <= |data|
  {
    Rd(data, at, 4).value
  }

  datatype Locator = Locator(rva: nat, objectOffset: nat)

  /** A complete object locator: aligned from the start of its section, signature one, a type
      descriptor of the class, and its own address. */
  predicate LocatorIn(data: seq<byte>, r: Region, tds: seq<nat>, l: Locator)
    requires InFile(|data|, r)
  {
    && r.base <= l.rva && (l.rva - r.base) % 4 == 0 && l.rva - r.base + LOCATOR <= r.size
    && LocatorAt(data, r.raw + (l.rva - r.base), tds, l)
  }

  predicate LocatorAt(data: seq<byte>, at: nat, tds: seq<nat>, l: Locator)
    requires at + LOCATOR <= |data|
  {
    && U32(data, at) == 1 && l.objectOffset == U32(data, at + 4)
    && U32(data, at + 12) in tds && U32(data, at + 20) == l.rva
  }

  ghost predicate IsLocator(data: seq<byte>, regions: seq<Region>, tds: seq<nat>, l: Locator)
    requires AllInFile(|data|, regions)
  {
    exists i :: 0 <= i < |regions| && LocatorIn(data, regions[i], tds, l)
  }

  // ---- the locator scan ----

  lemma WindowRd(data: seq<byte>, lo: nat, hi: nat, at: nat, w: nat)
    requires lo <= hi <= |data| && lo + at + w <= hi
    ensures Rd(data[lo..hi], at, w) == Rd(data, lo + at, w)
  {
    var (a, b) := (data[lo..hi][at..at + w], data[lo + at..lo + at + w]);
    forall k | 0 <= k < w ensures a[k] == b[k] {
      assert a[k] == data[lo..hi][at + k];
    }
    assert a == b;
  }

  /** The locators of one chunk, at offsets that are multiples of four from its start. */
  ghost predicate ChunkLocator(data: seq<byte>, c: Chunk, tds: seq<nat>, l: Locator)
    requires c.hi <= |data|
  {
    && c.base <= l.rva && (l.rva - c.base) % 4 == 0 && c.lo + (l.rva - c.base) + LOCATOR <= c.hi
    && LocatorAt(data, c.lo + (l.rva - c.base), tds, l)
  }

  method ReadLocator(buf: seq<byte>, i: nat, rva: nat, tds: seq<nat>) returns (l: Option<Locator>)
    requires i + LOCATOR <= |buf|
    ensures l.Some? ==> l.value.rva == rva && LocatorAt(buf, i, tds, l.value)
    ensures l.None? ==> !LocatorAt(buf, i, tds, Locator(rva, U32(buf, i + 4)))
  {
    if Rd(buf, i, 4) != Some(1) {
      return None;
    }
    var (td, self) := (Rd(buf, i + 12, 4), Rd(buf, i + 20, 4));
    if td.Some? && td.value in tds && self == Some(rva) {
      return Some(Locator(rva, Rd(buf, i + 4, 4).value));
    }
    return None;
  }

  lemma WindowLocator(data: seq<byte>, lo: nat, hi: nat, at: nat, tds: seq<nat>, l: Locator)
    requires lo <= hi <= |data| && lo + at + LOCATOR <= hi
    ensures LocatorAt(data[lo..hi], at, tds, l) <==> LocatorAt(data, lo + at, tds, l)
  {
    WindowRd(data, lo, hi, at, 4);
    WindowRd(data, lo, hi, at + 4, 4);
    WindowRd(data, lo, hi, at + 12, 4);
    WindowRd(data, lo, hi, at + 20, 4);
  }

  /** One turn of the scan, which advances by four. */
  method ScanTurn(data: seq<byte>, c: Chunk, tds: seq<nat>, i: nat) returns (locators: seq<Locator>)
    requires c.lo <= c.hi <= |data| && c.lo + i + LOCATOR <= c.hi && i % 4 == 0
    ensures forall l :: l in locators <==> ChunkLocator(data, c, tds, l) && i <= l.rva - c.base < i + 4
  {
    var l := ReadLocator(data[c.lo..c.hi], i, c.base + i, tds);
    forall k: Locator | k.rva == c.base + i
      ensures LocatorAt(data[c.lo..c.hi], i, tds, k) <==> LocatorAt(data, c.lo + i, tds, k)
    {
      WindowLocator(data, c.lo, c.hi, i, tds, k);
    }
    locators := if l.Some? then [l.value] else [];
  }

  method ScanChunk(data: seq<byte>, c: Chunk, tds: seq<nat>) returns (locators: seq<Locator>)
    requires c.lo <= c.hi <= |data|
    ensures forall l :: l in locators <==> ChunkLocator(data, c, tds, l)
  {
    locators := [];
    var i := 0;
    while c.lo + i + 23 < c.hi
      invariant i % 4 == 0
      invariant forall l :: l in locators <==> ChunkLocator(data, c, tds, l) && l.rva - c.base < i
    {
      var more := ScanTurn(data, c, tds, i);
      locators := locators + more;
      i := i + 4;
    }
  }

  ghost predicate Scanned(data: seq<byte>, chunks: seq<Chunk>, tds: seq<nat>, l: Locator)
    requires forall c <- chunks :: c.hi <= |data|
  {
    exists j :: 0 <= j < |chunks| && ChunkLocator(data, chunks[j], tds, l)
  }

  /** A chunk starts a multiple of four into its region, unless it is too short for a locator. */
  lemma AlignedCut(end: nat, r: Region, c: Chunk, v: nat)
    requires c in Chunks(end, r, LOCATOR - 1, 0)
    requires c.base <= v && c.lo + (v - c.base) + LOCATOR <= c.hi
    ensures r.base <= v && v - r.base + LOCATOR <= r.size && c.lo + (v - c.base) == r.raw + (v - r.base)
    ensures (v - c.base) % 4 == 0 <==> (v - r.base) % 4 == 0
  {
    ChunksAreCuts(end, r, LOCATOR - 1, 0, c);
    StrideAligned(c.base - r.base);
  }

  /** One place in the file, seen from a chunk and from its region. */
  lemma SamePlace(data: seq<byte>, r: Region, c: Chunk, tds: seq<nat>, l: Locator)
    requires c.hi <= |data| && InFile(|data|, r)
    requires c.base <= l.rva && c.lo + (l.rva - c.base) + LOCATOR <= c.hi
    requires r.base <= l.rva && l.rva - r.base + LOCATOR <= r.size
    requires c.lo + (l.rva - c.base) == r.raw + (l.rva - r.base)
    requires (l.rva - c.base) % 4 == 0 <==> (l.rva - r.base) % 4 == 0
    ensures ChunkLocator(data, c, tds, l) <==> LocatorIn(data, r, tds, l)
  {
  }

  lemma ScannedIsLocator(data: seq<byte>, regions: seq<Region>, tds: seq<nat>, c: Chunk, l: Locator)
    requires AllInFile(|data|, regions) && c in AllChunks(|data|, regions, LOCATOR - 1)
    requires c.hi <= |data| && ChunkLocator(data, c, tds, l)
    ensures IsLocator(data, regions, tds, l)
  {
    var i := ScannedRegion(|data|, regions, LOCATOR - 1, |regions|, c);
    AlignedCut(|data|, regions[i], c, l.rva);
    SamePlace(data, regions[i], c, tds, l);
  }

  lemma LocatorIsScanned(data: seq<byte>, regions: seq<Region>, tds: seq<nat>, l: Locator) returns (c: Chunk)
    requires AllInFile(|data|, regions) && IsLocator(data, regions, tds, l)
    ensures c in AllChunks(|data|, regions, LOCATOR - 1)
    ensures c.hi <= |data| && ChunkLocator(data, c, tds, l)
  {
    var i :| 0 <= i < |regions| && LocatorIn(data, regions[i], tds, l);
    c := SeeingChunk(|data|, regions, LOCATOR - 1, i, l.rva, LOCATOR);
    AlignedCut(|data|, regions[i], c, l.rva);
    SamePlace(data, regions[i], c, tds, l);
  }

  /** Chunking loses no aligned locator, and adds none: the stride is a multiple of four. */
  lemma ChunkLocatorIff(data: seq<byte>, regions: seq<Region>, tds: seq<nat>, chunks: seq<Chunk>, l: Locator)
    requires AllInFile(|data|, regions) && chunks == AllChunks(|data|, regions, LOCATOR - 1)
    requires forall c <- chunks :: c.hi <= |data|
    ensures Scanned(data, chunks, tds, l) <==> IsLocator(data, regions, tds, l)
  {
    if Scanned(data, chunks, tds, l) {
      var j :| 0 <= j < |chunks| && ChunkLocator(data, chunks[j], tds, l);
      ScannedIsLocator(data, regions, tds, chunks[j], l);
    }
    if IsLocator(data, regions, tds, l) {
      var c := LocatorIsScanned(data, regions, tds, l);
      var j :| 0 <= j < |chunks| && chunks[j] == c;
    }
  }

  lemma StrideAligned(pos: nat)
    requires pos % CHUNK == 0
    ensures pos % 4 == 0
  {
    assert pos == CHUNK * (pos / CHUNK) == 4 * (0x4_0000 * (pos / CHUNK));
  }

  method FindLocators(data: seq<byte>, regions: seq<Region>, tds: seq<nat>) returns (locators: seq<Locator>)
    requires AllInFile(|data|, regions)
    ensures forall l :: l in locators <==> IsLocator(data, regions, tds, l)
  {
    locators := [];
    var chunks := Scan(|data|, regions, LOCATOR - 1);
    forall c | c in chunks
      ensures c.lo <= c.hi <= |data|
    {
      ChunksInFile(|data|, regions, LOCATOR - 1, c);
    }
    for i := 0 to |chunks|
      invariant forall l :: l in locators <==> exists j :: 0 <= j < i && ChunkLocator(data, chunks[j], tds, l)
    {
      var more := ScanChunk(data, chunks[i], tds);
      locators := locators + more;
    }
    forall l
      ensures l in locators <==> IsLocator(data, regions, tds, l)
    {
      ChunkLocatorIff(data, regions, tds, chunks, l);
    }
  }

  // ---- the tables ----

  datatype Vtable = Vtable(rva: nat, objectOffset: nat)

  function VtableBelow(): (Vtable, Vtable) -> bool {
    (a: Vtable, b: Vtable) => a.rva < b.rva || (a.rva == b.rva && a.objectOffset < b.objectOffset)
  }

  lemma VtableOrder()
    ensures StrictOrder(VtableBelow())
  {
    forall a: Vtable, b: Vtable | a.rva == b.rva && a.objectOffset == b.objectOffset
      ensures a == b
    {
    }
  }

  /** The eight bytes that point at a locator; the sum saturates. */
  function PointerTo(m: Image, l: Locator): (p: seq<byte>)
    ensures |p| == 8
  {
    LeBytes(Min(m.base + l.rva, U64_MAX), 8)
  }

  /** A table of this locator: the word before it points at the locator, its first word at code. */
  ghost predicate TableOf(m: Image, l: Locator, v: Vtable)
    requires Opened(m)
  {
    && v.objectOffset == l.objectOffset && v.rva >= SLOT
    && StandsAt(m, Rodata, PointerTo(m, l), v.rva - SLOT)
    && Vfn(m, v.rva, 0).Some?
  }

  method FindNeedle(m: Image, access: Access, needle: seq<byte>) returns (found: seq<nat>)
    requires Opened(m) && needle != []
    ensures forall v: nat :: v in found <==> StandsAt(m, access, needle, v)
  {
    RegionsInFile(m, access, |m.sections|);
    FoundExactly(needle, m.data, Regions(m, access));
    found := FindAllAddresses(Pe, m.data, Regions(m, access), needle);
  }

  /** Type descriptors of a decorated name. */
  method Descriptors(m: Image, name: seq<byte>) returns (tds: seq<nat>)
    requires Opened(m)
    ensures forall td: nat :: td in tds <==> IsDescriptor(m, name, td)
  {
    var names := FindNeedle(m, Rodata, name + [0]);
    var more := FindNeedle(m, Data, name + [0]);
    forall v: nat
      ensures v in SortedUnique(names + more, Below())
         <==> StandsAt(m, Rodata, name + [0], v) || StandsAt(m, Data, name + [0], v)
    {
      SortedUniqueMember(names + more, Below(), v);
    }
    names := SortedUnique(names + more, Below());
    tds := Back(names, 16);
    forall td: nat ensures td in tds <==> IsDescriptor(m, name, td) {
      BackMember(names, 16, td);
    }
  }

  /** The table whose pointer to the locator stands at `slot`, if its first word points to code. */
  method TableAt(m: Image, l: Locator, slot: nat) returns (t: seq<Vtable>)
    requires Opened(m)
    ensures forall v :: v in t <==> v == Vtable(slot + SLOT, l.objectOffset) && Vfn(m, v.rva, 0).Some?
  {
    var vtable := slot + SLOT;
    assert vtable + 0 * SLOT == vtable;
    var first := PointerRva(m, vtable);
    var rva := if first.None? then None else VaToRva(m, first.value);
    if rva.Some? && IsExec(m, rva.value) {
      return [Vtable(vtable, l.objectOffset)];
    }
    return [];
  }

  /** What the first slots that point at the locator give. */
  ghost predicate TableFrom(m: Image, l: Locator, slots: seq<nat>, v: Vtable)
    requires Opened(m)
  {
    v.objectOffset == l.objectOffset && v.rva >= SLOT && v.rva - SLOT in slots && Vfn(m, v.rva, 0).Some?
  }

  lemma OneMore(m: Image, l: Locator, slots: seq<nat>, slot: nat, v: Vtable)
    requires Opened(m)
    ensures TableFrom(m, l, slots + [slot], v) <==>
      TableFrom(m, l, slots, v) || (v == Vtable(slot + SLOT, l.objectOffset) && Vfn(m, v.rva, 0).Some?)
  {
  }

  method TablesOf(m: Image, l: Locator) returns (out: seq<Vtable>)
    requires Opened(m)
    ensures forall v :: v in out <==> TableOf(m, l, v)
  {
    out := [];
    var slots := FindNeedle(m, Rodata, PointerTo(m, l));
    for i := 0 to |slots|
      invariant forall v :: v in out <==> TableFrom(m, l, slots[..i], v)
    {
      var more := TableAt(m, l, slots[i]);
      forall v ensures v in out + more <==> TableFrom(m, l, slots[..i + 1], v) {
        assert slots[..i + 1] == slots[..i] + [slots[i]];
        OneMore(m, l, slots[..i], slots[i], v);
      }
      out := out + more;
    }
    assert slots[..|slots|] == slots;
  }

  /** A table of the named class, through some locator. */
  ghost predicate IsVtable(m: Image, name: seq<byte>, tds: seq<nat>, v: Vtable)
    requires Opened(m)
  {
    RegionsInFile(m, Rodata, |m.sections|);
    exists l :: IsLocator(m.data, Regions(m, Rodata), tds, l) && TableOf(m, l, v)
  }

  /** What the first locators give. */
  ghost predicate TableOfFirst(m: Image, locators: seq<Locator>, n: nat, v: Vtable)
    requires Opened(m) && n <= |locators|
  {
    exists j :: 0 <= j < n && TableOf(m, locators[j], v)
  }

  lemma TablesAreVtables(m: Image, name: seq<byte>, tds: seq<nat>, locators: seq<Locator>, v: Vtable)
    requires Opened(m)
    requires AllInFile(|m.data|, Regions(m, Rodata))
    requires forall l :: l in locators <==> IsLocator(m.data, Regions(m, Rodata), tds, l)
    ensures TableOfFirst(m, locators, |locators|, v) <==> IsVtable(m, name, tds, v)
  {
    if IsVtable(m, name, tds, v) {
      var l :| IsLocator(m.data, Regions(m, Rodata), tds, l) && TableOf(m, l, v);
      var j :| 0 <= j < |locators| && locators[j] == l;
    }
    if TableOfFirst(m, locators, |locators|, v) {
      var j :| 0 <= j < |locators| && TableOf(m, locators[j], v);
      assert locators[j] in locators;
    }
  }

  method Collect(m: Image, locators: seq<Locator>) returns (out: seq<Vtable>)
    requires Opened(m)
    ensures forall v :: v in out <==> TableOfFirst(m, locators, |locators|, v)
  {
    out := [];
    for i := 0 to |locators|
      invariant forall v :: v in out <==> TableOfFirst(m, locators, i, v)
    {
      var more := TablesOf(m, locators[i]);
      forall v
        ensures TableOfFirst(m, locators, i + 1, v) <==> TableOfFirst(m, locators, i, v) || TableOf(m, locators[i], v)
      {
      }
      out := out + more;
    }
  }

  /** Sound and complete: the result holds a table exactly when a locator of one of the class's
      descriptors has it; ascending, each once. */
  method Vtables(m: Image, name: seq<byte>) returns (out: seq<Vtable>, ghost tds: seq<nat>)
    requires Opened(m)
    ensures forall td: nat :: td in tds <==> IsDescriptor(m, name, td)
    ensures forall v :: v in out <==> IsVtable(m, name, tds, v)
    ensures Ascending(out, VtableBelow())
  {
    out := [];
    var descriptors := Descriptors(m, name);
    tds := descriptors;
    RegionsInFile(m, Rodata, |m.sections|);
    if descriptors == [] {
      return;
    }
    var locators := FindLocators(m.data, Regions(m, Rodata), descriptors);
    out := Collect(m, locators);
    forall v
      ensures v in SortedUnique(out, VtableBelow()) <==> IsVtable(m, name, tds, v)
    {
      SortedUniqueMember(out, VtableBelow(), v);
      TablesAreVtables(m, name, tds, locators, v);
    }
    VtableOrder();
    SortedUniqueAscending(out, VtableBelow());
    out := SortedUnique(out, VtableBelow());
  }
}
