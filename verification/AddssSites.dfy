/** Decoding the `addss disp32(base), xmm0` instructions that add a view-punch angle. */
module AddssSites {
  import opened Bytes
  import opened HitLists
  import opened ChunkedScan

  /** Bytes that must be left in a chunk for a decode to be tried. */
  const WINDOW: nat := 12
  const OVERLAP: nat := 15

  /** The accepted displacements: `min` included, `max` not. */
  datatype Fields = Fields(min: nat, max: nat)

  const WINDOWS_FIELDS := Fields(0x500, 0x1000)
  const LINUX_FIELDS := Fields(0x1000, 0x1400)

  /** All that the proofs need of either range. */
  predicate Plausible(f: Fields) {
    0x100 <= f.min <= f.max <= 0x5800
  }

  datatype Addss = Addss(displacement: nat, length: nat)

  predicate IsRex(b: byte) {
    b / 16 == 4
  }

  /** The destination register is not xmm0. */
  predicate RexR(b: byte) {
    b / 4 % 2 == 1
  }

  /** A displacement of four bytes and register field zero. */
  predicate Disp32Xmm0(modrm: byte) {
    modrm / 64 == 2 && modrm / 8 % 8 == 0
  }

  predicate HasSib(modrm: byte) {
    modrm % 8 == 4
  }

  function Disp32(b: seq<byte>, at: nat): nat
    requires at + 4 <= |b|
  {
    var (b0: int, b1: int, b2: int, b3: int) := (b[at], b[at + 1], b[at + 2], b[at + 3]);
    b0 + 0x100 * b1 + 0x1_0000 * b2 + 0x100_0000 * b3
  }

  /** F3 [REX] 0F 58 modrm [SIB] disp32, tried at `at`. */
  function Decode(f: Fields, b: seq<byte>, at: nat): Option<Addss>
    requires at + WINDOW <= |b|
  {
    if b[at] != 0xf3 then None
    else if IsRex(b[at + 1]) && RexR(b[at + 1]) then None
    else
      var opcode := if IsRex(b[at + 1]) then at + 2 else at + 1;
      if b[opcode] != 0x0f || b[opcode + 1] != 0x58 then None
      else
        var modrm := b[opcode + 2];
        if !Disp32Xmm0(modrm) then None
        else
          var d := opcode + 3 + if HasSib(modrm) then 1 else 0;
          var displacement := Disp32(b, d);
          if f.min <= displacement < f.max then Some(Addss(displacement, d + 4 - at)) else None
  }

  lemma DispBytes(f: Fields, b: seq<byte>, at: nat)
    requires Plausible(f) && at + 4 <= |b| && f.min <= Disp32(b, at) < f.max
    ensures 0 < b[at + 1] < 0x58 && b[at + 2] == 0 && b[at + 3] == 0
  {
  }

  /** The bytes that follow an F3 cannot be a displacement tail: 0F 58 never fits there. */
  lemma NoStartInTail(f: Fields, b: seq<byte>, y: nat, tail: nat)
    requires Plausible(f) && y + WINDOW <= |b| && tail + 4 <= |b| && f.min <= Disp32(b, tail) < f.max
    requires y == tail - 1 || y == tail
    ensures Decode(f, b, y) == None
  {
    DispBytes(f, b, tail);
    if y == tail {
      assert !IsRex(b[y + 1]) ==> b[y + 2] == 0;
      assert IsRex(b[y + 1]) ==> b[y + 2] == 0;
    } else {
      assert b[y + 2] == b[tail + 1] && b[y + 3] == b[tail + 2];
    }
  }

  /** No accepted encoding starts inside another. */
  lemma SitesApart(f: Fields, b: seq<byte>, x: nat, y: nat)
    requires Plausible(f) && x < y && x + WINDOW <= |b| && y + WINDOW <= |b|
    requires Decode(f, b, x).Some? && Decode(f, b, y).Some?
    ensures x + Decode(f, b, x).value.length <= y
  {
    var opcode := if IsRex(b[x + 1]) then x + 2 else x + 1;
    var modrm := b[opcode + 2];
    var d := opcode + 3 + if HasSib(modrm) then 1 else 0;
    assert 0x80 <= modrm < 0x88;
    DispBytes(f, b, d);
    if y < d + 4 {
      assert b[y] == 0xf3;
      assert y != opcode && y != opcode + 1 && y != opcode + 2;
      assert y != d + 1 && y != d + 2 && y != d + 3;
      NoStartInTail(f, b, y, d);
      assert false;
    }
  }

  /** On either platform. */
  lemma PlatformSitesApart(f: Fields, b: seq<byte>, x: nat, y: nat)
    requires f == WINDOWS_FIELDS || f == LINUX_FIELDS
    requires x < y && x + WINDOW <= |b| && y + WINDOW <= |b| && Decode(f, b, x).Some? && Decode(f, b, y).Some?
    ensures Plausible(f) && x + Decode(f, b, x).value.length <= y
  {
    SitesApart(f, b, x, y);
  }

  // ---- scanning the code sections ----

  datatype Site = Site(rva: nat, displacement: nat, bytes: seq<byte>)

  /** What is decoded where, over a whole file. */
  type Decoder = nat -> Option<Addss>

  function DecoderOf(f: Fields, data: seq<byte>): Decoder {
    (at: nat) => if at + WINDOW <= |data| then Decode(f, data, at) else None
  }

  /** The site is decoded at a file offset, whose address it carries. */
  predicate SiteAt(dec: Decoder, data: seq<byte>, at: nat, s: Site) {
    && dec(at) == Some(Addss(s.displacement, |s.bytes|))
    && at + |s.bytes| <= |data| && s.bytes == data[at..at + |s.bytes|]
  }

  predicate ChunkSite(dec: Decoder, data: seq<byte>, c: Chunk, s: Site) {
    c.base <= s.rva && c.lo + (s.rva - c.base) + WINDOW <= c.hi && SiteAt(dec, data, c.lo + (s.rva - c.base), s)
  }

  predicate RegionSite(dec: Decoder, data: seq<byte>, r: Region, s: Site) {
    r.base <= s.rva && s.rva - r.base + WINDOW <= r.size && SiteAt(dec, data, r.raw + (s.rva - r.base), s)
  }

  ghost predicate IsSite(dec: Decoder, data: seq<byte>, regions: seq<Region>, s: Site) {
    exists i :: 0 <= i < |regions| && RegionSite(dec, data, regions[i], s)
  }

  lemma WindowDecode(f: Fields, data: seq<byte>, lo: nat, hi: nat, i: nat)
    requires lo <= hi <= |data| && lo + i + WINDOW <= hi
    ensures Decode(f, data[lo..hi], i) == Decode(f, data, lo + i)
  {
    var w := data[lo..hi];
    assert w[i] == data[lo + i] && w[i + 1] == data[lo + i + 1] && w[i + 2] == data[lo + i + 2];
    assert w[i + 3] == data[lo + i + 3] && w[i + 4] == data[lo + i + 4] && w[i + 5] == data[lo + i + 5];
    assert w[i + 6] == data[lo + i + 6] && w[i + 7] == data[lo + i + 7] && w[i + 8] == data[lo + i + 8];
    assert w[i + 9] == data[lo + i + 9];
  }

  lemma DecodedLength(f: Fields, b: seq<byte>, at: nat)
    requires at + WINDOW <= |b| && Decode(f, b, at).Some?
    ensures 8 <= Decode(f, b, at).value.length <= 10 && b[at] == 0xf3
  {
  }

  lemma DecodedBytes(f: Fields, data: seq<byte>, at: nat, s: Site)
    requires SiteAt(DecoderOf(f, data), data, at, s)
    ensures |s.bytes| > 0 && s.bytes[0] == 0xf3
  {
    DecodedLength(f, data, at);
    assert s.bytes[0] == data[at];
  }

  method TryDecode(f: Fields, data: seq<byte>, c: Chunk, i: nat) returns (found: Option<Addss>)
    requires c.lo <= c.hi <= |data| && c.lo + i + WINDOW <= c.hi
    ensures found == DecoderOf(f, data)(c.lo + i)
    ensures found.Some? ==> found.value.length <= WINDOW
  {
    WindowDecode(f, data, c.lo, c.hi, i);
    found := Decode(f, data[c.lo..c.hi], i);
    if found.Some? {
      DecodedLength(f, data, c.lo + i);
    }
  }

  method DecodeTurn(f: Fields, data: seq<byte>, c: Chunk, i: nat, ghost dec: Decoder) returns (sites: seq<Site>)
    requires c.lo <= c.hi <= |data| && c.lo + i + WINDOW <= c.hi && dec == DecoderOf(f, data)
    ensures forall s :: s in sites <==> ChunkSite(dec, data, c, s) && s.rva == c.base + i
  {
    var found := TryDecode(f, data, c, i);
    sites := SiteOf(found, data, c, i, dec);
  }

  method SiteOf(found: Option<Addss>, data: seq<byte>, c: Chunk, i: nat, ghost dec: Decoder) returns (sites: seq<Site>)
    requires c.lo <= c.hi <= |data| && c.lo + i + WINDOW <= c.hi
    requires found == dec(c.lo + i) && (found.Some? ==> found.value.length <= WINDOW)
    ensures forall s :: s in sites <==> ChunkSite(dec, data, c, s) && s.rva == c.base + i
  {
    if found.None? {
      return [];
    }
    var at := c.lo + i;
    return [Site(c.base + i, found.value.displacement, data[at..at + found.value.length])];
  }

  method DecodeChunk(f: Fields, data: seq<byte>, c: Chunk, ghost dec: Decoder) returns (sites: seq<Site>)
    requires c.lo <= c.hi <= |data| && dec == DecoderOf(f, data)
    ensures forall s :: s in sites <==> ChunkSite(dec, data, c, s)
  {
    sites := [];
    var i := 0;
    while c.lo + i + WINDOW <= c.hi
      invariant forall s :: s in sites <==> ChunkSite(dec, data, c, s) && s.rva < c.base + i
    {
      var more := DecodeTurn(f, data, c, i, dec);
      sites := sites + more;
      i := i + 1;
    }
  }

  /** Sorting by address; of several sites at one address one is kept. */
  function InsertSite(sites: seq<Site>, s: Site): seq<Site> {
    if sites == [] || s.rva < sites[0].rva then [s] + sites
    else if s.rva == sites[0].rva then sites
    else [sites[0]] + InsertSite(sites[1..], s)
  }

  function SortedSites(sites: seq<Site>): seq<Site> {
    if sites == [] then [] else InsertSite(SortedSites(sites[1..]), sites[0])
  }

  ghost predicate AscendingSites(sites: seq<Site>) {
    forall i, j | 0 <= i < j < |sites| :: sites[i].rva < sites[j].rva
  }

  ghost predicate HasRva(sites: seq<Site>, rva: nat) {
    exists s :: s in sites && s.rva == rva
  }

  lemma {:induction false} InsertSiteKeeps(sites: seq<Site>, s: Site)
    requires AscendingSites(sites)
    ensures AscendingSites(InsertSite(sites, s))
    ensures forall t :: t in InsertSite(sites, s) ==> t in sites || t == s
    ensures forall t :: t in sites ==> t in InsertSite(sites, s)
    ensures HasRva(InsertSite(sites, s), s.rva)
  {
    if sites == [] || s.rva < sites[0].rva {
      assert s in InsertSite(sites, s);
    } else if s.rva == sites[0].rva {
      assert sites[0] in sites;
    } else {
      InsertSiteKeeps(sites[1..], s);
      var t := InsertSite(sites[1..], s);
      assert sites == [sites[0]] + sites[1..];
      forall k | 0 <= k < |t| ensures sites[0].rva < t[k].rva {
        assert t[k] in t;
      }
      var h :| h in t && h.rva == s.rva;
      assert h in InsertSite(sites, s);
    }
  }

  lemma {:induction false} SortedSitesKeep(sites: seq<Site>)
    ensures AscendingSites(SortedSites(sites))
    ensures forall t :: t in SortedSites(sites) ==> t in sites
    ensures forall t :: t in sites ==> HasRva(SortedSites(sites), t.rva)
  {
    if sites != [] {
      var rest := SortedSites(sites[1..]);
      SortedSitesKeep(sites[1..]);
      InsertSiteKeeps(rest, sites[0]);
      forall t | t in sites
        ensures HasRva(SortedSites(sites), t.rva)
      {
        if t != sites[0] {
          assert t in sites[1..];
          var h :| h in rest && h.rva == t.rva;
          assert h in InsertSite(rest, sites[0]);
        }
      }
    }
  }

  lemma ChunkSiteIsSite(dec: Decoder, data: seq<byte>, regions: seq<Region>, c: Chunk, s: Site)
    requires c in AllChunks(|data|, regions, OVERLAP) && ChunkSite(dec, data, c, s)
    ensures IsSite(dec, data, regions, s)
  {
    var i := ScannedRegion(|data|, regions, OVERLAP, |regions|, c);
    ChunkInRegion(|data|, regions[i], OVERLAP, c, s.rva, WINDOW);
    assert RegionSite(dec, data, regions[i], s);
  }

  lemma SiteInChunk(dec: Decoder, data: seq<byte>, regions: seq<Region>, s: Site) returns (c: Chunk)
    requires AllInFile(|data|, regions) && IsSite(dec, data, regions, s)
    ensures c in AllChunks(|data|, regions, OVERLAP) && ChunkSite(dec, data, c, s)
  {
    var i :| 0 <= i < |regions| && RegionSite(dec, data, regions[i], s);
    c := SeeingChunk(|data|, regions, OVERLAP, i, s.rva, WINDOW);
  }

  /** Chunked decoding equals decoding each section whole. */
  lemma ChunkSiteIff(dec: Decoder, data: seq<byte>, regions: seq<Region>, chunks: seq<Chunk>, s: Site)
    requires AllInFile(|data|, regions) && chunks == AllChunks(|data|, regions, OVERLAP)
    ensures (exists j :: 0 <= j < |chunks| && ChunkSite(dec, data, chunks[j], s)) <==> IsSite(dec, data, regions, s)
  {
    if j :| 0 <= j < |chunks| && ChunkSite(dec, data, chunks[j], s) {
      ChunkSiteIsSite(dec, data, regions, chunks[j], s);
    }
    if IsSite(dec, data, regions, s) {
      var c := SiteInChunk(dec, data, regions, s);
      var j :| 0 <= j < |chunks| && chunks[j] == c;
    }
  }

  /** Every instruction of the code sections, in address order, once; nothing else. */
  method FindAddss(f: Fields, data: seq<byte>, regions: seq<Region>, ghost dec: Decoder) returns (sites: seq<Site>)
    requires AllInFile(|data|, regions) && dec == DecoderOf(f, data)
    ensures AscendingSites(sites)
    ensures forall s :: s in sites ==> IsSite(dec, data, regions, s)
    ensures forall s :: IsSite(dec, data, regions, s) ==> HasRva(sites, s.rva)
  {
    sites := [];
    var chunks := Scan(|data|, regions, OVERLAP);
    for i := 0 to |chunks|
      invariant forall s :: s in sites <==> exists j :: 0 <= j < i && ChunkSite(dec, data, chunks[j], s)
    {
      ChunksInFile(|data|, regions, OVERLAP, chunks[i]);
      var more := DecodeChunk(f, data, chunks[i], dec);
      sites := sites + more;
    }
    forall s
      ensures s in sites <==> IsSite(dec, data, regions, s)
    {
      ChunkSiteIff(dec, data, regions, chunks, s);
    }
    SortedSitesKeep(sites);
    sites := SortedSites(sites);
  }

  /** The address ranges of different sections do not meet. */
  ghost predicate Apart(regions: seq<Region>) {
    forall i, j | 0 <= i < j < |regions| ::
      regions[i].base + regions[i].size <= regions[j].base || regions[j].base + regions[j].size <= regions[i].base
  }

  ghost predicate DisjointSites(sites: seq<Site>) {
    forall i, j | 0 <= i < j < |sites| :: sites[i].rva + |sites[i].bytes| <= sites[j].rva
  }

  /** No decoded range starts inside another, and none leaves its window. */
  ghost predicate Separate(dec: Decoder) {
    && (forall x: nat, y: nat | x < y && dec(x).Some? && dec(y).Some? :: x + dec(x).value.length <= y)
    && (forall x: nat | dec(x).Some? :: dec(x).value.length <= WINDOW)
  }

  lemma DecoderSeparate(f: Fields, data: seq<byte>)
    requires Plausible(f)
    ensures Separate(DecoderOf(f, data))
  {
    var dec := DecoderOf(f, data);
    forall x: nat | dec(x).Some?
      ensures dec(x).value.length <= WINDOW
    {
      DecodedLength(f, data, x);
    }
    forall x: nat, y: nat | x < y && dec(x).Some? && dec(y).Some?
      ensures x + dec(x).value.length <= y
    {
      SitesApart(f, data, x, y);
    }
  }

  lemma SiteRegion(dec: Decoder, data: seq<byte>, regions: seq<Region>, s: Site) returns (i: nat)
    requires IsSite(dec, data, regions, s)
    ensures i < |regions| && RegionSite(dec, data, regions[i], s)
  {
    i :| 0 <= i < |regions| && RegionSite(dec, data, regions[i], s);
  }

  lemma OtherRegion(regions: seq<Region>, i: nat, j: nat)
    requires Apart(regions) && i < |regions| && j < |regions| && i != j
    ensures regions[i].base + regions[i].size <= regions[j].base || regions[j].base + regions[j].size <= regions[i].base
  {
    assert i < j || j < i;
  }

  lemma SameRegionApart(dec: Decoder, data: seq<byte>, r: Region, s: Site, t: Site)
    requires Separate(dec) && RegionSite(dec, data, r, s) && RegionSite(dec, data, r, t) && s.rva < t.rva
    ensures s.rva + |s.bytes| <= t.rva
  {
  }

  lemma OtherRegionsApart(dec: Decoder, data: seq<byte>, r: Region, q: Region, s: Site, t: Site)
    requires Separate(dec) && RegionSite(dec, data, r, s) && RegionSite(dec, data, q, t) && s.rva < t.rva
    requires r.base + r.size <= q.base || q.base + q.size <= r.base
    ensures s.rva + |s.bytes| <= t.rva
  {
  }

  lemma TwoSitesApart(dec: Decoder, data: seq<byte>, regions: seq<Region>, s: Site, t: Site)
    requires Separate(dec) && Apart(regions)
    requires IsSite(dec, data, regions, s) && IsSite(dec, data, regions, t) && s.rva < t.rva
    ensures s.rva + |s.bytes| <= t.rva
  {
    var i := SiteRegion(dec, data, regions, s);
    var j := SiteRegion(dec, data, regions, t);
    if i == j {
      SameRegionApart(dec, data, regions[i], s, t);
    } else {
      OtherRegion(regions, i, j);
      OtherRegionsApart(dec, data, regions[i], regions[j], s, t);
    }
  }

  /** Sites are pairwise disjoint byte ranges. */
  lemma FoundDisjoint(f: Fields, data: seq<byte>, regions: seq<Region>, sites: seq<Site>)
    requires Plausible(f) && Apart(regions) && AscendingSites(sites)
    requires forall s :: s in sites ==> IsSite(DecoderOf(f, data), data, regions, s)
    ensures DisjointSites(sites)
  {
    DecoderSeparate(f, data);
    forall i, j | 0 <= i < j < |sites|
      ensures sites[i].rva + |sites[i].bytes| <= sites[j].rva
    {
      assert sites[i] in sites && sites[j] in sites;
      TwoSitesApart(DecoderOf(f, data), data, regions, sites[i], sites[j]);
    }
  }

  /** One address belongs to one section, and holds one instruction. */
  lemma SameRva(dec: Decoder, data: seq<byte>, regions: seq<Region>, s: Site, t: Site)
    requires Apart(regions) && s.rva == t.rva
    requires IsSite(dec, data, regions, s) && IsSite(dec, data, regions, t)
    ensures s == t
  {
    var i := SiteRegion(dec, data, regions, s);
    var j := SiteRegion(dec, data, regions, t);
    if i == j {
      SameRegionSame(dec, data, regions[i], s, t);
    } else {
      OtherRegion(regions, i, j);
    }
  }

  lemma SameRegionSame(dec: Decoder, data: seq<byte>, r: Region, s: Site, t: Site)
    requires RegionSite(dec, data, r, s) && RegionSite(dec, data, r, t) && s.rva == t.rva
    ensures s == t
  {
  }

  /** With sections apart the result is exact: a site is found if and only if it is there. */
  lemma FoundExact(dec: Decoder, data: seq<byte>, regions: seq<Region>, sites: seq<Site>, s: Site)
    requires Apart(regions)
    requires forall t :: t in sites ==> IsSite(dec, data, regions, t)
    requires forall t :: IsSite(dec, data, regions, t) ==> HasRva(sites, t.rva)
    ensures s in sites <==> IsSite(dec, data, regions, s)
  {
    if IsSite(dec, data, regions, s) {
      var t :| t in sites && t.rva == s.rva;
      SameRva(dec, data, regions, s, t);
    }
  }
}
