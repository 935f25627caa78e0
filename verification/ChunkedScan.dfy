/** Scanning file regions in overlapping chunks, against searching each region whole. */
module ChunkedScan {
  import opened Bytes
  import opened HitLists

  const CHUNK: nat := 0x10_0000

  /** A stretch of the file: where it is mapped, where it lies, how long it is. */
  datatype Region = Region(base: nat, raw: nat, size: nat)

  /** What the visitor is shown: the file bytes `lo..hi`, the first of them mapped at `base`. */
  datatype Chunk = Chunk(base: nat, lo: nat, hi: nat)

  predicate InFile(end: nat, r: Region) {
    r.size > 0 ==> r.raw + r.size <= end
  }

  predicate AllInFile(end: nat, regions: seq<Region>) {
    forall i | 0 <= i < |regions| :: InFile(end, regions[i])
  }

  function CutLen(r: Region, overlap: nat, pos: nat): nat
    requires pos < r.size
  {
    if r.size - pos <= CHUNK + overlap then r.size - pos else CHUNK + overlap
  }

  function Cut(r: Region, pos: nat, len: nat): Chunk {
    Chunk(r.base + pos, r.raw + pos, r.raw + pos + len)
  }

  /** The chunks of one region from `pos` on, of a file of `end` bytes; a failed read ends the
      region. */
  function Chunks(end: nat, r: Region, overlap: nat, pos: nat): seq<Chunk>
    decreases r.size - pos
  {
    if pos >= r.size then [] else
      var len := CutLen(r, overlap, pos);
      if r.raw + pos + len > end then []
      else if len <= overlap then [Cut(r, pos, len)] else
        [Cut(r, pos, len)] + Chunks(end, r, overlap, pos + len - overlap)
  }

  /** The chunks of the first `n` regions. */
  function ChunksOf(end: nat, regions: seq<Region>, overlap: nat, n: nat): seq<Chunk>
    requires n <= |regions|
  {
    if n == 0 then [] else ChunksOf(end, regions, overlap, n - 1) + Chunks(end, regions[n - 1], overlap, 0)
  }

  function AllChunks(end: nat, regions: seq<Region>, overlap: nat): seq<Chunk> {
    ChunksOf(end, regions, overlap, |regions|)
  }

  /** One turn of the loop over a region: a failed read, the short tail, or a chunk and more. */
  lemma ChunksTurn(end: nat, r: Region, overlap: nat, pos: nat, visited: seq<Chunk>)
    requires pos < r.size
    ensures var len := CutLen(r, overlap, pos);
      visited + Chunks(end, r, overlap, pos) ==
        if r.raw + pos + len > end then visited
        else if len <= overlap then visited + [Cut(r, pos, len)]
        else (visited + [Cut(r, pos, len)]) + Chunks(end, r, overlap, pos + len - overlap)
  {
    var len := CutLen(r, overlap, pos);
    if r.raw + pos + len <= end && len > overlap {
      Assoc(visited, [Cut(r, pos, len)], Chunks(end, r, overlap, pos + len - overlap));
    }
  }

  /** The loop over one region, the same in both readers. */
  method ScanRegion(end: nat, r: Region, overlap: nat) returns (visited: seq<Chunk>)
    ensures visited == Chunks(end, r, overlap, 0)
  {
    visited := [];
    var pos := 0;
    while pos < r.size
      invariant Chunks(end, r, overlap, 0) == visited + Chunks(end, r, overlap, pos)
      decreases r.size - pos
    {
      var len := CutLen(r, overlap, pos);
      ChunksTurn(end, r, overlap, pos, visited);
      if r.raw + pos + len > end {
        return;
      }
      visited := visited + [Cut(r, pos, len)];
      if len <= overlap {
        return;
      }
      pos := pos + len - overlap;
    }
  }

  method Scan(end: nat, regions: seq<Region>, overlap: nat) returns (visited: seq<Chunk>)
    ensures visited == AllChunks(end, regions, overlap)
  {
    visited := [];
    for i := 0 to |regions|
      invariant visited == ChunksOf(end, regions, overlap, i)
    {
      var chunks := ScanRegion(end, regions[i], overlap);
      visited := visited + chunks;
    }
  }

  // ---- each start offset is seen, by a window of overlap + 1 bytes exactly once ----

  /** What the visitor finds, in the order in which it finds it. */
  function ChunkHits(hit: nat -> bool, w: nat, chunks: seq<Chunk>): seq<nat> {
    if chunks == [] then []
    else HitsIn(hit, w, chunks[0].lo, chunks[0].hi, chunks[0].base) + ChunkHits(hit, w, chunks[1..])
  }

  lemma ChunkHitsCons(hit: nat -> bool, w: nat, c: Chunk, rest: seq<Chunk>)
    ensures ChunkHits(hit, w, [c] + rest) == HitsIn(hit, w, c.lo, c.hi, c.base) + ChunkHits(hit, w, rest)
    ensures ChunkHits(hit, w, [c]) == HitsIn(hit, w, c.lo, c.hi, c.base)
  {
    assert ([c] + rest)[1..] == rest;
  }

  lemma ChunkJoins(hit: nat -> bool, w: nat, a: seq<Chunk>, c: Chunk, rest: seq<Chunk>, b: seq<Chunk>)
    requires a == [c] + rest && ChunkHits(hit, w, rest + b) == ChunkHits(hit, w, rest) + ChunkHits(hit, w, b)
    ensures ChunkHits(hit, w, a + b) == ChunkHits(hit, w, a) + ChunkHits(hit, w, b)
  {
    var (h, u, v) := (HitsIn(hit, w, c.lo, c.hi, c.base), ChunkHits(hit, w, rest), ChunkHits(hit, w, b));
    assert ChunkHits(hit, w, a + b) == h + (u + v) by {
      Assoc([c], rest, b);
      ChunkHitsCons(hit, w, c, rest + b);
    }
    assert ChunkHits(hit, w, a) == h + u by {
      ChunkHitsCons(hit, w, c, rest);
    }
    Assoc(h, u, v);
  }

  lemma {:induction false} ChunkHitsJoin(hit: nat -> bool, w: nat, a: seq<Chunk>, b: seq<Chunk>)
    ensures ChunkHits(hit, w, a + b) == ChunkHits(hit, w, a) + ChunkHits(hit, w, b)
  {
    if a == [] {
      assert a + b == b;
    } else {
      ChunkHitsJoin(hit, w, a[1..], b);
      ChunkJoins(hit, w, a, a[0], a[1..], b);
    }
  }

  lemma CutJoins(hit: nat -> bool, w: nat, r: Region, pos: nat, len: nat, rest: seq<Chunk>)
    requires 0 < w <= len && pos + len <= r.size
    requires ChunkHits(hit, w, rest)
          == HitsIn(hit, w, r.raw + pos + len - (w - 1), r.raw + r.size, r.base + pos + len - (w - 1))
    ensures ChunkHits(hit, w, [Cut(r, pos, len)] + rest)
         == HitsIn(hit, w, r.raw + pos, r.raw + r.size, r.base + pos)
  {
    ChunkHitsCons(hit, w, Cut(r, pos, len), rest);
    HitsInSplit(hit, w, r.raw + pos, r.raw + pos + len - (w - 1), r.raw + r.size, r.base + pos);
  }

  /** With overlap one less than the window the chunks share out the start offsets: every hit of
      the region is reported exactly once, in order. */
  lemma {:induction false} ScannedOnce(hit: nat -> bool, w: nat, end: nat, r: Region, pos: nat)
    requires 0 < w && InFile(end, r)
    ensures ChunkHits(hit, w, Chunks(end, r, w - 1, pos)) == HitsIn(hit, w, r.raw + pos, r.raw + r.size, r.base + pos)
    decreases r.size - pos
  {
    if pos < r.size {
      var len := CutLen(r, w - 1, pos);
      var c := Cut(r, pos, len);
      if len < w {
        ChunkHitsCons(hit, w, c, []);
      } else {
        var next := pos + len - (w - 1);
        ScannedOnce(hit, w, end, r, next);
        CutJoins(hit, w, r, pos, len, Chunks(end, r, w - 1, next));
      }
    }
  }

  /** The hits of the first `n` regions. */
  function RegionHits(hit: nat -> bool, w: nat, regions: seq<Region>, n: nat): seq<nat>
    requires n <= |regions|
  {
    if n == 0 then []
    else
      var r := regions[n - 1];
      RegionHits(hit, w, regions, n - 1) + HitsIn(hit, w, r.raw, r.raw + r.size, r.base)
  }

  lemma RegionScannedOnce(hit: nat -> bool, w: nat, end: nat, r: Region)
    requires 0 < w && InFile(end, r)
    ensures ChunkHits(hit, w, Chunks(end, r, w - 1, 0)) == HitsIn(hit, w, r.raw, r.raw + r.size, r.base)
  {
    ScannedOnce(hit, w, end, r, 0);
  }

  lemma HitsJoin(hit: nat -> bool, w: nat, all: seq<Chunk>, a: seq<Chunk>, b: seq<Chunk>,
                 hits: seq<nat>, u: seq<nat>, v: seq<nat>)
    requires all == a + b && hits == u + v
    requires ChunkHits(hit, w, a) == u && ChunkHits(hit, w, b) == v
    ensures ChunkHits(hit, w, all) == hits
  {
    ChunkHitsJoin(hit, w, a, b);
  }

  lemma {:induction false} AllScannedOnce(hit: nat -> bool, w: nat, end: nat, regions: seq<Region>, n: nat)
    requires 0 < w && n <= |regions| && AllInFile(end, regions)
    ensures ChunkHits(hit, w, ChunksOf(end, regions, w - 1, n)) == RegionHits(hit, w, regions, n)
  {
    if n == 0 {
      assert ChunksOf(end, regions, w - 1, n) == [];
    } else {
      var r := regions[n - 1];
      assert InFile(end, r);
      AllScannedOnce(hit, w, end, regions, n - 1);
      RegionScannedOnce(hit, w, end, r);
      HitsJoin(hit, w, ChunksOf(end, regions, w - 1, n),
               ChunksOf(end, regions, w - 1, n - 1), Chunks(end, r, w - 1, 0), RegionHits(hit, w, regions, n),
               RegionHits(hit, w, regions, n - 1), HitsIn(hit, w, r.raw, r.raw + r.size, r.base));
    }
  }

  /** Some region has a hit that is mapped at `v`. */
  ghost predicate Occurs(hit: nat -> bool, w: nat, regions: seq<Region>, v: nat) {
    exists i :: 0 <= i < |regions| && OccursIn(hit, w, regions[i], v)
  }

  predicate OccursIn(hit: nat -> bool, w: nat, r: Region, v: nat) {
    IsHit(hit, w, r.raw, r.raw + r.size, r.base, v)
  }

  lemma {:induction false} RegionHitsMember(hit: nat -> bool, w: nat, regions: seq<Region>, n: nat, v: nat)
    requires n <= |regions|
    ensures v in RegionHits(hit, w, regions, n) <==> exists i :: 0 <= i < n && OccursIn(hit, w, regions[i], v)
  {
    if n > 0 {
      var r := regions[n - 1];
      RegionHitsMember(hit, w, regions, n - 1, v);
      HitsInMember(hit, w, r.raw, r.raw + r.size, r.base, v);
    }
  }

  /** The sorted scan result holds each address of a hit once, and no other. */
  lemma ScanFindsAll(hit: nat -> bool, w: nat, end: nat, regions: seq<Region>)
    requires 0 < w && AllInFile(end, regions)
    ensures var found := SortedUnique(ChunkHits(hit, w, AllChunks(end, regions, w - 1)), Below());
      Increasing(found) && forall v: nat :: v in found <==> Occurs(hit, w, regions, v)
  {
    var hits := ChunkHits(hit, w, AllChunks(end, regions, w - 1));
    SortedUniqueAscending(hits, Below());
    AllScannedOnce(hit, w, end, regions, |regions|);
    forall v: nat
      ensures v in SortedUnique(hits, Below()) <==> Occurs(hit, w, regions, v)
    {
      SortedUniqueMember(hits, Below(), v);
      RegionHitsMember(hit, w, regions, |regions|, v);
    }
  }

  // ---- any overlap: a window no longer than overlap + 1 lies whole in some chunk ----

  /** A chunk starts at a multiple of the stride of its region, or it is the short tail. */
  predicate CutOf(r: Region, overlap: nat, c: Chunk) {
    && r.base <= c.base && c.lo == r.raw + (c.base - r.base) && c.lo <= c.hi <= r.raw + r.size
    && ((c.base - r.base) % CHUNK == 0 || c.hi - c.lo <= overlap)
  }

  lemma {:induction false} ChunksAreCuts(end: nat, r: Region, overlap: nat, pos: nat, c: Chunk)
    requires pos % CHUNK == 0 || r.size - pos <= overlap
    requires c in Chunks(end, r, overlap, pos)
    ensures CutOf(r, overlap, c)
    decreases r.size - pos
  {
    var len := CutLen(r, overlap, pos);
    if c != Cut(r, pos, len) {
      if len == CHUNK + overlap {
        assert (pos + CHUNK) % CHUNK == 0;
      }
      ChunksAreCuts(end, r, overlap, pos + len - overlap, c);
    }
  }

  /** The chunk in which the window of `w` bytes at `s` is seen. */
  lemma {:induction false} WindowSeen(end: nat, r: Region, overlap: nat, pos: nat, s: nat, w: nat)
      returns (c: Chunk)
    requires InFile(end, r) && pos <= s && 0 < w <= overlap + 1 && s + w <= r.size
    ensures c in Chunks(end, r, overlap, pos)
    ensures c.lo <= r.raw + s && r.raw + s + w <= c.hi
    decreases r.size - pos
  {
    var len := CutLen(r, overlap, pos);
    c := Cut(r, pos, len);
    if s + w > pos + len {
      c := WindowSeen(end, r, overlap, pos + len - overlap, s, w);
    }
  }

  lemma {:induction false} RegionScanned(end: nat, regions: seq<Region>, overlap: nat, n: nat, i: nat, c: Chunk)
    requires i < n <= |regions| && c in Chunks(end, regions[i], overlap, 0)
    ensures c in ChunksOf(end, regions, overlap, n)
  {
    var (a, b) := (ChunksOf(end, regions, overlap, n - 1), Chunks(end, regions[n - 1], overlap, 0));
    if i < n - 1 {
      RegionScanned(end, regions, overlap, n - 1, i, c);
      assert c in a;
    }
    assert c in a + b;
  }

  lemma {:induction false} ScannedRegion(end: nat, regions: seq<Region>, overlap: nat, n: nat, c: Chunk)
      returns (i: nat)
    requires n <= |regions| && c in ChunksOf(end, regions, overlap, n)
    ensures i < n && c in Chunks(end, regions[i], overlap, 0)
  {
    i := n - 1;
    if c !in Chunks(end, regions[i], overlap, 0) {
      i := ScannedRegion(end, regions, overlap, n - 1, c);
    }
  }

  /** A window inside a chunk is the window at the same address of its region. */
  lemma ChunkInRegion(end: nat, r: Region, overlap: nat, c: Chunk, v: nat, w: nat)
    requires c in Chunks(end, r, overlap, 0)
    requires c.base <= v && c.lo + (v - c.base) + w <= c.hi
    ensures r.base <= v && v - r.base + w <= r.size && c.lo + (v - c.base) == r.raw + (v - r.base)
  {
    ChunksAreCuts(end, r, overlap, 0, c);
  }

  /** The chunk in which the window at address `v` of a region is seen. */
  lemma SeeingChunk(end: nat, regions: seq<Region>, overlap: nat, i: nat, v: nat, w: nat) returns (c: Chunk)
    requires AllInFile(end, regions) && i < |regions| && 0 < w <= overlap + 1
    requires regions[i].base <= v && v - regions[i].base + w <= regions[i].size
    ensures c in AllChunks(end, regions, overlap) && c in Chunks(end, regions[i], overlap, 0)
    ensures c.base <= v && c.lo + (v - c.base) + w <= c.hi <= end
    ensures c.lo + (v - c.base) == regions[i].raw + (v - regions[i].base)
  {
    c := WindowSeen(end, regions[i], overlap, 0, v - regions[i].base, w);
    RegionScanned(end, regions, overlap, |regions|, i, c);
    ChunksAreCuts(end, regions[i], overlap, 0, c);
    CutsInFile(end, regions[i], overlap, 0, c);
  }

  ghost predicate ChunkHit(hit: nat -> bool, w: nat, chunks: seq<Chunk>, v: nat) {
    exists c :: c in chunks && HitIn(hit, w, c, v)
  }

  predicate HitIn(hit: nat -> bool, w: nat, c: Chunk, v: nat) {
    IsHit(hit, w, c.lo, c.hi, c.base, v)
  }

  lemma OccursInChunk(hit: nat -> bool, w: nat, end: nat, regions: seq<Region>, overlap: nat, v: nat)
    requires 0 < w <= overlap + 1 && AllInFile(end, regions) && Occurs(hit, w, regions, v)
    ensures ChunkHit(hit, w, AllChunks(end, regions, overlap), v)
  {
    var i :| 0 <= i < |regions| && OccursIn(hit, w, regions[i], v);
    var c := SeeingChunk(end, regions, overlap, i, v, w);
    assert HitIn(hit, w, c, v);
  }

  lemma ChunkHitOccurs(hit: nat -> bool, w: nat, end: nat, regions: seq<Region>, overlap: nat, v: nat)
    requires ChunkHit(hit, w, AllChunks(end, regions, overlap), v)
    ensures Occurs(hit, w, regions, v)
  {
    var c :| c in AllChunks(end, regions, overlap) && HitIn(hit, w, c, v);
    var i := ScannedRegion(end, regions, overlap, |regions|, c);
    ChunkInRegion(end, regions[i], overlap, c, v, w);
    assert OccursIn(hit, w, regions[i], v);
  }

  /** Chunked search equals whole search for every window that fits in the overlap. */
  lemma ChunkHitIffOccurs(hit: nat -> bool, w: nat, end: nat, regions: seq<Region>, overlap: nat, v: nat)
    requires 0 < w <= overlap + 1 && AllInFile(end, regions)
    ensures ChunkHit(hit, w, AllChunks(end, regions, overlap), v) <==> Occurs(hit, w, regions, v)
  {
    if Occurs(hit, w, regions, v) {
      OccursInChunk(hit, w, end, regions, overlap, v);
    }
    if ChunkHit(hit, w, AllChunks(end, regions, overlap), v) {
      ChunkHitOccurs(hit, w, end, regions, overlap, v);
    }
  }

  /** The chunks lie in the file. */
  lemma {:induction false} ChunksInFile(end: nat, regions: seq<Region>, overlap: nat, c: Chunk)
    requires c in AllChunks(end, regions, overlap)
    ensures c.lo <= c.hi <= end
  {
    var i := ScannedRegion(end, regions, overlap, |regions|, c);
    CutsInFile(end, regions[i], overlap, 0, c);
  }

  lemma {:induction false} CutsInFile(end: nat, r: Region, overlap: nat, pos: nat, c: Chunk)
    requires c in Chunks(end, r, overlap, pos)
    ensures c.lo <= c.hi <= end
    decreases r.size - pos
  {
    var len := CutLen(r, overlap, pos);
    if c != Cut(r, pos, len) {
      CutsInFile(end, r, overlap, pos + len - overlap, c);
    }
  }
}
