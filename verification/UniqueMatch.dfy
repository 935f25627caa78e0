/** Resolving code by patterns that must point at one address only. */
module UniqueMatch {
  import opened Bytes
  import opened HitLists
  import opened PatternText
  import opened PatternSearch
  import opened ChunkedScan
  import opened NeedleSearch

  datatype Sighting = Sighting(rva: nat, bytes: seq<byte>)

  /** The addresses at which the first `n` patterns match in a chunk, in the order of the search. */
  function ChunkSights(patterns: seq<Pattern>, data: seq<byte>, c: Chunk, n: nat): seq<nat>
    requires n <= |patterns|
  {
    if n == 0 then []
    else
      var p := patterns[n - 1];
      ChunkSights(patterns, data, c, n - 1) + HitsIn(At(p, data), |p|, c.lo, c.hi, c.base)
  }

  function Sights(patterns: seq<Pattern>, data: seq<byte>, chunks: seq<Chunk>, n: nat): seq<nat>
    requires n <= |chunks|
  {
    Gather(SightsOf(patterns, data, chunks), n)
  }

  function SightsOf(patterns: seq<Pattern>, data: seq<byte>, chunks: seq<Chunk>): nat -> seq<nat> {
    (i: nat) => if i < |chunks| then ChunkSights(patterns, data, chunks[i], |patterns|) else []
  }

  /** What `found` and `ambiguous` say about the addresses seen. */
  ghost predicate Tracks(found: Option<Sighting>, ambiguous: bool, seen: seq<nat>) {
    && (found.Some? ==> found.value.rva in seen)
    && (found.None? ==> seen == [])
    && (!ambiguous && found.Some? ==> forall v <- seen :: v == found.value.rva)
    && (ambiguous ==> Two(seen))
  }

  ghost predicate Two(seen: seq<nat>) {
    exists v, w :: v in seen && w in seen && v != w
  }

  lemma TracksNext(found: Option<Sighting>, ambiguous: bool, seen: seq<nat>, s: Sighting)
    requires Tracks(found, ambiguous, seen)
    ensures found.Some? && found.value.rva != s.rva ==> Tracks(found, true, seen + [s.rva])
    ensures found.None? || found.value.rva == s.rva ==> Tracks(Some(s), ambiguous, seen + [s.rva])
  {
    var more := seen + [s.rva];
    if Two(seen) {
      var v, w :| v in seen && w in seen && v != w;
      assert v in more && w in more;
    }
    assert s.rva in more;
  }

  lemma TracksMore(found: Option<Sighting>, seen: seq<nat>, rest: seq<nat>)
    requires Tracks(found, true, seen)
    ensures Tracks(found, true, seen + rest)
  {
    var v, w :| v in seen && w in seen && v != w;
    assert v in seen + rest && w in seen + rest;
  }

  /** The bytes are those of the file at the place mapped at the address, and a match. */
  predicate CopyOf(p: Pattern, data: seq<byte>, r: Region, s: Sighting) {
    && r.base <= s.rva && s.rva - r.base + |p| <= r.size
    && var at := r.raw + (s.rva - r.base);
    && at + |p| <= |data| && s.bytes == data[at..at + |p|] && MatchesAt(p, s.bytes, 0)
  }

  ghost predicate IsCopy(patterns: seq<Pattern>, data: seq<byte>, regions: seq<Region>, s: Sighting) {
    exists p, r :: p in patterns && r in regions && CopyOf(p, data, r, s)
  }

  predicate Within(c: Chunk, r: Region) {
    r.base <= c.base && c.lo == r.raw + (c.base - r.base) && c.lo <= c.hi <= r.raw + r.size
  }

  ghost predicate CutFrom(regions: seq<Region>, c: Chunk) {
    exists r :: r in regions && Within(c, r)
  }

  lemma SameBytes(p: Pattern, data: seq<byte>, c: Chunk, r: Region, at: nat, s: Sighting)
    requires c.lo <= c.hi <= |data| && Within(c, r) && c.lo + at + |p| <= c.hi
    requires s == Sighting(c.base + at, data[c.lo..c.hi][at..at + |p|]) && MatchesAt(p, s.bytes, 0)
    ensures CopyOf(p, data, r, s)
  {
    assert r.raw + (s.rva - r.base) == c.lo + at;
    assert s.bytes == data[c.lo + at..c.lo + at + |p|];
  }

  lemma WindowIsCopy(patterns: seq<Pattern>, p: Pattern, data: seq<byte>, regions: seq<Region>, c: Chunk, at: nat)
    requires c.lo <= c.hi <= |data| && CutFrom(regions, c)
    requires p in patterns && MatchesAt(p, data[c.lo..c.hi], at)
    ensures IsCopy(patterns, data, regions, Sighting(c.base + at, data[c.lo..c.hi][at..at + |p|]))
  {
    var (buf, s) := (data[c.lo..c.hi], Sighting(c.base + at, data[c.lo..c.hi][at..at + |p|]));
    WindowMatches(p, buf, at, at + |p|, 0);
    var r :| r in regions && Within(c, r);
    SameBytes(p, data, c, r, at, s);
  }

  lemma ChunkCut(end: nat, regions: seq<Region>, overlap: nat, c: Chunk)
    requires c in AllChunks(end, regions, overlap)
    ensures CutFrom(regions, c)
  {
    var i := ScannedRegion(end, regions, overlap, |regions|, c);
    ChunksAreCuts(end, regions[i], overlap, 0, c);
    assert Within(c, regions[i]);
  }

  lemma {:induction false} AddressesIn(p: Pattern, buf: seq<byte>, lo: nat, base: nat)
    ensures |HitsIn(At(p, buf), |p|, lo, |buf|, base)| == |HitsIn(At(p, buf), |p|, lo, |buf|, lo)|
    ensures forall k | 0 <= k < |HitsIn(At(p, buf), |p|, lo, |buf|, lo)| ::
      HitsIn(At(p, buf), |p|, lo, |buf|, base)[k] == HitsIn(At(p, buf), |p|, lo, |buf|, lo)[k] - lo + base
    decreases |buf| - lo
  {
    if lo + |p| <= |buf| {
      AddressesIn(p, buf, lo + 1, base + 1);
    }
  }

  lemma HitsMatch(p: Pattern, buf: seq<byte>)
    ensures forall k | 0 <= k < |AllHits(p, buf)| :: MatchesAt(p, buf, AllHits(p, buf)[k])
  {
    var hits := AllHits(p, buf);
    AllHitsExactly(p, buf);
    forall k | 0 <= k < |hits| ensures MatchesAt(p, buf, hits[k]) {
      assert hits[k] in hits;
    }
  }

  /** The offsets found in a chunk's bytes, and their addresses. */
  lemma ChunkAddresses(p: Pattern, data: seq<byte>, c: Chunk)
    requires c.lo <= c.hi <= |data|
    ensures |HitsIn(At(p, data), |p|, c.lo, c.hi, c.base)| == |AllHits(p, data[c.lo..c.hi])|
    ensures forall k | 0 <= k < |AllHits(p, data[c.lo..c.hi])| ::
      && MatchesAt(p, data[c.lo..c.hi], AllHits(p, data[c.lo..c.hi])[k])
      && HitsIn(At(p, data), |p|, c.lo, c.hi, c.base)[k] == c.base + AllHits(p, data[c.lo..c.hi])[k]
  {
    var buf := data[c.lo..c.hi];
    var addresses := HitsIn(At(p, data), |p|, c.lo, c.hi, c.base);
    assert addresses == HitsIn(At(p, buf), |p|, 0, |buf|, c.base) by {
      WindowHits(p, data, c.lo, c.hi, c.base);
    }
    AddressesIn(p, buf, 0, c.base);
    HitsMatch(p, buf);
  }

  ghost predicate Sound(patterns: seq<Pattern>, data: seq<byte>, regions: seq<Region>, found: Option<Sighting>) {
    found.Some? ==> IsCopy(patterns, data, regions, found.value)
  }

  /** One match: the first is kept, an equal one replaces it, a different one is ambiguous. */
  method Note(patterns: seq<Pattern>, p: Pattern, data: seq<byte>, ghost regions: seq<Region>, c: Chunk, at: nat,
              found: Option<Sighting>, ambiguous: bool, ghost seen: seq<nat>)
      returns (found': Option<Sighting>, left: bool)
    requires c.lo <= c.hi <= |data| && CutFrom(regions, c)
    requires p in patterns && MatchesAt(p, data[c.lo..c.hi], at)
    requires Tracks(found, ambiguous, seen) && Sound(patterns, data, regions, found)
    ensures Tracks(found', ambiguous || left, seen + [c.base + at]) && Sound(patterns, data, regions, found')
  {
    var (rva, buf) := (c.base + at, data[c.lo..c.hi]);
    var s := Sighting(rva, buf[at..at + |p|]);
    WindowIsCopy(patterns, p, data, regions, c, at);
    TracksNext(found, ambiguous, seen, s);
    left := found.Some? && found.value.rva != rva;
    found' := if left then found else Some(s);
  }

  /** The search with one pattern in one chunk; the closure returns at the first disagreement. */
  method VisitHits(patterns: seq<Pattern>, p: Pattern, data: seq<byte>, ghost regions: seq<Region>, c: Chunk,
                   found: Option<Sighting>, ambiguous: bool, ghost seen: seq<nat>)
      returns (found': Option<Sighting>, ambiguous': bool, left: bool)
    requires c.lo <= c.hi <= |data| && CutFrom(regions, c) && p in patterns
    requires Tracks(found, ambiguous, seen) && Sound(patterns, data, regions, found)
    ensures Tracks(found', ambiguous', seen + HitsIn(At(p, data), |p|, c.lo, c.hi, c.base))
    ensures Sound(patterns, data, regions, found') && (left ==> ambiguous')
  {
    var hits := FindAll(p, data[c.lo..c.hi]);
    ChunkAddresses(p, data, c);
    found', ambiguous', left := VisitOffsets(patterns, p, data, regions, c, hits, found, ambiguous, seen,
                                             HitsIn(At(p, data), |p|, c.lo, c.hi, c.base));
  }

  method VisitOffsets(patterns: seq<Pattern>, p: Pattern, data: seq<byte>, ghost regions: seq<Region>, c: Chunk,
                      hits: seq<nat>, found: Option<Sighting>, ambiguous: bool,
                      ghost seen: seq<nat>, ghost all: seq<nat>)
      returns (found': Option<Sighting>, ambiguous': bool, left: bool)
    requires c.lo <= c.hi <= |data| && CutFrom(regions, c) && p in patterns && |all| == |hits|
    requires forall k | 0 <= k < |hits| :: MatchesAt(p, data[c.lo..c.hi], hits[k]) && all[k] == c.base + hits[k]
    requires Tracks(found, ambiguous, seen) && Sound(patterns, data, regions, found)
    ensures Tracks(found', ambiguous', seen + all)
    ensures Sound(patterns, data, regions, found') && (left ==> ambiguous')
  {
    found', ambiguous', left := found, ambiguous, false;
    ghost var sofar: seq<nat> := seen;
    for k := 0 to |hits|
      invariant Tracks(found', ambiguous', sofar) && Sound(patterns, data, regions, found')
      invariant sofar + all[k..] == seen + all
    {
      assert all[k..] == [all[k]] + all[k + 1..];
      Assoc(sofar, [all[k]], all[k + 1..]);
      found', left := Note(patterns, p, data, regions, c, hits[k], found', ambiguous', sofar);
      ambiguous' := ambiguous' || left;
      sofar := sofar + [c.base + hits[k]];
      if left {
        TracksMore(found', sofar, all[k + 1..]);
        return;
      }
    }
    assert all[|hits|..] == [] && sofar + [] == sofar;
  }

  method VisitChunk(patterns: seq<Pattern>, data: seq<byte>, ghost regions: seq<Region>, c: Chunk,
                    found: Option<Sighting>, ambiguous: bool, ghost seen: seq<nat>)
      returns (found': Option<Sighting>, ambiguous': bool)
    requires c.lo <= c.hi <= |data| && CutFrom(regions, c)
    requires Tracks(found, ambiguous, seen) && Sound(patterns, data, regions, found)
    ensures Tracks(found', ambiguous', seen + ChunkSights(patterns, data, c, |patterns|))
    ensures Sound(patterns, data, regions, found')
  {
    found', ambiguous' := found, ambiguous;
    assert seen + [] == seen;
    var i := 0;
    while i < |patterns|
      invariant i <= |patterns|
      invariant Tracks(found', ambiguous', seen + ChunkSights(patterns, data, c, i))
      invariant Sound(patterns, data, regions, found')
    {
      ghost var sofar := seen + ChunkSights(patterns, data, c, i);
      var left;
      found', ambiguous', left := VisitHits(patterns, patterns[i], data, regions, c, found', ambiguous', sofar);
      Assoc(seen, ChunkSights(patterns, data, c, i),
            HitsIn(At(patterns[i], data), |patterns[i]|, c.lo, c.hi, c.base));
      i := i + 1;
      if left {
        ghost var rest := RestSights(patterns, data, c, i);
        Assoc(seen, ChunkSights(patterns, data, c, i), rest);
        TracksMore(found', seen + ChunkSights(patterns, data, c, i), rest);
        return;
      }
    }
  }

  /** What a closure that returns after `n` patterns does not look at. */
  lemma {:induction false} RestSights(patterns: seq<Pattern>, data: seq<byte>, c: Chunk, n: nat)
      returns (rest: seq<nat>)
    requires n <= |patterns|
    ensures ChunkSights(patterns, data, c, |patterns|) == ChunkSights(patterns, data, c, n) + rest
    decreases |patterns| - n
  {
    rest := [];
    if n < |patterns| {
      var p := patterns[n];
      var later := RestSights(patterns, data, c, n + 1);
      rest := HitsIn(At(p, data), |p|, c.lo, c.hi, c.base) + later;
      Assoc(ChunkSights(patterns, data, c, n), HitsIn(At(p, data), |p|, c.lo, c.hi, c.base), later);
    }
  }

  // ---- the answer ----

  /** One of the patterns matches in the regions, where `v` is mapped. */
  ghost predicate Matches(patterns: seq<Pattern>, data: seq<byte>, regions: seq<Region>, v: nat) {
    exists k :: 0 <= k < |patterns| && Occurs(At(patterns[k], data), |patterns[k]|, regions, v)
  }

  lemma {:induction false} ChunkSightsMember(patterns: seq<Pattern>, data: seq<byte>, c: Chunk, n: nat, v: nat)
    requires n <= |patterns|
    ensures v in ChunkSights(patterns, data, c, n)
       <==> exists k :: 0 <= k < n && HitIn(At(patterns[k], data), |patterns[k]|, c, v)
  {
    if n > 0 {
      var p := patterns[n - 1];
      ChunkSightsMember(patterns, data, c, n - 1, v);
      HitsInMember(At(p, data), |p|, c.lo, c.hi, c.base, v);
    }
  }

  predicate SeenIn(patterns: seq<Pattern>, data: seq<byte>, c: Chunk, v: nat) {
    v in ChunkSights(patterns, data, c, |patterns|)
  }

  lemma SeenMatches(patterns: seq<Pattern>, data: seq<byte>, regions: seq<Region>, overlap: nat, c: Chunk, v: nat)
    requires AllInFile(|data|, regions) && forall p <- patterns :: |p| <= overlap + 1
    requires c in AllChunks(|data|, regions, overlap) && SeenIn(patterns, data, c, v)
    ensures Matches(patterns, data, regions, v)
  {
    ChunkSightsMember(patterns, data, c, |patterns|, v);
    var k :| 0 <= k < |patterns| && HitIn(At(patterns[k], data), |patterns[k]|, c, v);
    ChunkHitIffOccurs(At(patterns[k], data), |patterns[k]|, |data|, regions, overlap, v);
  }

  lemma MatchSeen(patterns: seq<Pattern>, data: seq<byte>, regions: seq<Region>, overlap: nat, v: nat)
      returns (c: Chunk)
    requires AllInFile(|data|, regions) && forall p <- patterns :: |p| <= overlap + 1
    requires Matches(patterns, data, regions, v)
    ensures c in AllChunks(|data|, regions, overlap) && SeenIn(patterns, data, c, v)
  {
    var k :| 0 <= k < |patterns| && Occurs(At(patterns[k], data), |patterns[k]|, regions, v);
    ChunkHitIffOccurs(At(patterns[k], data), |patterns[k]|, |data|, regions, overlap, v);
    c :| c in AllChunks(|data|, regions, overlap) && HitIn(At(patterns[k], data), |patterns[k]|, c, v);
    ChunkSightsMember(patterns, data, c, |patterns|, v);
  }

  /** The scan sees an address exactly when a pattern matches there, whatever chunk it falls in. */
  lemma SightsMatch(patterns: seq<Pattern>, data: seq<byte>, regions: seq<Region>, overlap: nat, chunks: seq<Chunk>,
                    v: nat)
    requires AllInFile(|data|, regions) && forall p <- patterns :: |p| <= overlap + 1
    requires chunks == AllChunks(|data|, regions, overlap)
    ensures v in Sights(patterns, data, chunks, |chunks|) <==> Matches(patterns, data, regions, v)
  {
    if v in Sights(patterns, data, chunks, |chunks|) {
      var j := Gathered(SightsOf(patterns, data, chunks), |chunks|, v);
      SeenMatches(patterns, data, regions, overlap, chunks[j], v);
    }
    if Matches(patterns, data, regions, v) {
      var c := MatchSeen(patterns, data, regions, overlap, v);
      var j :| 0 <= j < |chunks| && chunks[j] == c;
      GatherHas(SightsOf(patterns, data, chunks), |chunks|, j, v);
    }
  }

  function MaxLen(patterns: seq<Pattern>, n: nat): (m: nat)
    requires n <= |patterns|
    ensures forall k | 0 <= k < n :: |patterns[k]| <= m
    ensures n > 0 ==> m > 0
  {
    if n == 0 then 0
    else
      var rest := MaxLen(patterns, n - 1);
      if |patterns[n - 1]| > rest then |patterns[n - 1]| else rest
  }

  predicate AllParsed(specs: seq<string>) {
    forall k | 0 <= k < |specs| :: Parsed(specs[k]).Some?
  }

  function Patterns(specs: seq<string>, n: nat): seq<Pattern>
    requires n <= |specs| && forall k | 0 <= k < n :: Parsed(specs[k]).Some?
  {
    if n == 0 then [] else Patterns(specs, n - 1) + [Parsed(specs[n - 1]).value]
  }

  method ParseAll(specs: seq<string>) returns (patterns: Option<seq<Pattern>>)
    ensures patterns.Some? <==> AllParsed(specs)
    ensures patterns.Some? ==> patterns.value == Patterns(specs, |specs|)
  {
    var out: seq<Pattern> := [];
    for k := 0 to |specs|
      invariant forall j | 0 <= j < k :: Parsed(specs[j]).Some?
      invariant out == Patterns(specs, k)
    {
      var p := Parse(specs[k]);
      if p.None? {
        return None;
      }
      out := out + [p.value];
    }
    return Some(out);
  }

  ghost predicate OnlyMatch(patterns: seq<Pattern>, data: seq<byte>, regions: seq<Region>, v: nat) {
    forall w: nat :: Matches(patterns, data, regions, w) <==> w == v
  }

  ghost predicate Unique(patterns: seq<Pattern>, data: seq<byte>, regions: seq<Region>) {
    exists v: nat :: OnlyMatch(patterns, data, regions, v)
  }

  lemma Verdict(patterns: seq<Pattern>, data: seq<byte>, regions: seq<Region>,
                found: Option<Sighting>, ambiguous: bool, seen: seq<nat>, v: nat)
    requires Tracks(found, ambiguous, seen)
    requires forall w: nat :: w in seen <==> Matches(patterns, data, regions, w)
    ensures OnlyMatch(patterns, data, regions, v) <==> !ambiguous && found.Some? && found.value.rva == v
  {
    if ambiguous {
      var x, y :| x in seen && y in seen && x != y;
      assert Matches(patterns, data, regions, x) && Matches(patterns, data, regions, y);
    } else {
      assert v in seen <==> Matches(patterns, data, regions, v);
    }
  }

  lemma NothingUnique(data: seq<byte>, regions: seq<Region>)
    ensures !Unique([], data, regions)
  {
    forall v: nat
      ensures !OnlyMatch([], data, regions, v)
    {
      assert !Matches([], data, regions, v);
    }
  }

  /** The address at which alone any of the patterns matches, with a copy of the bytes there. */
  method FindUniqueOf(patterns: seq<Pattern>, data: seq<byte>, regions: seq<Region>) returns (r: Option<Sighting>)
    requires patterns != [] && AllInFile(|data|, regions)
    ensures r.Some? <==> Unique(patterns, data, regions)
    ensures r.Some? ==> OnlyMatch(patterns, data, regions, r.value.rva) && IsCopy(patterns, data, regions, r.value)
  {
    var overlap := MaxLen(patterns, |patterns|) - 1;
    var chunks := Scan(|data|, regions, overlap);
    var found, ambiguous := None, false;
    for i := 0 to |chunks|
      invariant Tracks(found, ambiguous, Sights(patterns, data, chunks, i))
      invariant Sound(patterns, data, regions, found)
    {
      ChunksInFile(|data|, regions, overlap, chunks[i]);
      ChunkCut(|data|, regions, overlap, chunks[i]);
      found, ambiguous := VisitChunk(patterns, data, regions, chunks[i], found, ambiguous,
                                     Sights(patterns, data, chunks, i));
    }
    forall v: nat
      ensures v in Sights(patterns, data, chunks, |chunks|) <==> Matches(patterns, data, regions, v)
    {
      SightsMatch(patterns, data, regions, overlap, chunks, v);
    }
    forall v: nat
      ensures OnlyMatch(patterns, data, regions, v) <==> !ambiguous && found.Some? && found.value.rva == v
    {
      Verdict(patterns, data, regions, found, ambiguous, Sights(patterns, data, chunks, |chunks|), v);
    }
    r := if ambiguous then None else found;
    assert r.Some? ==> OnlyMatch(patterns, data, regions, r.value.rva);
  }

  /** No answer when a pattern is malformed or none is given; otherwise the unique match, if any. */
  method FindUnique(specs: seq<string>, data: seq<byte>, regions: seq<Region>) returns (r: Option<Sighting>)
    requires AllInFile(|data|, regions)
    ensures r.Some? ==> AllParsed(specs)
    ensures AllParsed(specs) ==> (r.Some? <==> Unique(Patterns(specs, |specs|), data, regions))
    ensures r.Some? ==>
      && OnlyMatch(Patterns(specs, |specs|), data, regions, r.value.rva)
      && IsCopy(Patterns(specs, |specs|), data, regions, r.value)
  {
    var patterns := ParseAll(specs);
    if patterns.None? {
      return None;
    }
    if patterns.value == [] {
      NothingUnique(data, regions);
      return None;
    }
    r := FindUniqueOf(patterns.value, data, regions);
  }
}
