/** The two readers' searches for an exact byte string in the chunks of a file. */
module NeedleSearch {
  import opened Bytes
  import opened HitLists
  import opened PatternText
  import opened PatternSearch
  import opened ChunkedScan

  datatype Reader = Pe | Elf

  method Compare(needle: seq<byte>, buf: seq<byte>, at: nat) returns (same: bool)
    requires needle != [] && at + |needle| <= |buf|
    ensures same == At(Exact(needle), buf)(at)
  {
    ExactMatches(needle, buf, at);
    same := buf[at..at + |needle|] == needle;
  }

  /** The PE reader compares every window. */
  method WindowsEqual(needle: seq<byte>, buf: seq<byte>, base: nat) returns (out: seq<nat>)
    requires needle != []
    ensures out == HitsIn(At(Exact(needle), buf), |needle|, 0, |buf|, base)
  {
    out := [];
    var i := 0;
    ghost var hit := At(Exact(needle), buf);
    while i + |needle| <= |buf|
      invariant out + HitsIn(hit, |needle|, i, |buf|, base + i) == HitsIn(hit, |needle|, 0, |buf|, base)
    {
      HitsInStep(hit, |needle|, i, |buf|, base + i, out);
      var same := Compare(needle, buf, i);
      if same {
        out := out + [base + i];
      }
      i := i + 1;
    }
  }

  method Position(buf: seq<byte>, from: nat, wanted: byte) returns (p: Option<nat>)
    requires from <= |buf|
    ensures p.Some? ==> from + p.value < |buf| && buf[from + p.value] == wanted
    ensures forall k | from <= k < |buf| && buf[k] == wanted :: p.Some? && from + p.value <= k
  {
    var k := from;
    while k < |buf|
      invariant from <= k <= |buf|
      invariant forall j | from <= j < k :: buf[j] != wanted
    {
      if buf[k] == wanted {
        return Some(k - from);
      }
      k := k + 1;
    }
    return None;
  }

  /** A match begins with the needle's first byte. */
  lemma FirstByte(needle: seq<byte>, buf: seq<byte>, k: nat)
    requires needle != [] && MatchesAt(Exact(needle), buf, k)
    ensures buf[k] == needle[0]
  {
    assert Exact(needle)[0] == Some(needle[0]);
    assert buf[k + 0] == needle[0];
  }

  /** The next place a match can start, or none. */
  method NextCandidate(needle: seq<byte>, buf: seq<byte>, i: nat) returns (s: Option<nat>)
    requires needle != [] && i + |needle| <= |buf|
    ensures NoHit(At(Exact(needle), buf), i, if s.Some? then s.value else |buf|)
    ensures s.Some? ==> i <= s.value && s.value + |needle| <= |buf|
  {
    var p := Position(buf, i, needle[0]);
    forall k: nat | i <= k < |buf| && (p.Some? ==> k < i + p.value)
      ensures !MatchesAt(Exact(needle), buf, k)
    {
      if MatchesAt(Exact(needle), buf, k) {
        FirstByte(needle, buf, k);
      }
    }
    if p.None? || i + p.value + |needle| > |buf| {
      return None;
    }
    return Some(i + p.value);
  }

  /** One turn of the ELF reader's loop: what it pushes, and where it goes on, if it does. */
  method Turn(needle: seq<byte>, buf: seq<byte>, i: nat, base: nat) returns (pushed: seq<nat>, next: Option<nat>)
    requires needle != [] && i + |needle| <= |buf|
    ensures next.Some? ==> i < next.value <= |buf|
    ensures HitsIn(At(Exact(needle), buf), |needle|, i, |buf|, base + i)
         == pushed + Rest(At(Exact(needle), buf), |needle|, next, |buf|, base)
  {
    var s := NextCandidate(needle, buf, i);
    if s.None? {
      HitsInNone(At(Exact(needle), buf), |needle|, i, |buf|, base + i);
      return [], None;
    }
    HitsInSkip(At(Exact(needle), buf), |needle|, i, s.value, |buf|, base);
    var same := Compare(needle, buf, s.value);
    return if same then [base + s.value] else [], Some(s.value + 1);
  }

  function Rest(hit: nat -> bool, w: nat, i: Option<nat>, hi: nat, base: nat): seq<nat> {
    if i.None? then [] else HitsIn(hit, w, i.value, hi, base + i.value)
  }

  /** The ELF reader skips from one occurrence of the first byte to the next. */
  method SkipToFirstByte(needle: seq<byte>, buf: seq<byte>, base: nat) returns (out: seq<nat>)
    requires needle != []
    ensures out == HitsIn(At(Exact(needle), buf), |needle|, 0, |buf|, base)
  {
    out := [];
    var i := 0;
    ghost var hit := At(Exact(needle), buf);
    ghost var all := HitsIn(hit, |needle|, 0, |buf|, base);
    while i + |needle| <= |buf|
      invariant out + Rest(hit, |needle|, Some(i), |buf|, base) == all
      decreases |buf| - i
    {
      var pushed, next := Turn(needle, buf, i, base);
      Assoc(out, pushed, Rest(hit, |needle|, next, |buf|, base));
      out := out + pushed;
      if next.None? {
        return;
      }
      i := next.value;
    }
  }

  lemma WindowMatches(p: Pattern, data: seq<byte>, lo: nat, hi: nat, at: nat)
    requires lo <= hi <= |data| && lo + at + |p| <= hi
    ensures MatchesAt(p, data[lo..hi], at) <==> MatchesAt(p, data, lo + at)
  {
    var w := data[lo..hi];
    if MatchesAt(p, data, lo + at) {
      forall i | 0 <= i < |p| && p[i].Some? ensures w[at + i] == p[i].value {
        assert data[lo + at + i] == p[i].value;
      }
    }
  }

  /** Searching the bytes of a chunk by themselves gives the file's own hits. */
  lemma WindowHits(p: Pattern, data: seq<byte>, lo: nat, hi: nat, base: nat)
    requires lo <= hi <= |data|
    ensures HitsIn(At(p, data[lo..hi]), |p|, 0, hi - lo, base) == HitsIn(At(p, data), |p|, lo, hi, base)
  {
    forall k: nat | k + |p| <= hi - lo
      ensures At(p, data[lo..hi])(k) == At(p, data)(lo + k)
    {
      WindowMatches(p, data, lo, hi, k);
    }
    HitsInWindow(At(p, data[lo..hi]), At(p, data), |p|, lo, hi, base, 0);
  }

  /** The search of one chunk's bytes. */
  method SearchChunk(reader: Reader, data: seq<byte>, c: Chunk, needle: seq<byte>) returns (hits: seq<nat>)
    requires c.lo <= c.hi <= |data| && needle != []
    ensures hits == HitsIn(At(Exact(needle), data), |needle|, c.lo, c.hi, c.base)
  {
    if reader == Pe {
      hits := WindowsEqual(needle, data[c.lo..c.hi], c.base);
    } else {
      hits := SkipToFirstByte(needle, data[c.lo..c.hi], c.base);
    }
    WindowHits(Exact(needle), data, c.lo, c.hi, c.base);
  }

  /** The needle stands in a region, at a place mapped at `v`. */
  ghost predicate Stands(needle: seq<byte>, data: seq<byte>, regions: seq<Region>, v: nat)
    requires needle != [] && AllInFile(|data|, regions)
  {
    exists i :: 0 <= i < |regions| && StandsIn(needle, data, regions[i], v)
  }

  predicate StandsIn(needle: seq<byte>, data: seq<byte>, r: Region, v: nat)
    requires needle != [] && InFile(|data|, r)
  {
    && r.base <= v && v - r.base + |needle| <= r.size
    && data[r.raw + v - r.base..r.raw + v - r.base + |needle|] == needle
  }

  lemma StandsIffOccurs(needle: seq<byte>, data: seq<byte>, r: Region, v: nat)
    requires needle != [] && InFile(|data|, r)
    ensures StandsIn(needle, data, r, v) <==> OccursIn(At(Exact(needle), data), |needle|, r, v)
  {
    if r.base <= v && v - r.base + |needle| <= r.size {
      ExactMatches(needle, data, r.raw + (v - r.base));
    }
  }

  /** Every address of the regions where the needle stands: sorted, once each, none missed. */
  lemma FoundExactly(needle: seq<byte>, data: seq<byte>, regions: seq<Region>)
    requires needle != [] && AllInFile(|data|, regions)
    ensures var found := Addresses(needle, data, regions);
      Increasing(found) && forall v: nat :: v in found <==> Stands(needle, data, regions, v)
  {
    ScanFindsAll(At(Exact(needle), data), |needle|, |data|, regions);
    forall i, v: nat | 0 <= i < |regions|
      ensures StandsIn(needle, data, regions[i], v) <==> OccursIn(At(Exact(needle), data), |needle|, regions[i], v)
    {
      StandsIffOccurs(needle, data, regions[i], v);
    }
  }

  function Addresses(needle: seq<byte>, data: seq<byte>, regions: seq<Region>): seq<nat>
    requires needle != []
  {
    SortedUnique(ChunkHits(At(Exact(needle), data), |needle|, AllChunks(|data|, regions, |needle| - 1)), Below())
  }

  method FindAllAddresses(reader: Reader, data: seq<byte>, regions: seq<Region>, needle: seq<byte>)
      returns (found: seq<nat>)
    ensures found == if needle == [] then [] else Addresses(needle, data, regions)
  {
    found := [];
    if needle == [] {
      return;
    }
    var chunks := Scan(|data|, regions, |needle| - 1);
    ghost var hit := At(Exact(needle), data);
    assert chunks[0..] == chunks;
    for i := 0 to |chunks|
      invariant found + ChunkHits(hit, |needle|, chunks[i..]) == ChunkHits(hit, |needle|, chunks)
    {
      ChunksInFile(|data|, regions, |needle| - 1, chunks[i]);
      var hits := SearchChunk(reader, data, chunks[i], needle);
      assert chunks[i..][1..] == chunks[i + 1..];
      Assoc(found, hits, ChunkHits(hit, |needle|, chunks[i + 1..]));
      found := found + hits;
    }
    assert chunks[|chunks|..] == [] && found + [] == found;
    found := SortedUnique(found, Below());
  }
}
