/** Byte patterns with wildcards: finding every match, exactly one match, or refusing. */
module PatternSearch {
  import opened Bytes
  import opened HitLists
  import opened PatternText

  predicate MatchesAt(p: Pattern, hay: seq<byte>, at: nat) {
    && at + |p| <= |hay|
    && forall i | 0 <= i < |p| :: p[i].Some? ==> hay[at + i] == p[i].value
  }

  /** A pattern without wildcards. */
  function Exact(needle: seq<byte>): (p: seq<Option<byte>>)
    ensures |p| == |needle|
    ensures forall i | 0 <= i < |p| :: p[i] == Some(needle[i])
  {
    seq(|needle|, i requires 0 <= i < |needle| => Some(needle[i]))
  }

  lemma ExactMatches(needle: seq<byte>, hay: seq<byte>, at: nat)
    requires needle != []
    ensures MatchesAt(Exact(needle), hay, at) <==> at + |needle| <= |hay| && hay[at..at + |needle|] == needle
  {
    if at + |needle| <= |hay| {
      var got := hay[at..at + |needle|];
      if MatchesAt(Exact(needle), hay, at) {
        forall i | 0 <= i < |needle| ensures got[i] == needle[i] {
          assert Exact(needle)[i].Some?;
        }
      } else {
        var i :| 0 <= i < |needle| && Exact(needle)[i].Some? && hay[at + i] != Exact(needle)[i].value;
        assert got[i] != needle[i];
      }
    }
  }

  /** Where the pattern matches, as a test on offsets. */
  function At(p: Pattern, hay: seq<byte>): nat -> bool {
    (at: nat) => MatchesAt(p, hay, at)
  }

  /** The matches of the whole text. */
  function AllHits(p: Pattern, hay: seq<byte>): seq<nat> {
    HitsIn(At(p, hay), |p|, 0, |hay|, 0)
  }

  /** The list is strictly increasing and holds the matching offsets, all of them, nothing else. */
  lemma AllHitsExactly(p: Pattern, hay: seq<byte>)
    ensures Increasing(AllHits(p, hay))
    ensures forall at: nat :: at in AllHits(p, hay) <==> MatchesAt(p, hay, at)
  {
    HitsInIncreasing(At(p, hay), |p|, 0, |hay|, 0);
    forall at: nat
      ensures at in AllHits(p, hay) <==> MatchesAt(p, hay, at)
    {
      HitsInMember(At(p, hay), |p|, 0, |hay|, 0, at);
    }
  }

  /** The first match at or after an offset, if there is one. */
  ghost predicate FirstMatch(p: Pattern, hay: seq<byte>, from: nat, r: Option<nat>) {
    && (r.Some? ==> from <= r.value && MatchesAt(p, hay, r.value))
    && (forall at: nat :: from <= at && MatchesAt(p, hay, at) ==> r.Some? && r.value <= at)
  }

  method FindFrom(p: Pattern, hay: seq<byte>, from: nat) returns (r: Option<nat>)
    ensures FirstMatch(p, hay, from, r)
  {
    if |hay| < |p| {
      return None;
    }
    var last := |hay| - |p|;
    var i := from;
    while i <= last
      invariant from <= i
      invariant forall at: nat | from <= at < i :: !MatchesAt(p, hay, at)
    {
      if MatchesAt(p, hay, i) {
        return Some(i);
      }
      i := i + 1;
    }
    return None;
  }

  /** One turn of the search: what is still to be found, with the next match or without. */
  lemma FindTurn(p: Pattern, hay: seq<byte>, at: nat, i: Option<nat>, out: seq<nat>)
    requires FirstMatch(p, hay, at, i)
    ensures out + HitsIn(At(p, hay), |p|, at, |hay|, at) ==
      if i.None? then out
      else (out + [i.value]) + HitsIn(At(p, hay), |p|, i.value + 1, |hay|, i.value + 1)
  {
    if i.Some? {
      HitsInNext(At(p, hay), |p|, at, i.value, |hay|, 0);
      Assoc(out, [i.value], HitsIn(At(p, hay), |p|, i.value + 1, |hay|, i.value + 1));
    } else {
      HitsInNone(At(p, hay), |p|, at, |hay|, at);
    }
  }

  method FindAll(p: Pattern, hay: seq<byte>) returns (out: seq<nat>)
    ensures out == AllHits(p, hay)
  {
    out := [];
    var at := 0;
    var i := FindFrom(p, hay, at);
    while i.Some?
      invariant FirstMatch(p, hay, at, i)
      invariant out + HitsIn(At(p, hay), |p|, at, |hay|, at) == AllHits(p, hay)
      decreases |hay| - at
    {
      FindTurn(p, hay, at, i, out);
      out := out + [i.value];
      at := i.value + 1;
      i := FindFrom(p, hay, at);
    }
    FindTurn(p, hay, at, i, out);
  }

  // ---- a table of signatures, each of which must match once ----

  /** A pattern text, and which bytes of a match to rewrite. */
  datatype Sig = Sig(pat: string, at: nat, len: nat)

  /** A signature whose text is malformed, or whose window leaves its own match, is refused. */
  function SigPattern(s: Sig): Option<Pattern> {
    var parsed := Parsed(s.pat);
    if parsed.Some? && s.at + s.len <= |parsed.value| then parsed else None
  }

  method PatternOf(s: Sig) returns (p: Option<Pattern>)
    ensures p == SigPattern(s)
  {
    p := Parse(s.pat);
    if p.Some? && s.at + s.len > |p.value| {
      p := None;
    }
  }

  datatype Hit = Hit(index: nat, at: nat)
  datatype ScanResult = Found(hits: seq<Hit>) | Malformed(index: nat) | Matched(index: nat, times: nat)

  ghost predicate MatchesOnlyAt(s: Sig, buf: seq<byte>, at: nat) {
    && SigPattern(s).Some?
    && forall k: nat :: MatchesAt(SigPattern(s).value, buf, k) <==> k == at
  }

  ghost predicate MatchesOnce(s: Sig, buf: seq<byte>) {
    exists at: nat :: MatchesOnlyAt(s, buf, at)
  }

  lemma OneHit(s: Sig, buf: seq<byte>, at: nat)
    requires SigPattern(s).Some?
    ensures AllHits(SigPattern(s).value, buf) == [at] <==> MatchesOnlyAt(s, buf, at)
  {
    var hits := AllHits(SigPattern(s).value, buf);
    AllHitsExactly(SigPattern(s).value, buf);
    if MatchesOnlyAt(s, buf, at) {
      assert at in hits;
      forall k | 0 <= k < |hits| ensures hits[k] == at && k == 0 {
        assert hits[k] in hits && hits[0] in hits;
      }
      assert hits[|hits| - 1] == at;
    }
    if hits == [at] {
      forall k: nat ensures MatchesAt(SigPattern(s).value, buf, k) <==> k == at {
        assert k in hits <==> k == at;
      }
    }
  }

  /** One signature of the table. */
  method ScanOne(s: Sig, buf: seq<byte>, index: nat) returns (r: ScanResult)
    ensures r.Found? <==> MatchesOnce(s, buf)
    ensures r.Found? ==> |r.hits| == 1 && r.hits[0].index == index && MatchesOnlyAt(s, buf, r.hits[0].at)
    ensures r.Malformed? <==> SigPattern(s).None?
    ensures r.Malformed? ==> r.index == index
    ensures r.Matched? ==> r.index == index && r.times != 1 && r.times == |AllHits(SigPattern(s).value, buf)|
  {
    var pattern := PatternOf(s);
    if pattern.None? {
      return Malformed(index);
    }
    var matches := FindAll(pattern.value, buf);
    if |matches| != 1 {
      forall at: nat ensures !MatchesOnlyAt(s, buf, at) {
        OneHit(s, buf, at);
      }
      return Matched(index, |matches|);
    }
    assert matches == [matches[0]];
    OneHit(s, buf, matches[0]);
    assert MatchesOnlyAt(s, buf, matches[0]);
    return Found([Hit(index, matches[0])]);
  }

  /** Success exactly when every signature is well formed and matches once; the answer is then
      the match of each, and each window lies inside the buffer. Otherwise the first offender. */
  method ScanTable(sigs: seq<Sig>, buf: seq<byte>) returns (r: ScanResult)
    ensures r.Found? <==> forall i | 0 <= i < |sigs| :: MatchesOnce(sigs[i], buf)
    ensures r.Found? ==> |r.hits| == |sigs|
    ensures r.Found? ==> forall i | 0 <= i < |sigs| ::
      && r.hits[i].index == i && MatchesOnlyAt(sigs[i], buf, r.hits[i].at)
      && r.hits[i].at + sigs[i].at + sigs[i].len <= |buf|
    ensures !r.Found? ==> r.index < |sigs| && forall i | 0 <= i < r.index :: MatchesOnce(sigs[i], buf)
    ensures r.Malformed? ==> SigPattern(sigs[r.index]).None?
    ensures r.Matched? ==> SigPattern(sigs[r.index]).Some? && r.times != 1
    ensures r.Matched? ==> r.times == |AllHits(SigPattern(sigs[r.index]).value, buf)|
  {
    var hits: seq<Hit> := [];
    for index := 0 to |sigs|
      invariant |hits| == index
      invariant forall i | 0 <= i < index :: MatchesOnce(sigs[i], buf)
      invariant forall i | 0 <= i < index :: hits[i].index == i && MatchesOnlyAt(sigs[i], buf, hits[i].at)
    {
      var one := ScanOne(sigs[index], buf, index);
      if !one.Found? {
        return one;
      }
      hits := hits + one.hits;
    }
    forall i | 0 <= i < |sigs|
      ensures hits[i].at + sigs[i].at + sigs[i].len <= |buf|
    {
      assert MatchesAt(SigPattern(sigs[i]).value, buf, hits[i].at);
    }
    return Found(hits);
  }
}
