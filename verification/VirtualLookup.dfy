/** Finding one virtual function of a class by what its code looks like. */
module VirtualLookup {
  import opened Bytes
  import opened PatternText
  import opened PatternSearch
  import opened PeVtables
  import opened UniqueMatch

  const MAX_VIRTUALS: nat := 256

  /** The table's entries are code up to and including this one. */
  predicate Reached(m: Image, vtable: nat, i: nat) {
    forall j | 0 <= j <= i :: Vfn(m, vtable, j).Some?
  }

  datatype Virtual = Virtual(index: nat, rva: nat)

  /** Walks the table until an entry stops pointing at code. */
  method Virtuals(m: Image, vtable: nat, max: nat) returns (out: seq<Virtual>)
    ensures |out| <= max && (|out| < max ==> Vfn(m, vtable, |out|).None?)
    ensures forall i | 0 <= i < |out| :: Vfn(m, vtable, i) == Some(out[i].rva) && out[i].index == i
  {
    out := [];
    while |out| < max
      invariant |out| <= max
      invariant forall i | 0 <= i < |out| :: Vfn(m, vtable, i) == Some(out[i].rva) && out[i].index == i
    {
      var rva := Vfn(m, vtable, |out|);
      if rva.None? {
        return;
      }
      out := out + [Virtual(|out|, rva.value)];
    }
  }

  function ReadRva(m: Image, rva: nat, len: nat): Option<seq<byte>> {
    var off := RvaToOffset(m, rva);
    if off.None? || off.value + len > |m.data| then None else Some(m.data[off.value..off.value + len])
  }

  /** The function's code can be read and begins with one of the patterns. */
  ghost predicate Accepted(m: Image, patterns: seq<Pattern>, window: nat, function': nat) {
    && ReadRva(m, function', window).Some?
    && exists k :: 0 <= k < |patterns| && MatchesAt(patterns[k], ReadRva(m, function', window).value, 0)
  }

  method BeginsWithAny(m: Image, patterns: seq<Pattern>, window: nat, function': nat) returns (yes: bool)
    ensures yes <==> Accepted(m, patterns, window, function')
  {
    var body := ReadRva(m, function', window);
    if body.None? {
      return false;
    }
    for k := 0 to |patterns|
      invariant forall j | 0 <= j < k :: !MatchesAt(patterns[j], body.value, 0)
    {
      var first := FindFrom(patterns[k], body.value, 0);
      if first == Some(0) {
        return true;
      }
    }
    return false;
  }

  /** The table slot that holds the function's address, and the function. */
  datatype Slot = Slot(address: nat, function': nat)

  /** Entry `i` of a table is a candidate. */
  ghost predicate CandidateAt(m: Image, patterns: seq<Pattern>, window: nat, vtable: nat, i: nat, s: Slot) {
    && i < MAX_VIRTUALS && Reached(m, vtable, i) && Vfn(m, vtable, i) == Some(s.function')
    && s.address == vtable + i * SLOT && Accepted(m, patterns, window, s.function')
  }

  ghost predicate Candidate(m: Image, patterns: seq<Pattern>, window: nat, tables: seq<Vtable>, s: Slot) {
    exists k, i: nat :: 0 <= k < |tables| && CandidateAt(m, patterns, window, tables[k].rva, i, s)
  }

  /** A candidate of the tables before `k`, or of the entries before `i` of table `k`. */
  ghost predicate Visited(m: Image, patterns: seq<Pattern>, window: nat, tables: seq<Vtable>, k: nat, i: nat, s: Slot) {
    exists a, b: nat :: 0 <= a < |tables| && (a < k || (a == k && b < i))
      && CandidateAt(m, patterns, window, tables[a].rva, b, s)
  }

  /** `found` is the only candidate visited so far, if there was one. */
  ghost predicate Only(m: Image, patterns: seq<Pattern>, window: nat, tables: seq<Vtable>, k: nat, i: nat,
                       found: Option<Slot>) {
    forall s :: Visited(m, patterns, window, tables, k, i, s) <==> found == Some(s)
  }

  ghost predicate Two(m: Image, patterns: seq<Pattern>, window: nat, tables: seq<Vtable>) {
    exists s, t :: s != t && Candidate(m, patterns, window, tables, s) && Candidate(m, patterns, window, tables, t)
  }

  lemma VisitedStep(m: Image, patterns: seq<Pattern>, window: nat, tables: seq<Vtable>, k: nat, i: nat, t: Slot)
    requires k < |tables|
    ensures Visited(m, patterns, window, tables, k, i + 1, t)
       <==> Visited(m, patterns, window, tables, k, i, t) || CandidateAt(m, patterns, window, tables[k].rva, i, t)
  {
    if CandidateAt(m, patterns, window, tables[k].rva, i, t) {
      assert Visited(m, patterns, window, tables, k, i + 1, t);
    }
  }

  lemma VisitNext(m: Image, patterns: seq<Pattern>, window: nat, tables: seq<Vtable>, k: nat, i: nat,
                  found: Option<Slot>, s: Slot)
    requires k < |tables| && Only(m, patterns, window, tables, k, i, found)
    requires forall t :: CandidateAt(m, patterns, window, tables[k].rva, i, t) ==> t == s
    ensures !CandidateAt(m, patterns, window, tables[k].rva, i, s) ==>
      Only(m, patterns, window, tables, k, i + 1, found)
    ensures CandidateAt(m, patterns, window, tables[k].rva, i, s) && (found == None || found == Some(s)) ==>
      Only(m, patterns, window, tables, k, i + 1, Some(s))
  {
    forall t
      ensures Visited(m, patterns, window, tables, k, i + 1, t)
         <==> Visited(m, patterns, window, tables, k, i, t) || CandidateAt(m, patterns, window, tables[k].rva, i, t)
    {
      VisitedStep(m, patterns, window, tables, k, i, t);
    }
  }

  lemma VisitConflict(m: Image, patterns: seq<Pattern>, window: nat, tables: seq<Vtable>, k: nat, i: nat,
                      found: Slot, s: Slot)
    requires k < |tables| && Only(m, patterns, window, tables, k, i, Some(found)) && found != s
    requires CandidateAt(m, patterns, window, tables[k].rva, i, s)
    ensures Two(m, patterns, window, tables)
  {
    assert Visited(m, patterns, window, tables, k, i, found);
    assert Candidate(m, patterns, window, tables, found) && Candidate(m, patterns, window, tables, s);
  }

  /** The rest of a table after its last entry that is code holds no candidate. */
  lemma VisitRest(m: Image, patterns: seq<Pattern>, window: nat, tables: seq<Vtable>, k: nat, i: nat,
                  found: Option<Slot>)
    requires k < |tables| && Only(m, patterns, window, tables, k, i, found)
    requires i >= MAX_VIRTUALS || Vfn(m, tables[k].rva, i).None?
    ensures Only(m, patterns, window, tables, k + 1, 0, found)
  {
    forall t
      ensures Visited(m, patterns, window, tables, k + 1, 0, t) <==> Visited(m, patterns, window, tables, k, i, t)
    {
      if Visited(m, patterns, window, tables, k + 1, 0, t) {
        var a, b: nat :| 0 <= a < |tables| && (a < k + 1 || (a == k + 1 && b < 0))
          && CandidateAt(m, patterns, window, tables[a].rva, b, t);
        assert a < k || b < i;
      }
    }
  }

  /** One table: the first candidate that differs from an earlier one ends the search. */
  method VisitTable(m: Image, patterns: seq<Pattern>, window: nat, tables: seq<Vtable>, k: nat, found: Option<Slot>)
      returns (found': Option<Slot>, conflict: bool)
    requires k < |tables| && Only(m, patterns, window, tables, k, 0, found)
    ensures conflict ==> Two(m, patterns, window, tables)
    ensures !conflict ==> Only(m, patterns, window, tables, k + 1, 0, found')
  {
    found', conflict := found, false;
    var virtuals := Virtuals(m, tables[k].rva, MAX_VIRTUALS);
    for i := 0 to |virtuals|
      invariant Only(m, patterns, window, tables, k, i, found')
    {
      var candidate := Slot(tables[k].rva + i * SLOT, virtuals[i].rva);
      VisitNext(m, patterns, window, tables, k, i, found', candidate);
      var yes := BeginsWithAny(m, patterns, window, virtuals[i].rva);
      if yes {
        if found'.Some? && found'.value != candidate {
          VisitConflict(m, patterns, window, tables, k, i, found'.value, candidate);
          conflict := true;
          return;
        }
        found' := Some(candidate);
      }
    }
    VisitRest(m, patterns, window, tables, k, |virtuals|, found');
  }

  /** The slot and the function, exactly when one candidate and one only exists. */
  method ResolveAmong(m: Image, patterns: seq<Pattern>, window: nat, tables: seq<Vtable>) returns (r: Option<Slot>)
    ensures r.Some? ==> forall s :: Candidate(m, patterns, window, tables, s) <==> s == r.value
    ensures r.None? ==>
      Two(m, patterns, window, tables) || forall s :: !Candidate(m, patterns, window, tables, s)
  {
    r := None;
    for k := 0 to |tables|
      invariant Only(m, patterns, window, tables, k, 0, r)
    {
      var conflict;
      r, conflict := VisitTable(m, patterns, window, tables, k, r);
      if conflict {
        return None;
      }
    }
    forall s
      ensures Candidate(m, patterns, window, tables, s) <==> Visited(m, patterns, window, tables, |tables|, 0, s)
    {
    }
  }

  /** `resolve_virtual`: over all tables of the class; no answer when a pattern is malformed. */
  method ResolveVirtual(m: Image, class': seq<byte>, specs: seq<string>, window: nat)
      returns (r: Option<Slot>, ghost tables: seq<Vtable>, ghost tds: seq<nat>)
    requires Opened(m)
    ensures forall td: nat :: td in tds <==> IsDescriptor(m, class', td)
    ensures forall v :: v in tables <==> IsVtable(m, class', tds, v)
    ensures r.Some? ==> AllParsed(specs)
    ensures r.Some? ==> forall s :: Candidate(m, Patterns(specs, |specs|), window, tables, s) <==> s == r.value
    ensures AllParsed(specs) && r.None? ==>
      || Two(m, Patterns(specs, |specs|), window, tables)
      || forall s :: !Candidate(m, Patterns(specs, |specs|), window, tables, s)
  {
    var found: seq<Vtable>;
    found, tds := Vtables(m, class');
    tables := found;
    var patterns := ParseAll(specs);
    if patterns.None? {
      return None, tables, tds;
    }
    r := ResolveAmong(m, patterns.value, window, found);
  }
}
