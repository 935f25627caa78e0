/** Choosing the view-punch instructions: pitch, yaw and roll triples of one field. */
module PunchSelection {
  import opened Bytes
  import opened HitLists
  import opened AddssSites
  import opened ChunkedScan
  import opened CodePatch
  import opened PatchToggles

  const TRIPLE_SPAN: nat := 0x100

  /** Three neighbours that add to a field and the two floats after it, close together. */
  predicate IsTriple(sites: seq<Site>, i: nat) {
    && i + 2 < |sites|
    && sites[i + 1].displacement == sites[i].displacement + 4
    && sites[i + 2].displacement == sites[i].displacement + 8
    && sites[i + 2].rva - sites[i].rva < TRIPLE_SPAN
  }

  /** A triple of this field starts at the index. */
  function StartsAt(sites: seq<Site>, field: nat): nat -> bool {
    (i: nat) => IsTriple(sites, i) && sites[i].displacement == field
  }

  /** Where the triples of a field start. */
  function Starts(sites: seq<Site>, field: nat): seq<nat> {
    HitsIn(StartsAt(sites, field), 3, 0, |sites|, 0)
  }

  ghost predicate Spaced(starts: seq<nat>) {
    forall i, j | 0 <= i < j < |starts| :: starts[i] + 3 <= starts[j]
  }

  /** Triples of one field never overlap: the next two displacements are different ones. */
  lemma StartsSpaced(sites: seq<Site>, field: nat)
    ensures Spaced(Starts(sites, field))
    ensures forall s <- Starts(sites, field) :: IsTriple(sites, s) && sites[s].displacement == field
  {
    var (hit, starts) := (StartsAt(sites, field), Starts(sites, field));
    HitsInIncreasing(hit, 3, 0, |sites|, 0);
    forall s | s in starts
      ensures hit(s)
    {
      HitsInMember(hit, 3, 0, |sites|, 0, s);
    }
    forall i, j | 0 <= i < j < |starts|
      ensures starts[i] + 3 <= starts[j]
    {
      assert starts[i] in starts && starts[j] in starts;
    }
  }

  /** The indices of the triples' members. */
  function Flat(starts: seq<nat>): (r: seq<nat>)
    ensures |r| == 3 * |starts|
  {
    if starts == [] then [] else [starts[0], starts[0] + 1, starts[0] + 2] + Flat(starts[1..])
  }

  lemma {:induction false} FlatIncreasing(starts: seq<nat>)
    requires Spaced(starts)
    ensures Increasing(Flat(starts))
    ensures starts != [] ==> forall k | 0 <= k < |Flat(starts)| :: starts[0] <= Flat(starts)[k]
  {
    if starts != [] {
      FlatIncreasing(starts[1..]);
      if |starts| > 1 {
        assert starts[0] + 3 <= starts[1];
      }
    }
  }

  lemma {:induction false} SortedUniqueOfIncreasing(s: seq<nat>)
    requires Increasing(s)
    ensures SortedUnique(s, Below()) == s
  {
    if s != [] {
      SortedUniqueOfIncreasing(s[1..]);
      assert [s[0]] + s[1..] == s;
    }
  }

  // ---- grouping the triples by field ----

  function Group(triples: map<nat, seq<nat>>, field: nat): seq<nat> {
    if field in triples then triples[field] else []
  }

  /** The triples of a field found so far, and those still to come. */
  ghost predicate GroupedUpTo(sites: seq<Site>, triples: map<nat, seq<nat>>, index: nat, field: nat) {
    Group(triples, field) + HitsIn(StartsAt(sites, field), 3, index, |sites|, index) == Starts(sites, field)
  }

  function WithTriple(sites: seq<Site>, triples: map<nat, seq<nat>>, index: nat): map<nat, seq<nat>> {
    if IsTriple(sites, index) then
      var field := sites[index].displacement;
      triples[field := Group(triples, field) + [index]]
    else triples
  }

  lemma GroupedNext(sites: seq<Site>, triples: map<nat, seq<nat>>, index: nat, field: nat)
    requires index + 3 <= |sites| && GroupedUpTo(sites, triples, index, field)
    ensures GroupedUpTo(sites, WithTriple(sites, triples, index), index + 1, field)
  {
    HitsInStep(StartsAt(sites, field), 3, index, |sites|, index, Group(triples, field));
    assert Group(WithTriple(sites, triples, index), field)
        == if StartsAt(sites, field)(index) then Group(triples, field) + [index] else Group(triples, field);
  }

  method GroupTriples(sites: seq<Site>) returns (triples: map<nat, seq<nat>>)
    ensures forall field: nat :: Group(triples, field) == Starts(sites, field)
    ensures forall field <- triples :: triples[field] != []
  {
    triples := map[];
    var index := 0;
    while index + 2 < |sites|
      invariant forall field: nat :: GroupedUpTo(sites, triples, index, field)
      invariant forall field <- triples :: triples[field] != []
    {
      ghost var (more, after) := (WithTriple(sites, triples, index), index + 1);
      forall field: nat
        ensures GroupedUpTo(sites, more, after, field)
      {
        GroupedNext(sites, triples, index, field);
      }
      if IsTriple(sites, index) {
        var field := sites[index].displacement;
        triples := triples[field := Group(triples, field) + [index]];
      }
      index := index + 1;
    }
    forall field: nat
      ensures Group(triples, field) == Starts(sites, field)
    {
      assert GroupedUpTo(sites, triples, index, field);
      HitsInNone(StartsAt(sites, field), 3, index, |sites|, index);
    }
  }

  /** The fields with the most triples. */
  method Leaders(triples: map<nat, seq<nat>>) returns (most: nat, fields: set<nat>)
    ensures forall field <- triples :: |triples[field]| <= most
    ensures forall field: nat :: field in fields <==> field in triples && |triples[field]| == most
    ensures triples != map[] ==> fields != {}
  {
    most := 0;
    var rest := triples.Keys;
    var at: Option<nat> := None;
    while rest != {}
      invariant rest <= triples.Keys
      invariant forall field | field in triples && field !in rest :: |triples[field]| <= most
      invariant at.Some? ==> at.value in triples && |triples[at.value]| == most
      invariant at.None? ==> rest == triples.Keys
      decreases |rest|
    {
      var field :| field in rest;
      if at.None? || |triples[field]| > most {
        most, at := |triples[field]|, Some(field);
      }
      rest := rest - {field};
    }
    fields := set field | field in triples && |triples[field]| == most;
    if at.Some? {
      assert at.value in fields;
    } else {
      assert triples == map[];
    }
  }

  datatype Selection = Selected(field: nat, indices: seq<nat>) | NoTriple | Ambiguous | Overlapping

  /** The field has more triples than any other. */
  ghost predicate Leads(sites: seq<Site>, field: nat) {
    && Starts(sites, field) != []
    && forall other: nat | other != field :: |Starts(sites, other)| < |Starts(sites, field)|
  }

  /** `select_punch_sites`: the leading field and all its triples' members, when one field leads;
      the overlap error is never reported. */
  method SelectPunchSites(sites: seq<Site>) returns (r: Selection)
    ensures r.Selected? ==> Leads(sites, r.field) && r.indices == Flat(Starts(sites, r.field))
    ensures r.Selected? ==> |r.indices| == 3 * |Starts(sites, r.field)|
    ensures r.NoTriple? ==> forall field: nat :: Starts(sites, field) == []
    ensures r.Ambiguous? ==> forall field: nat :: !Leads(sites, field)
    ensures r.NoTriple? || r.Ambiguous? || r.Selected?
  {
    var triples := GroupTriples(sites);
    if triples == map[] {
      forall field: nat ensures Starts(sites, field) == [] {
        assert Group(triples, field) == [];
      }
      return NoTriple;
    }
    var most, fields := Leaders(triples);
    var field :| field in fields;
    if fields != {field} {
      NoneLeads(sites, triples, most, fields, field);
      return Ambiguous;
    }
    OneLeads(sites, triples, most, fields, field);
    var matches := triples[field];
    var selected := SortedUnique(Flat(matches), Below());
    assert Group(triples, field) == Starts(sites, field);
    StartsSpaced(sites, field);
    FlatIncreasing(matches);
    SortedUniqueOfIncreasing(Flat(matches));
    if |selected| != 3 * |matches| {
      return Overlapping;
    }
    return Selected(field, selected);
  }

  lemma OneLeads(sites: seq<Site>, triples: map<nat, seq<nat>>, most: nat, fields: set<nat>, field: nat)
    requires forall f: nat :: Group(triples, f) == Starts(sites, f)
    requires forall f <- triples :: triples[f] != [] && |triples[f]| <= most
    requires forall f: nat :: f in fields <==> f in triples && |triples[f]| == most
    requires fields == {field}
    ensures Leads(sites, field)
  {
    assert field in fields;
    assert Group(triples, field) == Starts(sites, field);
    forall other: nat | other != field
      ensures |Starts(sites, other)| < |Starts(sites, field)|
    {
      assert Group(triples, other) == Starts(sites, other);
      assert other !in fields;
      assert other in triples ==> |triples[other]| <= most;
    }
  }

  lemma NoneLeads(sites: seq<Site>, triples: map<nat, seq<nat>>, most: nat, fields: set<nat>, one: nat)
    requires forall f: nat :: Group(triples, f) == Starts(sites, f)
    requires forall f <- triples :: triples[f] != [] && |triples[f]| <= most
    requires forall f: nat :: f in fields <==> f in triples && |triples[f]| == most
    requires one in fields && fields != {one}
    ensures forall field: nat :: !Leads(sites, field)
  {
    var two :| two in fields && two != one;
    assert Group(triples, one) == Starts(sites, one) && Group(triples, two) == Starts(sites, two);
    forall field: nat
      ensures !Leads(sites, field)
    {
      assert Group(triples, field) == Starts(sites, field);
      assert field in triples ==> |triples[field]| <= most;
    }
  }

  // ---- the other platform's choice: a tie goes to the smallest field ----

  datatype Triple = Triple(field: nat, start: nat)

  /** `field` has at least as many triples as any other, and is the smallest such. */
  ghost predicate Chosen(sites: seq<Site>, field: nat) {
    && Starts(sites, field) != []
    && forall other: nat | other != field :: Better(sites, field, other)
  }

  predicate Better(sites: seq<Site>, a: nat, b: nat) {
    Ahead(|Starts(sites, a)|, a, |Starts(sites, b)|, b)
  }

  predicate Ahead(countA: nat, a: nat, countB: nat, b: nat) {
    countB < countA || (countB == countA && a < b)
  }

  method BestField(triples: map<nat, seq<nat>>) returns (field: nat)
    requires triples != map[]
    ensures field in triples
    ensures forall f: nat | f in triples && f != field :: Ahead(|triples[field]|, field, |triples[f]|, f)
  {
    var rest := triples.Keys;
    assert rest != {};
    field :| field in rest;
    rest := rest - {field};
    while rest != {}
      invariant rest <= triples.Keys && field in triples && field !in rest
      invariant forall f: nat | f in triples && f !in rest && f != field ::
        Ahead(|triples[field]|, field, |triples[f]|, f)
      decreases |rest|
    {
      var other :| other in rest;
      if Ahead(|triples[other]|, other, |triples[field]|, field) {
        field := other;
      }
      rest := rest - {other};
    }
  }

  /** `punch_sites`: the best field by number of triples, then by smallness, and its members;
      zero and nothing when there is no triple. */
  method PunchSites(sites: seq<Site>) returns (field: nat, indices: seq<nat>)
    ensures indices == [] ==> field == 0 && forall f: nat :: Starts(sites, f) == []
    ensures indices != [] ==> Chosen(sites, field) && indices == Flat(Starts(sites, field))
  {
    var triples := GroupTriples(sites);
    if triples == map[] {
      forall f: nat ensures Starts(sites, f) == [] {
        assert Group(triples, f) == [];
      }
      return 0, [];
    }
    field := BestField(triples);
    assert Group(triples, field) == Starts(sites, field);
    forall other: nat | other != field
      ensures Better(sites, field, other)
    {
      assert Group(triples, other) == Starts(sites, other);
    }
    StartsSpaced(sites, field);
    FlatIncreasing(triples[field]);
    SortedUniqueOfIncreasing(Flat(triples[field]));
    indices := SortedUnique(Flat(triples[field]), Below());
  }

  // ---- what is handed to the patcher ----

  /** The instructions as they lie in the loaded module. */
  function Targets(base: nat, sites: seq<Site>, indices: seq<nat>): (r: seq<Target>)
    requires forall k | 0 <= k < |indices| :: indices[k] < |sites|
    ensures |r| == |indices|
    ensures forall k | 0 <= k < |indices| ::
      r[k] == Target(base + sites[indices[k]].rva, sites[indices[k]].bytes)
  {
    if indices == [] then []
    else
      var k := indices[|indices| - 1];
      Targets(base, sites, indices[..|indices| - 1]) + [Target(base + sites[k].rva, sites[k].bytes)]
  }

  lemma {:induction false} FlatInRange(sites: seq<Site>, starts: seq<nat>)
    requires forall s <- starts :: IsTriple(sites, s)
    ensures forall k | 0 <= k < |Flat(starts)| :: Flat(starts)[k] < |sites|
  {
    if starts != [] {
      FlatInRange(sites, starts[1..]);
      assert IsTriple(sites, starts[0]);
    }
  }

  lemma SiteBytes(f: Fields, data: seq<byte>, regions: seq<Region>, s: Site)
    requires IsSite(DecoderOf(f, data), data, regions, s)
    ensures |s.bytes| > 0 && s.bytes[0] == 0xf3
  {
    var i := SiteRegion(DecoderOf(f, data), data, regions, s);
    DecodedBytes(f, data, regions[i].raw + (s.rva - regions[i].base), s);
  }

  /** The loaded instructions that are selected lie in memory. */
  predicate InMemory(base: nat, sites: seq<Site>, indices: seq<nat>, size: nat) {
    forall k | 0 <= k < |indices| ::
      indices[k] < |sites| && base + sites[indices[k]].rva + |sites[indices[k]].bytes| <= size
  }

  /** What the decoder finds in sections that are apart, and the selection picks, meets what the
      patcher needs, as far as it lies in memory. */
  lemma SelectedAreGood(f: Fields, data: seq<byte>, regions: seq<Region>, base: nat, sites: seq<Site>, field: nat,
                        size: nat)
    requires Plausible(f) && Apart(regions) && AscendingSites(sites)
    requires forall s :: s in sites ==> IsSite(DecoderOf(f, data), data, regions, s)
    requires InMemory(base, sites, Flat(Starts(sites, field)), size)
    ensures GoodTargets(Targets(base, sites, Flat(Starts(sites, field))), size)
  {
    FoundDisjoint(f, data, regions, sites);
    var starts := Starts(sites, field);
    StartsSpaced(sites, field);
    FlatIncreasing(starts);
    var (indices, targets) := (Flat(starts), Targets(base, sites, Flat(starts)));
    forall k | 0 <= k < |targets|
      ensures |targets[k].bytes| > 0 && targets[k].bytes[0] == 0xf3
      ensures targets[k].address + |targets[k].bytes| <= size
    {
      assert indices[k] < |sites| && sites[indices[k]] in sites;
      SiteBytes(f, data, regions, sites[indices[k]]);
    }
    TargetsApart(base, sites, indices);
  }

  lemma TargetsApart(base: nat, sites: seq<Site>, indices: seq<nat>)
    requires DisjointSites(sites) && Increasing(indices)
    requires forall k | 0 <= k < |indices| :: indices[k] < |sites|
    ensures var targets := Targets(base, sites, indices);
      forall i, j | 0 <= i < j < |targets| :: targets[i].address + |targets[i].bytes| <= targets[j].address
  {
    var targets := Targets(base, sites, indices);
    forall i, j | 0 <= i < j < |targets|
      ensures targets[i].address + |targets[i].bytes| <= targets[j].address
    {
      assert indices[i] < indices[j] < |sites|;
    }
  }

  /** The instructions to patch: decoded, selected, and lying in memory. */
  method Resolve(base: nat, data: seq<byte>, regions: seq<Region>, size: nat)
      returns (targets: Option<seq<Target>>, sites: seq<Site>, field: nat)
    requires AllInFile(|data|, regions) && Apart(regions)
    ensures forall s :: s in sites <==> IsSite(DecoderOf(WINDOWS_FIELDS, data), data, regions, s)
    ensures targets.Some? ==> Leads(sites, field) && InMemory(base, sites, Flat(Starts(sites, field)), size)
    ensures targets.Some? ==> targets.value == Targets(base, sites, Flat(Starts(sites, field)))
    ensures targets.Some? ==> GoodTargets(targets.value, size)
  {
    sites := FindAddss(WINDOWS_FIELDS, data, regions, DecoderOf(WINDOWS_FIELDS, data));
    field := 0;
    forall s ensures s in sites <==> IsSite(DecoderOf(WINDOWS_FIELDS, data), data, regions, s) {
      FoundExact(DecoderOf(WINDOWS_FIELDS, data), data, regions, sites, s);
    }
    var selection := SelectPunchSites(sites);
    if !selection.Selected? {
      return None, sites, field;
    }
    field := selection.field;
    if !InMemory(base, sites, selection.indices, size) {
      return None, sites, field;
    }
    SelectedAreGood(WINDOWS_FIELDS, data, regions, base, sites, field, size);
    targets := Some(Targets(base, sites, selection.indices));
  }

  /** viewpunch `Hooks::install` from end to end: decode, select, check, prepare, and enable if asked.
      Without hooks and without the DIRTY flag, memory is as before. */
  method Install(os: Memory, base: nat, data: seq<byte>, regions: seq<Region>, enabled: bool)
      returns (hooks: PatchGroup?, dirty: bool, ghost sites: seq<Site>, field: nat)
    requires os.Valid() && AllInFile(|data|, regions) && Apart(regions)
    modifies os
    ensures forall s :: s in sites <==> IsSite(DecoderOf(WINDOWS_FIELDS, data), data, regions, s)
    ensures hooks != null ==> fresh(hooks) && hooks.Valid() && hooks.os == os && hooks.enabled == dirty == enabled
    ensures hooks != null ==> Leads(sites, field) && InState(hooks.View(), enabled)
    ensures hooks != null ==> InMemory(base, sites, Flat(Starts(sites, field)), |old(os.bytes)|)
    ensures hooks != null ==> Patches(hooks.patches, Targets(base, sites, Flat(Starts(sites, field))))
    ensures hooks == null && !dirty ==> os.bytes == old(os.bytes)
  {
    var targets, found, chosen := Resolve(base, data, regions, |os.bytes|);
    sites, field := found, chosen;
    if targets.None? {
      return null, false, sites, field;
    }
    hooks, dirty := InstallGroup(os, targets.value, enabled);
  }

  /** One patch for each instruction, in order. */
  ghost predicate Patches(patches: seq<Patch>, targets: seq<Target>) {
    && |patches| == |targets|
    && forall k | 0 <= k < |targets| ::
      patches[k].address == targets[k].address && patches[k].original == targets[k].bytes
  }
}
