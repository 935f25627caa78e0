/** Finding virtual tables in a Linux module: type name, type information, table, each found by
    the relocations that point at it. */
module ElfVtables {
  import opened Bytes
  import opened HitLists
  import opened ChunkedScan
  import opened NeedleSearch

  const RELA_ENT: nat := 24
  const R_X86_64_RELATIVE: nat := 8
  const MAX_OFFSET_TO_TOP: int := 0x100_0000

  /** How many relocation bytes are read at once: a whole number of entries. */
  const RELA_CHUNK: nat := CHUNK / RELA_ENT * RELA_ENT

  datatype Segment = Segment(off: nat, va: nat, fileSize: nat, memSize: nat, exec: bool, write: bool)

  datatype Table = Table(va: nat, size: nat)

  datatype Elf = Elf(data: seq<byte>, segments: seq<Segment>, rela: seq<Table>)

  function OffsetFrom(segments: seq<Segment>, va: nat, i: nat): Option<nat>
    requires i <= |segments|
    decreases |segments| - i
  {
    if i == |segments| then None
    else
      var s := segments[i];
      if s.va <= va < s.va + s.fileSize then Some(s.off + (va - s.va)) else OffsetFrom(segments, va, i + 1)
  }

  function VaToOffset(m: Elf, va: nat): Option<nat> {
    OffsetFrom(m.segments, va, 0)
  }

  function WordAt(m: Elf, va: nat): Option<nat> {
    var off := VaToOffset(m, va);
    if off.None? then None else Rd(m.data, off.value, 8)
  }

  /** The same word read as a signed number. */
  function SignedAt(m: Elf, va: nat): Option<int> {
    var w := WordAt(m, va);
    if w.None? then None
    else if w.value < 0x8000_0000_0000_0000 then Some(w.value) else Some(w.value - 0x1_0000_0000_0000_0000)
  }

  predicate IsExec(m: Elf, va: nat) {
    exists i :: 0 <= i < |m.segments| && ExecAt(m.segments[i], va)
  }

  predicate ExecAt(s: Segment, va: nat) {
    s.exec && s.va <= va < s.va + s.memSize
  }

  /** The regions of the read-only, not executable segments among the first `n`. */
  function RodataOf(segments: seq<Segment>, n: nat): seq<Region>
    requires n <= |segments|
  {
    if n == 0 then []
    else
      var s := segments[n - 1];
      RodataOf(segments, n - 1) + if !s.exec && !s.write then [Region(s.va, s.off, s.fileSize)] else []
  }

  function Rodata(m: Elf): seq<Region> {
    RodataOf(m.segments, |m.segments|)
  }

  /** Every read that a search makes succeeds. */
  ghost predicate Readable(m: Elf) {
    && AllInFile(|m.data|, Rodata(m))
    && forall k | 0 <= k < |m.rela| && VaToOffset(m, m.rela[k].va).Some? ::
      VaToOffset(m, m.rela[k].va).value + m.rela[k].size <= |m.data|
  }

  // ---- relocations ----

  /** The relocation entry at a file offset makes the slot hold the target. */
  predicate EntryAt(data: seq<byte>, at: nat, targets: seq<nat>, slot: nat) {
    && at + RELA_ENT <= |data|
    && Rd(data, at + 8, 4) == Some(R_X86_64_RELATIVE)
    && Rd(data, at + 16, 8).value in targets && Rd(data, at, 8) == Some(slot)
  }

  /** Some whole entry of a table of `size` bytes does. */
  ghost predicate InTable(data: seq<byte>, base: nat, size: nat, targets: seq<nat>, slot: nat) {
    exists k: nat :: k < size / RELA_ENT && EntryAt(data, base + k * RELA_ENT, targets, slot)
  }

  ghost predicate PointsAt(m: Elf, targets: seq<nat>, slot: nat) {
    exists k :: 0 <= k < |m.rela| && VaToOffset(m, m.rela[k].va).Some?
      && InTable(m.data, VaToOffset(m, m.rela[k].va).value, m.rela[k].size, targets, slot)
  }

  /** One entry of the table. */
  method ReadEntry(data: seq<byte>, at: nat, targets: seq<nat>) returns (slots: seq<nat>)
    requires at + RELA_ENT <= |data|
    ensures forall slot: nat :: slot in slots <==> EntryAt(data, at, targets, slot)
  {
    if Rd(data, at + 8, 4) != Some(R_X86_64_RELATIVE) || Rd(data, at + 16, 8).value !in targets {
      return [];
    }
    return [Rd(data, at, 8).value];
  }

  /** The entries `first..last` of a table, as one read brings them. */
  ghost predicate InEntries(data: seq<byte>, base: nat, first: nat, last: nat, targets: seq<nat>, slot: nat) {
    exists k: nat :: first <= k < last && EntryAt(data, base + k * RELA_ENT, targets, slot)
  }

  method ReadEntries(data: seq<byte>, base: nat, first: nat, last: nat, targets: seq<nat>) returns (slots: seq<nat>)
    requires first <= last && base + last * RELA_ENT <= |data|
    ensures forall slot: nat :: slot in slots <==> InEntries(data, base, first, last, targets, slot)
  {
    slots := [];
    for k := first to last
      invariant forall slot: nat :: slot in slots <==> InEntries(data, base, first, k, targets, slot)
    {
      var more := ReadEntry(data, base + k * RELA_ENT, targets);
      slots := slots + more;
    }
  }

  lemma ChunkEntries(size: nat, done: nat)
    requires done % RELA_ENT == 0 && done < size
    ensures var want := if size - done < RELA_CHUNK then size - done else RELA_CHUNK;
      && done / RELA_ENT + want / RELA_ENT == (done + want) / RELA_ENT
      && (done + want < size ==> (done + want) % RELA_ENT == 0)
  {
    assert RELA_CHUNK == 43690 * RELA_ENT;
  }

  /** A table is read in chunks of whole entries; a partial entry at its end is ignored. */
  method ReadTable(data: seq<byte>, base: nat, size: nat, targets: seq<nat>) returns (slots: seq<nat>)
    requires base + size <= |data|
    ensures forall slot: nat :: slot in slots <==> InTable(data, base, size, targets, slot)
  {
    slots := [];
    var done := 0;
    while done < size
      invariant done <= size && (done < size ==> done % RELA_ENT == 0)
      invariant forall slot: nat :: slot in slots <==> InEntries(data, base, 0, done / RELA_ENT, targets, slot)
    {
      var want := if size - done < RELA_CHUNK then size - done else RELA_CHUNK;
      ChunkEntries(size, done);
      var first, last := done / RELA_ENT, (done + want) / RELA_ENT;
      var more := ReadEntries(data, base, first, last, targets);
      slots := slots + more;
      done := done + want;
    }
  }

  /** Every slot that a relocation makes point at one of the targets: ascending, each once. */
  method RelativeTo(m: Elf, targets: seq<nat>) returns (slots: seq<nat>)
    requires Readable(m)
    ensures Ascending(slots, Below())
    ensures forall slot: nat :: slot in slots <==> PointsAt(m, targets, slot)
  {
    slots := [];
    if targets == [] {
      return;
    }
    for k := 0 to |m.rela|
      invariant forall slot: nat :: slot in slots <==>
        exists j :: 0 <= j < k && VaToOffset(m, m.rela[j].va).Some?
          && InTable(m.data, VaToOffset(m, m.rela[j].va).value, m.rela[j].size, targets, slot)
    {
      var base := VaToOffset(m, m.rela[k].va);
      if base.Some? {
        var more := ReadTable(m.data, base.value, m.rela[k].size, targets);
        slots := slots + more;
      }
    }
    forall slot: nat
      ensures slot in SortedUnique(slots, Below()) <==> PointsAt(m, targets, slot)
    {
      SortedUniqueMember(slots, Below(), slot);
    }
    SortedUniqueAscending(slots, Below());
    slots := SortedUnique(slots, Below());
  }

  // ---- from name to table ----

  datatype SubTable = SubTable(slot: nat, offsetToTop: int)

  function SubTableBelow(): (SubTable, SubTable) -> bool {
    (a: SubTable, b: SubTable) => a.slot < b.slot || (a.slot == b.slot && a.offsetToTop < b.offsetToTop)
  }

  lemma SubTableOrder()
    ensures StrictOrder(SubTableBelow())
  {
    forall a: SubTable, b: SubTable | a.slot == b.slot && a.offsetToTop == b.offsetToTop
      ensures a == b
    {
    }
  }

  /** The name string, whole: between two zero bytes in read-only data. */
  ghost predicate IsName(m: Elf, mangled: seq<byte>, name: nat)
    requires Readable(m)
  {
    name > 0 && Stands([0] + mangled + [0], m.data, Rodata(m), name - 1)
  }

  /** The type-information slot of a table: the first virtual is code, and the offset to top just
      below it is small and not positive. */
  predicate Shaped(m: Elf, t: SubTable) {
    && WordAt(m, t.slot + 8).Some? && IsExec(m, WordAt(m, t.slot + 8).value)
    && t.slot >= 8 && SignedAt(m, t.slot - 8) == Some(t.offsetToTop)
    && -MAX_OFFSET_TO_TOP < t.offsetToTop <= 0
  }

  /** The names, then the objects eight before the slots that point at them. */
  ghost predicate NamesAre(m: Elf, mangled: seq<byte>, names: seq<nat>)
    requires Readable(m)
  {
    forall n: nat :: n in names <==> IsName(m, mangled, n)
  }

  ghost predicate InfosAre(m: Elf, names: seq<nat>, infos: seq<nat>) {
    forall i: nat :: i in infos <==> PointsAt(m, names, i + 8)
  }

  method Names(m: Elf, mangled: seq<byte>) returns (names: seq<nat>)
    requires Readable(m)
    ensures NamesAre(m, mangled, names)
  {
    var needle := [0] + mangled + [0];
    FoundExactly(needle, m.data, Rodata(m));
    var found := FindAllAddresses(Reader.Elf, m.data, Rodata(m), needle);
    names := [];
    for i := 0 to |found|
      invariant forall n: nat :: n in names <==> n > 0 && n - 1 in found[..i]
    {
      assert found[..i + 1] == found[..i] + [found[i]];
      names := names + [found[i] + 1];
    }
    assert found[..|found|] == found;
  }

  method Infos(m: Elf, names: seq<nat>) returns (infos: seq<nat>)
    requires Readable(m)
    ensures InfosAre(m, names, infos)
  {
    var slots := RelativeTo(m, names);
    infos := Back(slots, 8);
    forall i: nat ensures i in infos <==> PointsAt(m, names, i + 8) {
      BackMember(slots, 8, i);
    }
  }

  method ShapeOf(m: Elf, slot: nat) returns (t: seq<SubTable>)
    ensures forall s :: s in t <==> s.slot == slot && Shaped(m, s)
  {
    var first := WordAt(m, slot + 8);
    if first.None? || !IsExec(m, first.value) || slot < 8 {
      return [];
    }
    var otop := SignedAt(m, slot - 8);
    if otop.None? || !(-MAX_OFFSET_TO_TOP < otop.value <= 0) {
      return [];
    }
    return [SubTable(slot, otop.value)];
  }

  /** Sound and complete: exactly the slots of the right shape that a relocation makes point at a
      type-information object of the class; ascending, each once. */
  method Vtables(m: Elf, mangled: seq<byte>) returns (out: seq<SubTable>, ghost names: seq<nat>, ghost infos: seq<nat>)
    requires Readable(m)
    ensures NamesAre(m, mangled, names) && InfosAre(m, names, infos)
    ensures forall t :: t in out <==> PointsAt(m, infos, t.slot) && Shaped(m, t)
    ensures Ascending(out, SubTableBelow())
  {
    var foundNames := Names(m, mangled);
    var foundInfos := Infos(m, foundNames);
    names, infos := foundNames, foundInfos;
    var slots := RelativeTo(m, foundInfos);
    out := [];
    for i := 0 to |slots|
      invariant forall t :: t in out <==> t.slot in slots[..i] && Shaped(m, t)
    {
      assert slots[..i + 1] == slots[..i] + [slots[i]];
      var more := ShapeOf(m, slots[i]);
      out := out + more;
    }
    assert slots[..|slots|] == slots;
    forall t
      ensures t in SortedUnique(out, SubTableBelow()) <==> PointsAt(m, infos, t.slot) && Shaped(m, t)
    {
      SortedUniqueMember(out, SubTableBelow(), t);
    }
    SubTableOrder();
    SortedUniqueAscending(out, SubTableBelow());
    out := SortedUnique(out, SubTableBelow());
  }
}
