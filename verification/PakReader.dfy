/** Extracting the case-broken entries of a map's archive as lower-case loose files. */
module PakReader {
  import opened Bytes
  import opened PakPaths

  const EOCD_SIG: nat := 0x0605_4b50
  const CDIR_SIG: nat := 0x0201_4b50
  const LOCAL_SIG: nat := 0x0403_4b50
  const EOCD_LEN: nat := 22
  const MAX_COMMENT: nat := 65535
  const CENTRAL_LEN: nat := 46
  const LOCAL_LEN: nat := 30

  // ---- the directory of loose files ----

  type Files = map<Path, seq<byte>>

  predicate IsUnder(dir: Path, p: Path) {
    |dir| < |p| && p[|dir|] == SLASH && p[..|dir|] == dir
  }

  /** A file is there, or a directory that some file implies. */
  predicate Exists(files: Files, p: Path) {
    p in files || exists q :: q in files && IsUnder(p, q)
  }

  /** A parent directory cannot be made, because a file has its name. */
  predicate Blocked(files: Files, p: Path) {
    exists q :: q in files && IsUnder(q, p)
  }

  // ---- reading the archive ----

  /** The last end-of-directory record: where the directory starts, and how many entries. */
  datatype Directory = Directory(offset: nat, count: nat)

  function EocdAt(blob: seq<byte>, i: nat): Option<Directory> {
    if Rd(blob, i, 4) != Some(EOCD_SIG) then None
    else
      var (count, offset) := (Rd(blob, i + 10, 2), Rd(blob, i + 16, 4));
      if count.None? || offset.None? then None else Some(Directory(offset.value, count.value))
  }

  function EocdFrom(blob: seq<byte>, lo: nat, i: nat): Option<Directory>
    requires lo <= i
    decreases i
  {
    if EocdAt(blob, i).Some? then EocdAt(blob, i)
    else if i == lo then None
    else EocdFrom(blob, lo, i - 1)
  }

  function FindEocd(blob: seq<byte>): Option<Directory> {
    if |blob| < EOCD_LEN then None
    else
      var hi := |blob| - EOCD_LEN;
      EocdFrom(blob, if hi < MAX_COMMENT then 0 else hi - MAX_COMMENT, hi)
  }

  datatype Central = Central(compression: nat, compSize: nat, uncompSize: nat,
                             name: seq<byte>, localOffset: nat, next: nat)

  /** The directory entry at `p`, or none where the walk stops. */
  function ReadCentral(blob: seq<byte>, p: nat): Option<Central> {
    if Rd(blob, p, 4) != Some(CDIR_SIG) || p + CENTRAL_LEN > |blob| then None
    else
      var nameLen := Rd(blob, p + 28, 2).value;
      if p + CENTRAL_LEN + nameLen > |blob| then None
      else
        Some(Central(Rd(blob, p + 10, 2).value, Rd(blob, p + 20, 4).value, Rd(blob, p + 24, 4).value,
                     blob[p + CENTRAL_LEN..p + CENTRAL_LEN + nameLen], Rd(blob, p + 42, 4).value,
                     p + CENTRAL_LEN + nameLen + Rd(blob, p + 30, 2).value + Rd(blob, p + 32, 2).value))
  }

  /** The bytes of a stored entry, found through its local header. */
  function StoredData(blob: seq<byte>, c: Central): (r: Option<seq<byte>>)
    ensures r.Some? ==> |r.value| == c.compSize
  {
    if c.compression != 0 || c.compSize != c.uncompSize then None
    else if Rd(blob, c.localOffset, 4) != Some(LOCAL_SIG) || c.localOffset + LOCAL_LEN > |blob| then None
    else
      var at := c.localOffset + LOCAL_LEN
              + Rd(blob, c.localOffset + 26, 2).value + Rd(blob, c.localOffset + 28, 2).value;
      if at + c.compSize > |blob| then None else Some(blob[at..at + c.compSize])
  }

  // ---- the archive inside a map file ----

  const LUMP_PAKFILE: nat := 40
  const BSP_HEADER_LEN: nat := 8 + 64 * 16
  const MAX_PAK_LEN: nat := 0x1000_0000

  /** "VBSP". */
  const BSP_MAGIC: seq<byte> := [0x56, 0x42, 0x53, 0x50]

  datatype Pak = NoPak | BadMap | Archive(blob: seq<byte>)

  function PakOf(bsp: seq<byte>): Pak {
    if |bsp| < BSP_HEADER_LEN || bsp[..4] != BSP_MAGIC then BadMap
    else
      var lump := 8 + LUMP_PAKFILE * 16;
      var (ofs, len) := (Rd(bsp, lump, 4).value, Rd(bsp, lump + 4, 4).value);
      if len == 0 then NoPak
      else if len > MAX_PAK_LEN || ofs + len > |bsp| then BadMap
      else Archive(bsp[ofs..ofs + len])
  }

  // ---- what is extracted when no file operation fails ----

  /** An archive as the walk sees it: its directory entries by offset, and their stored data. */
  datatype View = View(entry: nat -> Option<Central>, data: Central -> Option<seq<byte>>)

  function ViewOf(blob: seq<byte>): View {
    View((p: nat) => ReadCentral(blob, p), (c: Central) => StoredData(blob, c))
  }

  /** The files after one entry, if it is written. */
  function Extracted(files: Files, data: Option<seq<byte>>, lower: Path): Option<Files> {
    if Exists(files, lower) || data.None? || Blocked(files, lower) then None
    else Some(files[lower := data.value])
  }

  /** Which entries become which loose files, and what storing one does to the files. */
  datatype Rules = Rules(loose: seq<byte> -> Option<Path>, store: (Files, Option<seq<byte>>, Path) -> Option<Files>)

  function LooseRules(): Rules {
    Rules((raw: seq<byte>) => LooseName(raw),
          (files: Files, data: Option<seq<byte>>, lower: Path) => Extracted(files, data, lower))
  }

  function Walk(v: View, rules: Rules, p: nat, count: nat, budget: nat, files: Files): Files
    decreases count
  {
    var c := v.entry(p);
    if count == 0 || c.None? then files
    else
      var lower := rules.loose(c.value.name);
      if lower.None? then Walk(v, rules, c.value.next, count - 1, budget, files)
      else if c.value.compSize > budget then files
      else
        var after := rules.store(files, v.data(c.value), lower.value);
        if after.None? then Walk(v, rules, c.value.next, count - 1, budget, files)
        else Walk(v, rules, c.value.next, count - 1, budget - c.value.compSize, after.value)
  }

  /** The files when no file operation fails. */
  function FilesAfter(blob: seq<byte>, files: Files): Files {
    var dir := FindEocd(blob);
    if dir.None? then files
    else Walk(ViewOf(blob), LooseRules(), dir.value.offset, dir.value.count, |blob|, files)
  }

  // ---- the loose files a run writes, whatever fails ----

  datatype Loose = Loose(path: Path, data: seq<byte>)

  function PutAll(files: Files, written: seq<Loose>): Files {
    if written == [] then files
    else
      var last := written[|written| - 1];
      PutAll(files, written[..|written| - 1])[last.path := last.data]
  }

  function Total(written: seq<Loose>): nat {
    if written == [] then 0 else Total(written[..|written| - 1]) + |written[|written| - 1].data|
  }

  lemma WrittenMore(files: Files, written: seq<Loose>, w: Loose)
    ensures PutAll(files, written + [w]) == PutAll(files, written)[w.path := w.data]
    ensures Total(written + [w]) == Total(written) + |w.data|
  {
    assert (written + [w])[..|written|] == written;
  }

  /** Old files keep their bytes; every new one is at a safe path. */
  ghost predicate OnlyAdds(before: Files, after: Files) {
    && (forall p | p in before :: p in after && after[p] == before[p])
    && (forall p | p in after && p !in before :: SafePath(p))
  }

  /** The download directory. `faulty` lets any file operation fail. */
  class Disk {
    var files: Files
    const faulty: bool

    /** Parent directories, a temporary file and a rename: all of it, or nothing. */
    method Store(path: Path, data: seq<byte>) returns (ok: bool)
      modifies this
      ensures files == if ok then old(files)[path := data] else old(files)
      ensures ok ==> !Blocked(old(files), path)
      ensures !faulty ==> (ok <==> !Blocked(old(files), path))
    {
      var fails: bool := *;
      ok := !Blocked(files, path) && !(faulty && fails);
      if ok {
        files := files[path := data];
      }
    }

    /** `extract_stored`: existing files are left alone before anything else is looked at. */
    method ExtractStored(blob: seq<byte>, c: Central, lower: Path) returns (written: bool)
      requires SafePath(lower)
      modifies this
      ensures written ==> !Exists(old(files), lower) && StoredData(blob, c).Some?
      ensures written ==> files == old(files)[lower := StoredData(blob, c).value]
      ensures !written ==> files == old(files)
      ensures !faulty ==> Extracted(old(files), StoredData(blob, c), lower) == if written then Some(files) else None
    {
      if Exists(files, lower) {
        return false;
      }
      var data := StoredData(blob, c);
      if data.None? {
        return false;
      }
      written := Store(lower, data.value);
    }

    /** One case-broken entry within the budget. */
    method FixEntry(blob: seq<byte>, c: Central, lower: Path, ghost before: Files, ghost written: seq<Loose>)
        returns (ok: bool, ghost written': seq<Loose>)
      requires SafePath(lower) && OnlyAdds(before, files) && files == PutAll(before, written)
      modifies this
      ensures OnlyAdds(before, files) && files == PutAll(before, written')
      ensures Total(written') == Total(written) + if ok then c.compSize else 0
      ensures |written'| == |written| + if ok then 1 else 0
      ensures !faulty ==> Extracted(old(files), StoredData(blob, c), lower) == if ok then Some(files) else None
      ensures !ok ==> files == old(files)
    {
      ok := ExtractStored(blob, c, lower);
      written' := written;
      if ok {
        var w := Loose(lower, StoredData(blob, c).value);
        WrittenMore(before, written, w);
        written' := written + [w];
      }
    }

    /** `fix_bsp` on the archive. Whatever the bytes and whatever fails: nothing existing changes,
        new files are at safe paths, and what is written is no longer than the archive. When no
        file operation fails the result is the walk's. */
    method FixPak(blob: seq<byte>, dir: Directory) returns (extracted: nat, ghost written: seq<Loose>)
      modifies this
      ensures OnlyAdds(old(files), files) && files == PutAll(old(files), written)
      ensures Total(written) <= |blob| && extracted == |written|
      ensures !faulty ==> files == Walk(ViewOf(blob), LooseRules(), dir.offset, dir.count, |blob|, old(files))
    {
      extracted, written := 0, [];
      var budget: nat, p: nat, left: nat := |blob|, dir.offset, dir.count;
      ghost var before := files;
      while left > 0
        invariant OnlyAdds(before, files) && files == PutAll(before, written) && extracted == |written|
        invariant Total(written) + budget == |blob|
        invariant !faulty ==>
          Walk(ViewOf(blob), LooseRules(), p, left, budget, files)
          == Walk(ViewOf(blob), LooseRules(), dir.offset, dir.count, |blob|, before)
        decreases left
      {
        var c := ReadCentral(blob, p);
        if c.None? {
          break;
        }
        var lower := LooseName(c.value.name);
        if lower.Some? {
          if c.value.compSize > budget {
            break;
          }
          LooseNameSafe(c.value.name);
          var ok;
          ok, written := FixEntry(blob, c.value, lower.value, before, written);
          if ok {
            extracted := extracted + 1;
            budget := budget - c.value.compSize;
          }
        }
        p, left := c.value.next, left - 1;
      }
    }

    /** The archive of a map: how many files were written, or none when it has no directory. */
    method FixArchive(blob: seq<byte>) returns (extracted: Option<nat>, ghost written: seq<Loose>)
      modifies this
      ensures OnlyAdds(old(files), files) && files == PutAll(old(files), written) && Total(written) <= |blob|
      ensures extracted.None? <==> FindEocd(blob).None?
      ensures extracted.None? ==> files == old(files) && written == []
      ensures extracted.Some? ==> extracted.value == |written|
      ensures !faulty ==> files == FilesAfter(blob, old(files))
    {
      var dir := FindEocd(blob);
      if dir.None? {
        return None, [];
      }
      var n;
      n, written := FixPak(blob, dir.value);
      extracted := Some(n);
    }

    /** `fix_bsp`: a map without an archive is left alone, a malformed one refused. */
    method FixBsp(bsp: seq<byte>) returns (extracted: Option<nat>, ghost written: seq<Loose>)
      modifies this
      ensures OnlyAdds(old(files), files) && files == PutAll(old(files), written)
      ensures Total(written) <= if PakOf(bsp).Archive? then |PakOf(bsp).blob| else 0
      ensures extracted.Some? ==> extracted.value == |written|
      ensures PakOf(bsp).BadMap? ==> extracted == None
      ensures PakOf(bsp).NoPak? ==> extracted == Some(0)
      ensures PakOf(bsp).Archive? ==> (extracted.None? <==> FindEocd(PakOf(bsp).blob).None?)
      ensures !PakOf(bsp).Archive? || extracted.None? ==> files == old(files)
      ensures !faulty && PakOf(bsp).Archive? ==> files == FilesAfter(PakOf(bsp).blob, old(files))
    {
      if |bsp| < BSP_HEADER_LEN || bsp[..4] != BSP_MAGIC {
        return None, [];
      }
      var lump := 8 + LUMP_PAKFILE * 16;
      var (ofs, len) := (Rd(bsp, lump, 4).value, Rd(bsp, lump + 4, 4).value);
      if len == 0 {
        return Some(0), [];
      }
      if len > MAX_PAK_LEN || ofs + len > |bsp| {
        return None, [];
      }
      extracted, written := FixArchive(bsp[ofs..ofs + len]);
    }
  }
}
