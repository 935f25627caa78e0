/** Writing a stored archive by the zip application note, and reading it back. */
module PakArchive {
  import opened Bytes
  import opened PakPaths
  import opened PakReader

  /** An entry with the fields the reader ignores left free: versions and flags, time stamp and
      checksum, attributes, extra fields and comment. */
  datatype Entry = Entry(name: seq<byte>, data: seq<byte>, versions: seq<byte>, stamp: seq<byte>,
                         attributes: seq<byte>, localVersions: seq<byte>, localExtra: seq<byte>,
                         centralExtra: seq<byte>, comment: seq<byte>)

  predicate Fits(e: Entry) {
    && |e.name| < 0x1_0000 && |e.localExtra| < 0x1_0000 && |e.centralExtra| < 0x1_0000 && |e.comment| < 0x1_0000
    && |e.data| < 0x1_0000_0000 && |e.versions| == 6 && |e.stamp| == 8 && |e.attributes| == 8 && |e.localVersions| == 4
  }

  // ---- the records, section 4.3.7, 4.3.12 and 4.3.16 of the note ----

  function LocalHead(e: Entry): seq<byte>
  {
    LeBytes(LOCAL_SIG, 4) + e.localVersions + LeBytes(0, 2) + e.stamp + LeBytes(|e.data|, 4) + LeBytes(|e.data|, 4)
  }

  function Local(e: Entry): seq<byte>
  {
    LocalHead(e) + LeBytes(|e.name|, 2) + LeBytes(|e.localExtra|, 2) + (e.name + e.localExtra + e.data)
  }

  function CentralHead(e: Entry): seq<byte>
  {
    LeBytes(CDIR_SIG, 4) + e.versions + LeBytes(0, 2) + e.stamp
  }

  function CentralSizes(e: Entry): seq<byte>
  {
    CentralHead(e) + LeBytes(|e.data|, 4) + LeBytes(|e.data|, 4) + LeBytes(|e.name|, 2)
    + LeBytes(|e.centralExtra|, 2) + LeBytes(|e.comment|, 2)
  }

  function CentralRecord(e: Entry, localOffset: nat): seq<byte>
  {
    CentralSizes(e) + e.attributes + LeBytes(localOffset, 4) + (e.name + e.centralExtra + e.comment)
  }

  /** The end record, with an empty comment. */
  function EndRecord(count: nat, size: nat, offset: nat): seq<byte>
  {
    LeBytes(EOCD_SIG, 4) + LeBytes(0, 4) + LeBytes(count, 2) + LeBytes(count, 2) + LeBytes(size, 4)
    + LeBytes(offset, 4) + LeBytes(0, 2)
  }

  // ---- reading a field of a record ----

  predicate Reads(b: seq<byte>, at: nat, w: nat, n: nat) {
    Rd(b, at, w) == Some(n)
  }

  lemma Last(a: seq<byte>, n: nat, w: nat)
    requires n < Pow256(w)
    ensures Reads(a + LeBytes(n, w), |a|, w, n)
  {
    RdEncoded(a + LeBytes(n, w), |a|, n, w);
  }

  lemma Keep(a: seq<byte>, tail: seq<byte>, at: nat, w: nat, n: nat)
    requires Reads(a, at, w, n)
    ensures Reads(a + tail, at, w, n)
  {
    assert (a + tail)[at..at + w] == a[at..at + w];
  }

  lemma Inside(blob: seq<byte>, p: nat, c: seq<byte>, at: nat, w: nat, n: nat)
    requires p + |c| <= |blob| && blob[p..p + |c|] == c && Reads(c, at, w, n)
    ensures Reads(blob, p + at, w, n)
  {
    var (x, y) := (blob[p + at..p + at + w], c[at..at + w]);
    forall k | 0 <= k < w ensures x[k] == y[k] {
      assert c[at + k] == blob[p..p + |c|][at + k];
    }
    assert x == y;
  }

  lemma CentralHeadReads(e: Entry)
    requires Fits(e)
    ensures |CentralHead(e)| == 20 && Reads(CentralHead(e), 0, 4, CDIR_SIG) && Reads(CentralHead(e), 10, 2, 0)
  {
    Pow256Values();
    var s0 := LeBytes(CDIR_SIG, 4);
    Last([], CDIR_SIG, 4);
    assert [] + s0 == s0;
    Keep(s0, e.versions, 0, 4, CDIR_SIG);
    Keep(s0 + e.versions, LeBytes(0, 2), 0, 4, CDIR_SIG);
    Last(s0 + e.versions, 0, 2);
    Keep(s0 + e.versions + LeBytes(0, 2), e.stamp, 0, 4, CDIR_SIG);
    Keep(s0 + e.versions + LeBytes(0, 2), e.stamp, 10, 2, 0);
  }

  /** One more field after a stretch whose fields are known. */
  lemma SizesReads(e: Entry)
    requires Fits(e)
    ensures var c := CentralSizes(e);
      && |c| == 34 && Reads(c, 0, 4, CDIR_SIG) && Reads(c, 10, 2, 0)
      && Reads(c, 20, 4, |e.data|) && Reads(c, 24, 4, |e.data|) && Reads(c, 28, 2, |e.name|)
      && Reads(c, 30, 2, |e.centralExtra|) && Reads(c, 32, 2, |e.comment|)
  {
    Pow256Values();
    CentralHeadReads(e);
    var (a, d) := (CentralHead(e), LeBytes(|e.data|, 4));
    var (n, x, m) := (LeBytes(|e.name|, 2), LeBytes(|e.centralExtra|, 2), LeBytes(|e.comment|, 2));
    Last(a, |e.data|, 4);
    Last(a + d, |e.data|, 4);
    Last(a + d + d, |e.name|, 2);
    Last(a + d + d + n, |e.centralExtra|, 2);
    Last(a + d + d + n + x, |e.comment|, 2);
    KeepFive(a, d, d, n, x, m, 0, 4, CDIR_SIG);
    KeepFive(a, d, d, n, x, m, 10, 2, 0);
    Keep(a + d, d, 20, 4, |e.data|);
    Keep(a + d + d, n, 20, 4, |e.data|);
    Keep(a + d + d, n, 24, 4, |e.data|);
    Keep(a + d + d + n, x, 20, 4, |e.data|);
    Keep(a + d + d + n, x, 24, 4, |e.data|);
    Keep(a + d + d + n, x, 28, 2, |e.name|);
    Keep(a + d + d + n + x, m, 20, 4, |e.data|);
    Keep(a + d + d + n + x, m, 24, 4, |e.data|);
    Keep(a + d + d + n + x, m, 28, 2, |e.name|);
    Keep(a + d + d + n + x, m, 30, 2, |e.centralExtra|);
  }

  lemma KeepFive(a: seq<byte>, b: seq<byte>, c: seq<byte>, d: seq<byte>, e: seq<byte>, f: seq<byte>,
                 at: nat, w: nat, n: nat)
    requires Reads(a, at, w, n)
    ensures Reads(a + b + c + d + e + f, at, w, n)
  {
    Keep(a, b, at, w, n);
    Keep(a + b, c, at, w, n);
    Keep(a + b + c, d, at, w, n);
    Keep(a + b + c + d, e, at, w, n);
    Keep(a + b + c + d + e, f, at, w, n);
  }

  lemma KeepThree(a: seq<byte>, b: seq<byte>, c: seq<byte>, d: seq<byte>, at: nat, w: nat, n: nat)
    requires Reads(a, at, w, n)
    ensures Reads(a + b + c + d, at, w, n)
  {
    Keep(a, b, at, w, n);
    Keep(a + b, c, at, w, n);
    Keep(a + b + c, d, at, w, n);
  }

  /** What the fields of a directory record at `p` read as. */
  ghost predicate CentralFields(blob: seq<byte>, p: nat, e: Entry, ofs: nat) {
    && Reads(blob, p, 4, CDIR_SIG) && Reads(blob, p + 10, 2, 0)
    && Reads(blob, p + 20, 4, |e.data|) && Reads(blob, p + 24, 4, |e.data|) && Reads(blob, p + 28, 2, |e.name|)
    && Reads(blob, p + 30, 2, |e.centralExtra|) && Reads(blob, p + 32, 2, |e.comment|) && Reads(blob, p + 42, 4, ofs)
    && p + CENTRAL_LEN + |e.name| <= |blob| && blob[p + CENTRAL_LEN..p + CENTRAL_LEN + |e.name|] == e.name
  }

  ghost predicate IsCentral(c: seq<byte>, e: Entry, ofs: nat) {
    CentralFields(c, 0, e, ofs) && |c| == CENTRAL_LEN + |e.name| + |e.centralExtra| + |e.comment|
  }

  lemma CentralReads(e: Entry, ofs: nat)
    requires Fits(e) && ofs < 0x1_0000_0000
    ensures IsCentral(CentralRecord(e, ofs), e, ofs)
  {
    Pow256Values();
    SizesReads(e);
    var (a, b, o, tail) := (CentralSizes(e), e.attributes, LeBytes(ofs, 4), e.name + e.centralExtra + e.comment);
    Last(a + b, ofs, 4);
    Keep(a + b + o, tail, 42, 4, ofs);
    KeepThree(a, b, o, tail, 0, 4, CDIR_SIG);
    KeepThree(a, b, o, tail, 10, 2, 0);
    KeepThree(a, b, o, tail, 20, 4, |e.data|);
    KeepThree(a, b, o, tail, 24, 4, |e.data|);
    KeepThree(a, b, o, tail, 28, 2, |e.name|);
    KeepThree(a, b, o, tail, 30, 2, |e.centralExtra|);
    KeepThree(a, b, o, tail, 32, 2, |e.comment|);
    assert |a + b + o| == CENTRAL_LEN;
    assert CentralRecord(e, ofs) == (a + b + o) + tail;
    assert tail[..|e.name|] == e.name;
  }

  lemma FieldsInside(blob: seq<byte>, p: nat, c: seq<byte>, e: Entry, ofs: nat)
    requires p + |c| <= |blob| && blob[p..p + |c|] == c && CentralFields(c, 0, e, ofs)
    ensures CentralFields(blob, p, e, ofs)
  {
    Inside(blob, p, c, 0, 4, CDIR_SIG);
    Inside(blob, p, c, 10, 2, 0);
    Inside(blob, p, c, 20, 4, |e.data|);
    Inside(blob, p, c, 24, 4, |e.data|);
    Inside(blob, p, c, 28, 2, |e.name|);
    Inside(blob, p, c, 30, 2, |e.centralExtra|);
    Inside(blob, p, c, 32, 2, |e.comment|);
    Inside(blob, p, c, 42, 4, ofs);
    SliceInside(blob, p, c, CENTRAL_LEN, |e.name|);
  }

  lemma FieldsReadBack(blob: seq<byte>, p: nat, e: Entry, ofs: nat)
    requires CentralFields(blob, p, e, ofs)
    ensures ReadCentral(blob, p) == Some(Central(0, |e.data|, |e.data|, e.name, ofs,
                                                 p + CENTRAL_LEN + |e.name| + |e.centralExtra| + |e.comment|))
  {
  }

  lemma SliceInside(blob: seq<byte>, p: nat, c: seq<byte>, at: nat, n: nat)
    requires p + |c| <= |blob| && blob[p..p + |c|] == c && at + n <= |c|
    ensures blob[p + at..p + at + n] == c[at..at + n]
  {
    var (x, y) := (blob[p + at..p + at + n], c[at..at + n]);
    forall k | 0 <= k < n ensures x[k] == y[k] {
      assert c[at + k] == blob[p..p + |c|][at + k];
    }
    assert x == y;
  }

  ghost predicate LocalFields(blob: seq<byte>, p: nat, e: Entry) {
    && Reads(blob, p, 4, LOCAL_SIG) && Reads(blob, p + 26, 2, |e.name|) && Reads(blob, p + 28, 2, |e.localExtra|)
    && p + LOCAL_LEN + |e.name| + |e.localExtra| + |e.data| <= |blob|
    && blob[p + LOCAL_LEN + |e.name| + |e.localExtra|..p + LOCAL_LEN + |e.name| + |e.localExtra| + |e.data|] == e.data
  }

  lemma LocalHeadReads(e: Entry)
    requires Fits(e)
    ensures |LocalHead(e)| == 26 && Reads(LocalHead(e), 0, 4, LOCAL_SIG)
  {
    Pow256Values();
    var s0 := LeBytes(LOCAL_SIG, 4);
    var d := LeBytes(|e.data|, 4);
    Last([], LOCAL_SIG, 4);
    assert [] + s0 == s0;
    KeepFive(s0, e.localVersions, LeBytes(0, 2), e.stamp, d, d, 0, 4, LOCAL_SIG);
  }

  lemma LocalReads(e: Entry)
    requires Fits(e)
    ensures LocalFields(Local(e), 0, e)
  {
    Pow256Values();
    LocalHeadReads(e);
    var (a, n, x) := (LocalHead(e), LeBytes(|e.name|, 2), LeBytes(|e.localExtra|, 2));
    var tail := e.name + e.localExtra + e.data;
    KeepThree(a, n, x, tail, 0, 4, LOCAL_SIG);
    Last(a, |e.name|, 2);
    Last(a + n, |e.localExtra|, 2);
    Keep(a + n, x, 26, 2, |e.name|);
    Keep(a + n + x, tail, 26, 2, |e.name|);
    Keep(a + n + x, tail, 28, 2, |e.localExtra|);
    assert |a + n + x| == LOCAL_LEN && Local(e) == (a + n + x) + tail;
    assert tail[|e.name| + |e.localExtra|..] == e.data;
  }

  lemma LocalInside(blob: seq<byte>, p: nat, l: seq<byte>, e: Entry)
    requires p + |l| <= |blob| && blob[p..p + |l|] == l && LocalFields(l, 0, e)
    ensures LocalFields(blob, p, e)
  {
    Inside(blob, p, l, 0, 4, LOCAL_SIG);
    Inside(blob, p, l, 26, 2, |e.name|);
    Inside(blob, p, l, 28, 2, |e.localExtra|);
    SliceInside(blob, p, l, LOCAL_LEN + |e.name| + |e.localExtra|, |e.data|);
  }

  lemma DataReadBack(blob: seq<byte>, p: nat, e: Entry, c: Central)
    requires LocalFields(blob, p, e)
    requires c.compression == 0 && c.compSize == c.uncompSize == |e.data| && c.localOffset == p
    ensures StoredData(blob, c) == Some(e.data)
  {
  }

  lemma EndReadBack(blob: seq<byte>, p: nat, count: nat, size: nat, offset: nat)
    requires count < 0x1_0000 && size < 0x1_0000_0000 && offset < 0x1_0000_0000
    requires p + EOCD_LEN <= |blob| && blob[p..p + EOCD_LEN] == EndRecord(count, size, offset)
    ensures EocdAt(blob, p) == Some(Directory(offset, count))
  {
    Pow256Values();
    var s0 := LeBytes(EOCD_SIG, 4);
    var (z, n, s, o, m) := (LeBytes(0, 4), LeBytes(count, 2), LeBytes(size, 4), LeBytes(offset, 4), LeBytes(0, 2));
    Last([], EOCD_SIG, 4);
    assert [] + s0 == s0;
    KeepFive(s0, z, n, n, s, o, 0, 4, EOCD_SIG);
    Keep(s0 + z + n + n + s + o, m, 0, 4, EOCD_SIG);
    Last(s0 + z + n, count, 2);
    KeepThree(s0 + z + n + n, s, o, m, 10, 2, count);
    Last(s0 + z + n + n + s, offset, 4);
    Keep(s0 + z + n + n + s + o, m, 16, 4, offset);
    var c := EndRecord(count, size, offset);
    Inside(blob, p, c, 0, 4, EOCD_SIG);
    Inside(blob, p, c, 10, 2, count);
    Inside(blob, p, c, 16, 4, offset);
  }

  // ---- the whole archive ----

  /** The first `n` parts, one after the other. */
  function Join(parts: seq<seq<byte>>, n: nat): seq<byte>
    requires n <= |parts|
  {
    if n == 0 then [] else Join(parts, n - 1) + parts[n - 1]
  }

  /** The piece is in the file at this offset. */
  predicate LiesAt(blob: seq<byte>, at: nat, piece: seq<byte>) {
    at + |piece| <= |blob| && forall k | 0 <= k < |piece| :: piece[k] == blob[at + k]
  }

  lemma LiesSlice(blob: seq<byte>, at: nat, piece: seq<byte>)
    requires LiesAt(blob, at, piece)
    ensures blob[at..at + |piece|] == piece
  {
  }

  lemma LiesMore(a: seq<byte>, b: seq<byte>, at: nat, piece: seq<byte>)
    requires LiesAt(a, at, piece)
    ensures LiesAt(a + b, at, piece)
  {
  }

  lemma LiesShifted(a: seq<byte>, b: seq<byte>, tail: seq<byte>, at: nat, piece: seq<byte>)
    requires LiesAt(b, at, piece)
    ensures LiesAt(a + b + tail, |a| + at, piece)
  {
    forall k | 0 <= k < |piece| ensures piece[k] == (a + b + tail)[|a| + at + k] {
      assert (a + b + tail)[|a| + at + k] == (a + b)[|a| + at + k] == b[at + k];
    }
  }

  /** `f` gives the joined prefixes of the parts. */
  ghost predicate Builds(f: nat -> seq<byte>, parts: seq<seq<byte>>) {
    forall m {:trigger parts[m]} | 0 <= m < |parts| :: f(m + 1) == f(m) + parts[m]
  }

  lemma {:induction false} Placed(f: nat -> seq<byte>, parts: seq<seq<byte>>, i: nat, n: nat)
    requires i < n <= |parts| && Builds(f, parts)
    ensures LiesAt(f(n), |f(i)|, parts[i])
  {
    if i < n - 1 {
      Placed(f, parts, i, n - 1);
      assert f(n) == f(n - 1) + parts[n - 1];
      LiesMore(f(n - 1), parts[n - 1], |f(i)|, parts[i]);
    } else {
      assert LiesAt(f(i) + parts[i], |f(i)|, parts[i]);
    }
  }

  /** The local records of the first `n` entries. */
  function LocalsOf(es: seq<Entry>, n: nat): (r: seq<seq<byte>>)
    requires n <= |es|
    ensures |r| == n
  {
    if n == 0 then [] else LocalsOf(es, n - 1) + [Local(es[n - 1])]
  }

  function Locals(es: seq<Entry>): (r: seq<seq<byte>>)
    ensures |r| == |es|
  {
    LocalsOf(es, |es|)
  }

  /** Their directory records, each with the offset of its local record. */
  function CentralsOf(es: seq<Entry>, n: nat): (r: seq<seq<byte>>)
    requires n <= |es|
    ensures |r| == n
  {
    if n == 0 then []
    else CentralsOf(es, n - 1) + [CentralRecord(es[n - 1], |Join(Locals(es), n - 1)|)]
  }

  function Centrals(es: seq<Entry>): (r: seq<seq<byte>>)
    ensures |r| == |es|
  {
    CentralsOf(es, |es|)
  }

  lemma {:induction false} LocalAt(es: seq<Entry>, n: nat, i: nat)
    requires i < n <= |es| && Fits(es[i])
    ensures LocalFields(LocalsOf(es, n)[i], 0, es[i])
  {
    if i < n - 1 {
      LocalAt(es, n - 1, i);
    } else {
      LocalReads(es[i]);
    }
  }

  lemma {:induction false} CentralAt(es: seq<Entry>, n: nat, i: nat)
    requires i < n <= |es| && Fits(es[i]) && |Join(Locals(es), i)| < 0x1_0000_0000
    ensures IsCentral(CentralsOf(es, n)[i], es[i], |Join(Locals(es), i)|)
  {
    if i < n - 1 {
      CentralAt(es, n - 1, i);
    } else {
      CentralReads(es[i], |Join(Locals(es), i)|);
    }
  }

  lemma RecordsAt(es: seq<Entry>, i: nat)
    requires i < |es| && Fits(es[i]) && |Join(Locals(es), i)| < 0x1_0000_0000
    ensures LocalFields(Locals(es)[i], 0, es[i])
    ensures IsCentral(Centrals(es)[i], es[i], |Join(Locals(es), i)|)
  {
    LocalAt(es, |es|, i);
    CentralAt(es, |es|, i);
  }

  function Bound(locals: seq<byte>, directory: seq<byte>, n: nat): seq<byte> {
    locals + directory + EndRecord(n, |directory|, |locals|)
  }

  function Serialise(es: seq<Entry>): seq<byte> {
    Bound(Join(Locals(es), |es|), Join(Centrals(es), |es|), |es|)
  }

  /** Small enough to be written, and for the reader to accept. */
  ghost predicate Writable(es: seq<Entry>) {
    |es| < 0x1_0000 && |Serialise(es)| <= MAX_PAK_LEN && forall i | 0 <= i < |es| :: Fits(es[i])
  }

  /** Where the walk is when it has passed `i` entries. */
  function DirectoryAt(es: seq<Entry>, i: nat): nat
    requires i <= |es|
  {
    |Join(Locals(es), |es|)| + |Join(Centrals(es), i)|
  }

  /** What the walk sees of an entry at `p`: its name, size, data and where the next one starts. */
  ghost predicate Seen(v: View, p: nat, e: Entry, next: nat) {
    && v.entry(p).Some? && v.entry(p).value.name == e.name && v.entry(p).value.compSize == |e.data|
    && v.entry(p).value.next == next && v.data(v.entry(p).value) == Some(e.data)
  }

  lemma CentralSeen(blob: seq<byte>, p: nat, e: Entry, ofs: nat, central: seq<byte>)
    requires IsCentral(central, e, ofs) && LiesAt(blob, p, central)
    ensures CentralFields(blob, p, e, ofs)
  {
    LiesSlice(blob, p, central);
    FieldsInside(blob, p, central, e, ofs);
  }

  lemma LocalSeen(blob: seq<byte>, ofs: nat, e: Entry, local: seq<byte>)
    requires LocalFields(local, 0, e) && LiesAt(blob, ofs, local)
    ensures LocalFields(blob, ofs, e)
  {
    LiesSlice(blob, ofs, local);
    LocalInside(blob, ofs, local, e);
  }

  lemma ReadIsSeen(blob: seq<byte>, p: nat, e: Entry, c: Central)
    requires ReadCentral(blob, p) == Some(c) && StoredData(blob, c) == Some(e.data)
    requires c.name == e.name && c.compSize == |e.data|
    ensures Seen(ViewOf(blob), p, e, c.next)
  {
  }

  lemma RecordsSeen(blob: seq<byte>, p: nat, ofs: nat, e: Entry, local: seq<byte>, central: seq<byte>)
    requires LocalFields(local, 0, e) && IsCentral(central, e, ofs)
    requires LiesAt(blob, p, central) && LiesAt(blob, ofs, local)
    ensures Seen(ViewOf(blob), p, e, p + |central|)
  {
    CentralSeen(blob, p, e, ofs, central);
    FieldsReadBack(blob, p, e, ofs);
    LocalSeen(blob, ofs, e, local);
    var c := Central(0, |e.data|, |e.data|, e.name, ofs, p + |central|);
    DataReadBack(blob, ofs, e, c);
    ReadIsSeen(blob, p, e, c);
  }

  lemma LiesInFile(a: seq<byte>, b: seq<byte>, blob: seq<byte>, x: nat, l: seq<byte>, y: nat, c: seq<byte>)
    requires a + b <= blob && LiesAt(a, x, l) && LiesAt(b, y, c)
    ensures LiesAt(blob, x, l) && LiesAt(blob, |a| + y, c)
  {
    var tail := blob[|a + b|..];
    assert blob == a + b + tail;
    LiesShifted(a, b, tail, y, c);
    LiesMore(a, b, x, l);
    LiesMore(a + b, tail, x, l);
  }

  /** The records of entry `i` lie in a file that starts with the joined records. */
  lemma PartsLie(blob: seq<byte>, f: nat -> seq<byte>, g: nat -> seq<byte>,
                 locals: seq<seq<byte>>, centrals: seq<seq<byte>>, n: nat, i: nat)
    requires i < n == |locals| == |centrals| && Builds(f, locals) && Builds(g, centrals) && f(n) + g(n) <= blob
    ensures LiesAt(blob, |f(i)|, locals[i]) && LiesAt(blob, |f(n)| + |g(i)|, centrals[i])
  {
    Placed(f, locals, i, n);
    Placed(g, centrals, i, n);
    LiesInFile(f(n), g(n), blob, |f(i)|, locals[i], |g(i)|, centrals[i]);
  }

  function Joined(parts: seq<seq<byte>>): nat -> seq<byte> {
    (n: nat) => if n <= |parts| then Join(parts, n) else []
  }

  lemma JoinedBuilds(parts: seq<seq<byte>>)
    ensures Builds(Joined(parts), parts)
  {
  }

  lemma {:induction false} JoinGrows(parts: seq<seq<byte>>, i: nat, n: nat)
    requires i <= n <= |parts|
    ensures |Join(parts, i)| <= |Join(parts, n)|
  {
    if i < n {
      JoinGrows(parts, i, n - 1);
    }
  }

  lemma NextPart(parts: seq<seq<byte>>, i: nat)
    requires i < |parts|
    ensures |Join(parts, i + 1)| == |Join(parts, i)| + |parts[i]|
  {
  }

  lemma RecordsLie(blob: seq<byte>, es: seq<Entry>, i: nat)
    requires i < |es| && Join(Locals(es), |es|) + Join(Centrals(es), |es|) <= blob
    ensures LiesAt(blob, |Join(Locals(es), i)|, Locals(es)[i])
    ensures LiesAt(blob, DirectoryAt(es, i), Centrals(es)[i])
  {
    JoinedBuilds(Locals(es));
    JoinedBuilds(Centrals(es));
    PartsLie(blob, Joined(Locals(es)), Joined(Centrals(es)), Locals(es), Centrals(es), |es|, i);
  }

  lemma EntrySeen(blob: seq<byte>, es: seq<Entry>, i: nat)
    requires i < |es| && Fits(es[i]) && |Join(Locals(es), i)| <= MAX_PAK_LEN
    requires Join(Locals(es), |es|) + Join(Centrals(es), |es|) <= blob
    ensures Seen(ViewOf(blob), DirectoryAt(es, i), es[i], DirectoryAt(es, i) + |Centrals(es)[i]|)
  {
    RecordsAt(es, i);
    RecordsLie(blob, es, i);
    RecordsSeen(blob, DirectoryAt(es, i), |Join(Locals(es), i)|, es[i], Locals(es)[i], Centrals(es)[i]);
  }

  /** The walk reads entry `i` back, name, size and data. */
  lemma EntryReadBack(es: seq<Entry>, i: nat)
    requires Writable(es) && i < |es|
    ensures Seen(ViewOf(Serialise(es)), DirectoryAt(es, i), es[i], DirectoryAt(es, i + 1))
  {
    assert |Join(Locals(es), |es|)| <= |Serialise(es)|;
    JoinGrows(Locals(es), i, |es|);
    assert Join(Locals(es), |es|) + Join(Centrals(es), |es|) <= Serialise(es);
    EntrySeen(Serialise(es), es, i);
    NextPart(Centrals(es), i);
  }

  lemma EndLies(a: seq<byte>, b: seq<byte>, n: nat)
    requires |Bound(a, b, n)| <= MAX_PAK_LEN && n < 0x1_0000
    ensures FindEocd(Bound(a, b, n)) == Some(Directory(|a|, n))
  {
    var (at, blob) := (|a| + |b|, Bound(a, b, n));
    assert blob[at..at + EOCD_LEN] == EndRecord(n, |b|, |a|);
    EndReadBack(blob, at, n, |b|, |a|);
    assert EocdAt(blob, |blob| - EOCD_LEN).Some?;
  }

  lemma EndFound(es: seq<Entry>)
    requires Writable(es)
    ensures FindEocd(Serialise(es)) == Some(Directory(DirectoryAt(es, 0), |es|))
  {
    EndLies(Join(Locals(es), |es|), Join(Centrals(es), |es|), |es|);
  }

  // ---- what extraction is for ----

  /** How many bytes the entries from `i` on hold. */
  function Left(es: seq<Entry>, i: nat): nat
    requires i <= |es|
    decreases |es| - i
  {
    if i == |es| then 0 else |es[i].data| + Left(es, i + 1)
  }

  lemma {:induction false} LeftFits(es: seq<Entry>, i: nat)
    requires i <= |es|
    ensures |Join(Locals(es), i)| + Left(es, i) <= |Join(Locals(es), |es|)|
    decreases |es| - i
  {
    if i < |es| {
      LeftFits(es, i + 1);
      NextPart(Locals(es), i);
      LocalHoldsData(es, |es|, i);
    }
  }

  lemma {:induction false} LocalHoldsData(es: seq<Entry>, n: nat, i: nat)
    requires i < n <= |es|
    ensures |es[i].data| <= |LocalsOf(es, n)[i]|
  {
    if i < n - 1 {
      LocalHoldsData(es, n - 1, i);
    }
  }

  /** Each case-broken entry under a root, in order, becomes its lower-case loose file, unless a file
      or directory of that name is there, or a file is in the way of its directory. */
  function Expected(rules: Rules, es: seq<Entry>, i: nat, files: Files): Files
    requires i <= |es|
    decreases |es| - i
  {
    if i == |es| then files
    else
      var lower := rules.loose(es[i].name);
      var after := if lower.None? then None else rules.store(files, Some(es[i].data), lower.value);
      if after.None? then Expected(rules, es, i + 1, files) else Expected(rules, es, i + 1, after.value)
  }

  /** Entry after entry is seen, from `i` on. */
  ghost predicate Chain(v: View, ats: nat -> nat, es: seq<Entry>, i: nat)
    requires i <= |es|
    decreases |es| - i
  {
    i < |es| ==> Seen(v, ats(i), es[i], ats(i + 1)) && Chain(v, ats, es, i + 1)
  }

  ghost predicate Same(v: View, rules: Rules, p: nat, count: nat, budget: nat, files: Files, es: seq<Entry>, i: nat)
    requires i <= |es|
  {
    Walk(v, rules, p, count, budget, files) == Expected(rules, es, i, files)
  }

  lemma SameStep(v: View, rules: Rules, p: nat, next: nat, es: seq<Entry>, i: nat, budget: nat, files: Files,
                 after: Option<Files>)
    requires i < |es| && Seen(v, p, es[i], next) && |es[i].data| <= budget
    requires after == if rules.loose(es[i].name).None? then None
                      else rules.store(files, Some(es[i].data), rules.loose(es[i].name).value)
    requires after.None? ==> Same(v, rules, next, |es| - i - 1, budget, files, es, i + 1)
    requires after.Some? ==> Same(v, rules, next, |es| - i - 1, budget - |es[i].data|, after.value, es, i + 1)
    ensures Same(v, rules, p, |es| - i, budget, files, es, i)
  {
  }

  /** The walk over entries that it sees does just that, and the write budget never stops it. */
  lemma {:induction false} WalkExpected(v: View, rules: Rules, ats: nat -> nat, es: seq<Entry>, i: nat,
                                        budget: nat, files: Files)
    requires i <= |es| && budget >= Left(es, i) && Chain(v, ats, es, i)
    ensures Same(v, rules, ats(i), |es| - i, budget, files, es, i)
    decreases |es| - i
  {
    if i < |es| {
      var e := es[i];
      var after := if rules.loose(e.name).None? then None
                   else rules.store(files, Some(e.data), rules.loose(e.name).value);
      if after.None? {
        WalkExpected(v, rules, ats, es, i + 1, budget, files);
      } else {
        WalkExpected(v, rules, ats, es, i + 1, budget - |e.data|, after.value);
      }
      SameStep(v, rules, ats(i), ats(i + 1), es, i, budget, files, after);
    }
  }

  function Positions(es: seq<Entry>): nat -> nat {
    (i: nat) => if i <= |es| then DirectoryAt(es, i) else 0
  }

  lemma {:induction false} ChainOf(v: View, ats: nat -> nat, es: seq<Entry>, i: nat)
    requires i <= |es| && forall k | i <= k < |es| :: Seen(v, ats(k), es[k], ats(k + 1))
    ensures Chain(v, ats, es, i)
    decreases |es| - i
  {
    if i < |es| {
      ChainOf(v, ats, es, i + 1);
    }
  }

  lemma PositionSeen(es: seq<Entry>, v: View, ats: nat -> nat, k: nat)
    requires Writable(es) && k < |es| && v == ViewOf(Serialise(es)) && ats == Positions(es)
    ensures Seen(v, ats(k), es[k], ats(k + 1))
  {
    EntryReadBack(es, k);
    assert ats(k) == DirectoryAt(es, k) && ats(k + 1) == DirectoryAt(es, k + 1);
  }

  lemma ChainFrom(es: seq<Entry>, i: nat)
    requires Writable(es) && i <= |es|
    ensures Chain(ViewOf(Serialise(es)), Positions(es), es, i)
  {
    var (v, ats) := (ViewOf(Serialise(es)), Positions(es));
    forall k | i <= k < |es|
      ensures Seen(v, ats(k), es[k], ats(k + 1))
    {
      PositionSeen(es, v, ats, k);
    }
    ChainOf(v, ats, es, i);
  }

  lemma SerialisedWalk(es: seq<Entry>, files: Files)
    requires Writable(es)
    ensures Same(ViewOf(Serialise(es)), LooseRules(), DirectoryAt(es, 0), |es|, |Serialise(es)|, files, es, 0)
  {
    LeftFits(es, 0);
    ChainFrom(es, 0);
    WalkExpected(ViewOf(Serialise(es)), LooseRules(), Positions(es), es, 0, |Serialise(es)|, files);
  }

  /** Round trip: reading the serialised archive extracts what the entries say. */
  lemma ArchiveRoundTrip(es: seq<Entry>, files: Files)
    requires Writable(es)
    ensures FilesAfter(Serialise(es), files) == Expected(LooseRules(), es, 0, files)
  {
    var blob := Serialise(es);
    EndFound(es);
    SerialisedWalk(es, files);
    assert Same(ViewOf(blob), LooseRules(), DirectoryAt(es, 0), |es|, |blob|, files, es, 0);
  }

  // ---- without clashes: exactly lower(name) -> data, the first entry winning ----

  /** The first entry from `i` on that becomes `p`. */
  function FirstEntry(rules: Rules, es: seq<Entry>, i: nat, p: Path): Option<nat>
    requires i <= |es|
    decreases |es| - i
  {
    if i == |es| then None
    else if rules.loose(es[i].name) == Some(p) then Some(i)
    else FirstEntry(rules, es, i + 1, p)
  }

  /** No extracted name, and no file that is there, is a directory prefix of an extracted name, nor
      the other way round. */
  ghost predicate NoClash(rules: Rules, es: seq<Entry>, i: nat, files: Files)
    requires i <= |es|
  {
    && (forall a, b | i <= a < |es| && i <= b < |es|
          && rules.loose(es[a].name).Some? && rules.loose(es[b].name).Some? ::
          !IsUnder(rules.loose(es[a].name).value, rules.loose(es[b].name).value))
    && (forall a, q | i <= a < |es| && rules.loose(es[a].name).Some? && q in files ::
          !IsUnder(rules.loose(es[a].name).value, q) && !IsUnder(q, rules.loose(es[a].name).value))
  }

  /** Files that are there keep their bytes; every other path gets the data of the first entry that
      becomes it, and there is nothing else. */
  lemma {:induction false} ExpectedExactly(rules: Rules, es: seq<Entry>, i: nat, files: Files, p: Path)
    requires i <= |es| && rules.store == LooseRules().store && NoClash(rules, es, i, files)
    ensures p in Expected(rules, es, i, files) <==> p in files || FirstEntry(rules, es, i, p).Some?
    ensures p in files ==> Expected(rules, es, i, files)[p] == files[p]
    ensures p !in files && FirstEntry(rules, es, i, p).Some? ==>
      && FirstEntry(rules, es, i, p).value < |es|
      && Expected(rules, es, i, files)[p] == es[FirstEntry(rules, es, i, p).value].data
    decreases |es| - i
  {
    if i < |es| {
      var lower := rules.loose(es[i].name);
      if lower.None? || lower.value in files {
        ExpectedExactly(rules, es, i + 1, files, p);
      } else {
        assert !Exists(files, lower.value) && !Blocked(files, lower.value);
        assert rules.store(files, Some(es[i].data), lower.value) == Some(files[lower.value := es[i].data]);
        ExpectedExactly(rules, es, i + 1, files[lower.value := es[i].data], p);
      }
    }
  }

  /** The law of extraction: after fixing a map whose archive was written from the entries, and when
      no file operation fails, the files are those that were there and, for each other lower-case
      name, the data of the first case-broken entry of that name. */
  lemma ExtractionExact(es: seq<Entry>, files: Files, p: Path)
    requires Writable(es) && NoClash(LooseRules(), es, 0, files)
    ensures var (after, first) := (FilesAfter(Serialise(es), files), FirstEntry(LooseRules(), es, 0, p));
      && (p in after <==> p in files || first.Some?)
      && (p in files ==> after[p] == files[p])
      && (p !in files && first.Some? ==> first.value < |es| && after[p] == es[first.value].data)
  {
    ArchiveRoundTrip(es, files);
    ExpectedExactly(LooseRules(), es, 0, files, p);
  }

  // ---- the archive inside a map ----

  /** What a map file holds besides the entry of the archive lump and the archive: the words after the
      magic, the other lumps' entries before and after, and the bytes around the archive. */
  datatype MapParts = MapParts(version: seq<byte>, lumps: seq<byte>, others: seq<byte>,
                               body: seq<byte>, tail: seq<byte>)

  predicate MapFits(m: MapParts) {
    && |m.version| == 4 && |m.lumps| == LUMP_PAKFILE * 16 && |m.others| == BSP_HEADER_LEN - 16 - LUMP_PAKFILE * 16
    && BSP_HEADER_LEN + |m.body| < 0x1_0000_0000
  }

  function MapHeader(m: MapParts, len: nat): seq<byte> {
    BSP_MAGIC + m.version + m.lumps + LeBytes(BSP_HEADER_LEN + |m.body|, 4) + LeBytes(len, 4)
  }

  function MapFile(m: MapParts, blob: seq<byte>): seq<byte> {
    MapHeader(m, |blob|) + (m.others + m.body) + blob + m.tail
  }

  /** The archive of a map is read from it again. */
  lemma MapReads(m: MapParts, blob: seq<byte>)
    requires MapFits(m) && 0 < |blob| <= MAX_PAK_LEN
    ensures PakOf(MapFile(m, blob)) == Archive(blob)
  {
    Pow256Values();
    var (a, ofs) := (BSP_MAGIC + m.version + m.lumps, BSP_HEADER_LEN + |m.body|);
    var (x, header) := (LeBytes(ofs, 4), MapHeader(m, |blob|));
    Last(a, ofs, 4);
    Last(a + x, |blob|, 4);
    Keep(a + x, LeBytes(|blob|, 4), |a|, 4, ofs);
    var lump := 8 + LUMP_PAKFILE * 16;
    forall at, n | (at == lump && n == ofs) || (at == lump + 4 && n == |blob|)
      ensures Reads(MapFile(m, blob), at, 4, n)
    {
      Keep(header, m.others + m.body, at, 4, n);
      Keep(header + (m.others + m.body), blob, at, 4, n);
      Keep(header + (m.others + m.body) + blob, m.tail, at, 4, n);
    }
    Middle(header + (m.others + m.body), blob, m.tail);
    assert MapFile(m, blob)[..4] == BSP_MAGIC;
    assert Reads(MapFile(m, blob), lump, 4, ofs) && Reads(MapFile(m, blob), lump + 4, 4, |blob|);
  }

  lemma Middle(front: seq<byte>, blob: seq<byte>, tail: seq<byte>)
    ensures (front + blob + tail)[|front|..|front| + |blob|] == blob
  {
  }

  /** The law of extraction for maps: fixing a map that holds an archive written from the entries
      extracts exactly lower(name) -> data for each case-broken entry, the first entry winning. */
  lemma MapExtractionExact(m: MapParts, es: seq<Entry>, files: Files, p: Path)
    requires MapFits(m) && Writable(es) && NoClash(LooseRules(), es, 0, files)
    ensures PakOf(MapFile(m, Serialise(es))) == Archive(Serialise(es))
    ensures var after := FilesAfter(PakOf(MapFile(m, Serialise(es))).blob, files);
      var first := FirstEntry(LooseRules(), es, 0, p);
      && (p in after <==> p in files || first.Some?)
      && (p in files ==> after[p] == files[p])
      && (p !in files && first.Some? ==> first.value < |es| && after[p] == es[first.value].data)
  {
    assert 0 < |EndRecord(|es|, |Join(Centrals(es), |es|)|, |Join(Locals(es), |es|)|)| <= |Serialise(es)|;
    MapReads(m, Serialise(es));
    ExtractionExact(es, files, p);
  }
}
