/** Names inside an archive, and which of them may become paths of loose files. */
module PakPaths {
  import opened Bytes

  type Path = seq<byte>

  const SLASH: byte := 0x2f
  const BACKSLASH: byte := 0x5c
  const DOT: byte := 0x2e
  const MAX_NAME := 512

  const MATERIALS: seq<byte> := [0x6d, 0x61, 0x74, 0x65, 0x72, 0x69, 0x61, 0x6c, 0x73, 0x2f]
  const MODELS: seq<byte> := [0x6d, 0x6f, 0x64, 0x65, 0x6c, 0x73, 0x2f]
  const SOUND: seq<byte> := [0x73, 0x6f, 0x75, 0x6e, 0x64, 0x2f]
  const PARTICLES: seq<byte> := [0x70, 0x61, 0x72, 0x74, 0x69, 0x63, 0x6c, 0x65, 0x73, 0x2f]

  function LowerByte(b: byte): byte {
    if 0x41 <= b <= 0x5a then b + 0x20 else b
  }

  function Lower(s: seq<byte>): (r: seq<byte>)
    ensures |r| == |s| && forall k | 0 <= k < |s| :: r[k] == LowerByte(s[k])
  {
    seq(|s|, k requires 0 <= k < |s| => LowerByte(s[k]))
  }

  function Slashes(s: seq<byte>): (r: seq<byte>)
    ensures |r| == |s| && forall k | 0 <= k < |s| :: r[k] == if s[k] == BACKSLASH then SLASH else s[k]
  {
    seq(|s|, k requires 0 <= k < |s| => if s[k] == BACKSLASH then SLASH else s[k])
  }

  predicate GoodComponent(c: seq<byte>) {
    c != [] && c != [DOT] && c != [DOT, DOT]
  }

  /** The check of each piece between slashes, the current piece having started at `i`. */
  predicate GoodPieces(s: seq<byte>, i: nat, k: nat)
    requires i <= k <= |s|
    decreases |s| - k
  {
    if k == |s| then GoodComponent(s[i..])
    else if s[k] == SLASH then GoodComponent(s[i..k]) && GoodPieces(s, k + 1, k + 1)
    else GoodPieces(s, i, k + 1)
  }

  /** `sane_name`: the stored name with forward slashes, unless it must not become a path. */
  function SaneName(raw: seq<byte>): Option<Path> {
    if raw == [] || |raw| > MAX_NAME then None
    else
      var name := Slashes(raw);
      if 0 in name || name[0] == SLASH || name[|name| - 1] == SLASH || !GoodPieces(name, 0, 0) then None
      else Some(name)
  }

  predicate UnderRoot(lower: seq<byte>) {
    MATERIALS <= lower || MODELS <= lower || SOUND <= lower || PARTICLES <= lower
  }

  /** The loose file an entry is to become, when its name has capitals and is under a root. */
  function LooseName(raw: seq<byte>): Option<Path> {
    var name := SaneName(raw);
    if name.Some? && name.value != Lower(name.value) && UnderRoot(Lower(name.value))
    then Some(Lower(name.value)) else None
  }

  // ---- what a safe path is, said without splitting ----

  /** A maximal stretch without slashes. */
  predicate IsComponent(s: seq<byte>, i: nat, j: nat) {
    && i <= j <= |s| && (i == 0 || s[i - 1] == SLASH) && (j == |s| || s[j] == SLASH)
    && forall k | i <= k < j :: s[k] != SLASH
  }

  ghost predicate SafePath(p: Path) {
    && p != [] && 0 !in p && p == Lower(p) && UnderRoot(p)
    && forall i: nat, j: nat :: IsComponent(p, i, j) ==> GoodComponent(p[i..j])
  }

  /** The piecewise check accepts exactly the names all of whose components are good. */
  lemma {:induction false} GoodPiecesIff(s: seq<byte>, i: nat, k: nat)
    requires i <= k <= |s| && (i == 0 || s[i - 1] == SLASH) && forall m | i <= m < k :: s[m] != SLASH
    ensures GoodPieces(s, i, k) <==> forall a: nat, b: nat | i <= a && IsComponent(s, a, b) :: GoodComponent(s[a..b])
    decreases |s| - k
  {
    if k == |s| {
      assert IsComponent(s, i, k) && s[i..] == s[i..k];
      forall a: nat, b: nat | i <= a && IsComponent(s, a, b)
        ensures a == i && b == k
      {
      }
    } else if s[k] == SLASH {
      assert IsComponent(s, i, k);
      GoodPiecesIff(s, k + 1, k + 1);
      forall a: nat, b: nat | i <= a && IsComponent(s, a, b)
        ensures a > k || (a == i && b == k)
      {
      }
    } else {
      GoodPiecesIff(s, i, k + 1);
    }
  }

  lemma LowerComponent(s: seq<byte>, i: nat, j: nat)
    requires IsComponent(Lower(s), i, j)
    ensures IsComponent(s, i, j)
    ensures GoodComponent(s[i..j]) ==> GoodComponent(Lower(s)[i..j])
  {
    forall k | 0 <= k < |s|
      ensures Lower(s)[k] == SLASH <==> s[k] == SLASH
      ensures Lower(s)[k] == DOT <==> s[k] == DOT
    {
    }
    var (c, d) := (s[i..j], Lower(s)[i..j]);
    if d == [DOT] {
      assert d[0] == DOT && c == [DOT];
    } else if d == [DOT, DOT] {
      assert d[0] == DOT && d[1] == DOT && c == [DOT, DOT];
    }
  }

  /** Every loose name is a lower-case relative path under one of the roots, without an empty, dot
      or dot-dot component. */
  lemma LooseNameSafe(raw: seq<byte>)
    requires LooseName(raw).Some?
    ensures SafePath(LooseName(raw).value)
  {
    var name := SaneName(raw).value;
    var p := Lower(name);
    GoodPiecesIff(name, 0, 0);
    assert Lower(Lower(name)) == Lower(name);
    forall i: nat, j: nat | IsComponent(p, i, j)
      ensures GoodComponent(p[i..j])
    {
      LowerComponent(name, i, j);
    }
    forall k | 0 <= k < |p| ensures p[k] != 0 {
      assert name[k] in name;
    }
  }

  /** A name is refused exactly when it is empty, too long, has a zero byte, or has a bad component
      once its backslashes are slashes. */
  lemma SaneNameIff(raw: seq<byte>)
    ensures SaneName(raw).Some? <==>
      && 0 < |raw| <= MAX_NAME && 0 !in Slashes(raw)
      && forall i: nat, j: nat | IsComponent(Slashes(raw), i, j) :: GoodComponent(Slashes(raw)[i..j])
  {
    var name := Slashes(raw);
    GoodPiecesIff(name, 0, 0);
    if 0 < |raw| {
      if name[0] == SLASH {
        assert IsComponent(name, 0, 0) && name[0..0] == [];
      }
      if name[|name| - 1] == SLASH {
        assert IsComponent(name, |name|, |name|) && name[|name|..|name|] == [];
      }
    }
  }
}
