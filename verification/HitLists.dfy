/** Lists of hits: where a test holds at the start of a window that fits, in order. */
module HitLists {
  function One(there: bool, v: nat): seq<nat> {
    if there then [v] else []
  }

  /** The addresses of the offsets `lo..hi` at which a window of `w` bytes fits and the test
      holds, when offset `lo` has address `base`. */
  function HitsIn(hit: nat -> bool, w: nat, lo: nat, hi: nat, base: nat): seq<nat>
    decreases hi - lo
  {
    if lo + w > hi then [] else One(hit(lo), base) + HitsIn(hit, w, lo + 1, hi, base + 1)
  }

  predicate IsHit(hit: nat -> bool, w: nat, lo: nat, hi: nat, base: nat, v: nat) {
    base <= v && lo + (v - base) + w <= hi && hit(lo + (v - base))
  }

  ghost predicate Increasing(s: seq<nat>) {
    forall i, j | 0 <= i < j < |s| :: s[i] < s[j]
  }

  lemma {:induction false} HitsInMember(hit: nat -> bool, w: nat, lo: nat, hi: nat, base: nat, v: nat)
    ensures v in HitsIn(hit, w, lo, hi, base) <==> IsHit(hit, w, lo, hi, base, v)
    decreases hi - lo
  {
    if lo + w <= hi {
      HitsInMember(hit, w, lo + 1, hi, base + 1, v);
    }
  }

  lemma {:induction false} HitsInIncreasing(hit: nat -> bool, w: nat, lo: nat, hi: nat, base: nat)
    ensures Increasing(HitsIn(hit, w, lo, hi, base))
    decreases hi - lo
  {
    if lo + w <= hi {
      HitsInIncreasing(hit, w, lo + 1, hi, base + 1);
      var rest := HitsIn(hit, w, lo + 1, hi, base + 1);
      forall k | 0 <= k < |rest| ensures base < rest[k] {
        HitsInMember(hit, w, lo + 1, hi, base + 1, rest[k]);
      }
    }
  }

  /** Two stretches that share all but one byte of the window share out the hits. */
  lemma {:induction false} HitsInSplit(hit: nat -> bool, w: nat, lo: nat, mid: nat, hi: nat, base: nat)
    requires 0 < w && lo <= mid && mid + w - 1 <= hi
    ensures HitsIn(hit, w, lo, hi, base)
         == HitsIn(hit, w, lo, mid + w - 1, base) + HitsIn(hit, w, mid, hi, base + (mid - lo))
    decreases mid - lo
  {
    if lo < mid {
      HitsInSplit(hit, w, lo + 1, mid, hi, base + 1);
    }
  }

  lemma {:induction false} HitsInNone(hit: nat -> bool, w: nat, lo: nat, hi: nat, base: nat)
    requires forall k | lo <= k && k + w <= hi :: !hit(k)
    ensures HitsIn(hit, w, lo, hi, base) == []
    decreases hi - lo
  {
    if lo + w <= hi {
      HitsInNone(hit, w, lo + 1, hi, base + 1);
    }
  }

  lemma HitsInSkip(hit: nat -> bool, w: nat, at: nat, next: nat, hi: nat, base: nat)
    requires 0 < w && at <= next && next + w <= hi + 1
    requires NoHit(hit, at, next)
    ensures HitsIn(hit, w, at, hi, base + at) == HitsIn(hit, w, next, hi, base + next)
  {
    HitsInSplit(hit, w, at, next, hi, base + at);
    HitsInNone(hit, w, at, next + w - 1, base + at);
  }

  /** A scan that has reached `at` and next hits `found` continues after it. */
  lemma HitsInNext(hit: nat -> bool, w: nat, at: nat, found: nat, hi: nat, base: nat)
    requires 0 < w && at <= found && found + w <= hi && hit(found)
    requires forall k | at <= k < found :: !hit(k)
    ensures HitsIn(hit, w, at, hi, base + at) == [base + found] + HitsIn(hit, w, found + 1, hi, base + found + 1)
  {
    HitsInSkip(hit, w, at, found, hi, base);
  }

  /** One step of a scan that collects its hits in `out`. */
  lemma HitsInStep(hit: nat -> bool, w: nat, at: nat, hi: nat, base: nat, out: seq<nat>)
    requires at + w <= hi
    ensures out + HitsIn(hit, w, at, hi, base)
         == (if hit(at) then out + [base] else out) + HitsIn(hit, w, at + 1, hi, base + 1)
  {
    Assoc(out, One(hit(at), base), HitsIn(hit, w, at + 1, hi, base + 1));
  }

  predicate NoHit(hit: nat -> bool, from: nat, to: nat) {
    forall k: nat | from <= k < to :: !hit(k)
  }

  /** A test on the bytes of a window by themselves, against the same test on the whole. */
  lemma {:induction false} HitsInWindow(part: nat -> bool, whole: nat -> bool, w: nat,
                                        lo: nat, hi: nat, base: nat, at: nat)
    requires lo <= hi
    requires forall k: nat | k + w <= hi - lo :: part(k) == whole(lo + k)
    ensures HitsIn(part, w, at, hi - lo, base) == HitsIn(whole, w, lo + at, hi, base)
    decreases hi - lo - at
  {
    if lo + at + w <= hi {
      HitsInWindow(part, whole, w, lo, hi, base + 1, at + 1);
      assert part(at) == whole(lo + at);
    } else {
      assert HitsIn(part, w, at, hi - lo, base) == [];
    }
  }

  lemma Assoc<T>(a: seq<T>, b: seq<T>, c: seq<T>)
    ensures a + (b + c) == (a + b) + c
  {
  }

  /** The parts of a list, one after the other. */
  function Gather(part: nat -> seq<nat>, n: nat): seq<nat> {
    if n == 0 then [] else Gather(part, n - 1) + part(n - 1)
  }

  lemma {:induction false} Gathered(part: nat -> seq<nat>, n: nat, v: nat) returns (j: nat)
    requires v in Gather(part, n)
    ensures j < n && v in part(j)
  {
    j := n - 1;
    if v !in part(j) {
      j := Gathered(part, n - 1, v);
    }
  }

  lemma {:induction false} GatherHas(part: nat -> seq<nat>, n: nat, j: nat, v: nat)
    requires j < n && v in part(j)
    ensures v in Gather(part, n)
  {
    if j < n - 1 {
      GatherHas(part, n - 1, j, v);
    }
  }

  /** Each number less `k`, where that is not negative. */
  function Back(s: seq<nat>, k: nat): seq<nat> {
    if s == [] then [] else (if s[0] >= k then [s[0] - k] else []) + Back(s[1..], k)
  }

  lemma {:induction false} BackMember(s: seq<nat>, k: nat, v: nat)
    ensures v in Back(s, k) <==> v + k in s
  {
    if s != [] {
      BackMember(s[1..], k, v);
      assert v + k in s <==> v + k == s[0] || v + k in s[1..];
    }
  }

  // ---- sorting and removing duplicates ----

  function Insert<T(==)>(s: seq<T>, v: T, less: (T, T) -> bool): seq<T> {
    if s == [] then [v] else if less(v, s[0]) then [v] + s else if v == s[0] then s
    else [s[0]] + Insert(s[1..], v, less)
  }

  function SortedUnique<T(==)>(s: seq<T>, less: (T, T) -> bool): seq<T> {
    if s == [] then [] else Insert(SortedUnique(s[1..], less), s[0], less)
  }

  ghost predicate StrictOrder<T(!new)>(less: (T, T) -> bool) {
    && (forall a, b, c :: less(a, b) && less(b, c) ==> less(a, c))
    && (forall a, b :: less(a, b) || a == b || less(b, a))
  }

  ghost predicate Ascending<T(!new)>(s: seq<T>, less: (T, T) -> bool) {
    forall i, j | 0 <= i < j < |s| :: less(s[i], s[j])
  }

  function Below(): (nat, nat) -> bool {
    (a: nat, b: nat) => a < b
  }

  lemma {:induction false} InsertMember<T>(s: seq<T>, v: T, less: (T, T) -> bool, x: T)
    ensures x in Insert(s, v, less) <==> x in s || x == v
  {
    if s != [] && !less(v, s[0]) && v != s[0] {
      InsertMember(s[1..], v, less, x);
    }
  }

  lemma {:induction false} InsertAscending<T(!new)>(s: seq<T>, v: T, less: (T, T) -> bool)
    requires StrictOrder(less) && Ascending(s, less)
    ensures Ascending(Insert(s, v, less), less)
  {
    if s != [] && !less(v, s[0]) && v != s[0] {
      InsertAscending(s[1..], v, less);
      var t := Insert(s[1..], v, less);
      forall k | 0 <= k < |t| ensures less(s[0], t[k]) {
        InsertMember(s[1..], v, less, t[k]);
      }
    }
  }

  lemma {:induction false} SortedUniqueMember<T>(s: seq<T>, less: (T, T) -> bool, x: T)
    ensures x in SortedUnique(s, less) <==> x in s
  {
    if s != [] {
      SortedUniqueMember(s[1..], less, x);
      InsertMember(SortedUnique(s[1..], less), s[0], less, x);
    }
  }

  lemma {:induction false} SortedUniqueAscending<T(!new)>(s: seq<T>, less: (T, T) -> bool)
    requires StrictOrder(less)
    ensures Ascending(SortedUnique(s, less), less)
  {
    if s != [] {
      SortedUniqueAscending(s[1..], less);
      InsertAscending(SortedUnique(s[1..], less), s[0], less);
    }
  }
}
