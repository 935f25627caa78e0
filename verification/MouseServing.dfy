/** The timestamped mouse ring and tick-aligned serving: what the ring and the countdown
    compute, and the in-place rings of both platforms proved against it. */
module MouseServing {

  const CAPACITY: nat := 1024
  const I32_MAX: int := 0x7fff_ffff
  const I32_MIN: int := -0x8000_0000

  type i32 = x: int | I32_MIN <= x <= I32_MAX

  datatype Mouse = Mouse(time: real, x: i32, y: i32)

  datatype Limit = Upto(t: real) | Unlimited

  datatype Platform = Windows | Linux

  /** What serving depends on: how many events were consumed so far, the queued ones, the
      unsampled rest of the tick, and the time of the last serve (0.0 for none). */
  datatype Tick = Tick(read: nat, queue: seq<Mouse>, remaining: real, last: real)

  function Max(a: real, b: real): real {
    if a >= b then a else b
  }

  predicate Late(m: Mouse, limit: Limit) {
    limit.Upto? && m.time > limit.t
  }

  /** Length of the prefix that a drain consumes: it stops at the first late event. */
  function DrainCount(q: seq<Mouse>, limit: Limit): (n: nat)
    ensures n <= |q|
  {
    if q == [] || Late(q[0], limit) then 0 else 1 + DrainCount(q[1..], limit)
  }

  /** The drained prefix is the longest one without a late event. */
  lemma {:induction false} DrainIsPrefix(q: seq<Mouse>, limit: Limit)
    ensures forall i | 0 <= i < DrainCount(q, limit) :: !Late(q[i], limit)
    ensures DrainCount(q, limit) < |q| ==> Late(q[DrainCount(q, limit)], limit)
  {
    if q != [] && !Late(q[0], limit) {
      DrainIsPrefix(q[1..], limit);
    }
  }

  /** Windows drops the newest event of a full ring, Linux the oldest. */
  function Push(p: Platform, s: Tick, m: Mouse): Tick {
    if |s.queue| < CAPACITY then s.(queue := s.queue + [m])
    else if p == Windows then s
    else s.(queue := s.queue[1..] + [m], read := s.read + 1)
  }

  /** The per-tick refresh: Windows also restarts the countdown's clock. */
  function SetSample(p: Platform, s: Tick, sample: real, now: real): Tick {
    if p == Windows then s.(remaining := Max(sample, 0.0), last := now) else s.(remaining := sample)
  }

  function Countdown(s: Tick, now: real): real {
    if s.last != 0.0 then Max(s.remaining - (now - s.last), 0.0) else s.remaining
  }

  function Threshold(s: Tick, mode: int, now: real): Limit {
    if mode == 2 then Upto(now - Countdown(s, now)) else Unlimited
  }

  /** One accumulator call: the state after it and the events it consumed. */
  function Serve(s: Tick, mode: int, now: real): (r: (Tick, seq<Mouse>)) {
    var n := DrainCount(s.queue, Threshold(s, mode, now));
    (Tick(s.read + n, s.queue[n..], Countdown(s, now), now), s.queue[..n])
  }

  /** A serve in its two parts: the countdown, and the drain up to the threshold. */
  lemma ServeParts(s: Tick, mode: int, now: real, limit: Limit, n: nat)
    requires limit == Threshold(s, mode, now) && n == DrainCount(s.queue, limit)
    ensures Serve(s, mode, now).0 == Tick(s.read + n, s.queue[n..], Countdown(s, now), now)
    ensures Serve(s, mode, now).1 == s.queue[..n]
  {
  }

  function SatAdd(a: i32, b: i32): i32 {
    if a + b > I32_MAX then I32_MAX else if a + b < I32_MIN then I32_MIN else a + b
  }

  /** Two's-complement addition, as a release build computes it. */
  function WrapAdd(a: i32, b: i32): i32 {
    if a + b > I32_MAX then a + b - 0x1_0000_0000 else if a + b < I32_MIN then a + b + 0x1_0000_0000 else a + b
  }

  /** How one platform adds one event to its running sum. */
  function Add(p: Platform, acc: (i32, i32), m: Mouse): (i32, i32) {
    if p == Windows then (SatAdd(acc.0, m.x), SatAdd(acc.1, m.y)) else (WrapAdd(acc.0, m.x), WrapAdd(acc.1, m.y))
  }

  /** The deltas one drain returns for the events it consumed. */
  function Deltas(p: Platform, q: seq<Mouse>): (i32, i32) {
    if q == [] then (0, 0) else Add(p, Deltas(p, q[..|q| - 1]), q[|q| - 1])
  }

  lemma DrainStep(p: Platform, q: seq<Mouse>, k: nat, limit: Limit)
    requires k <= |q|
    ensures k < |q| && !Late(q[k], limit) ==>
      && DrainCount(q[k..], limit) == 1 + DrainCount(q[k + 1..], limit)
      && Deltas(p, q[..k + 1]) == Add(p, Deltas(p, q[..k]), q[k])
    ensures k == |q| || Late(q[k], limit) ==> DrainCount(q[k..], limit) == 0
  {
    if k < |q| {
      assert q[k..][1..] == q[k + 1..];
      assert q[..k + 1][..k] == q[..k];
    }
  }

  /** The queued events, oldest first, of a ring held in three arrays. */
  ghost function Queued(ts: seq<real>, xs: seq<i32>, ys: seq<i32>, r: nat, w: nat): (q: seq<Mouse>)
    requires |ts| == |xs| == |ys| == CAPACITY && r <= w
    ensures |q| == w - r
  {
    seq(w - r, i requires 0 <= i => Mouse(ts[(r + i) % CAPACITY], xs[(r + i) % CAPACITY], ys[(r + i) % CAPACITY]))
  }

  lemma QueuedTail(ts: seq<real>, xs: seq<i32>, ys: seq<i32>, r: nat, k: nat, w: nat)
    requires |ts| == |xs| == |ys| == CAPACITY && r <= k <= w
    ensures Queued(ts, xs, ys, k, w) == Queued(ts, xs, ys, r, w)[k - r..]
  {
    var (a, b) := (Queued(ts, xs, ys, k, w), Queued(ts, xs, ys, r, w)[k - r..]);
    forall i | 0 <= i < |a|
      ensures a[i] == b[i]
    {
      assert a[i] == Queued(ts, xs, ys, k, w)[(k + i) - k];
      assert b[i] == Queued(ts, xs, ys, r, w)[(k + i) - r];
    }
  }

  /** Writing the free slot and publishing it appends one event. */
  lemma QueuedAppend(ts: seq<real>, xs: seq<i32>, ys: seq<i32>, r: nat, w: nat, m: Mouse)
    requires |ts| == |xs| == |ys| == CAPACITY && r <= w < r + CAPACITY
    ensures var s := w % CAPACITY;
      Queued(ts[s := m.time], xs[s := m.x], ys[s := m.y], r, w + 1) == Queued(ts, xs, ys, r, w) + [m]
  {
    var s := w % CAPACITY;
    var (a, b) := (Queued(ts[s := m.time], xs[s := m.x], ys[s := m.y], r, w + 1), Queued(ts, xs, ys, r, w) + [m]);
    forall i | 0 <= i < |a|
      ensures a[i] == b[i]
    {
      if i < w - r {
        DistinctSlots(r + i, w);
        assert b[i] == Queued(ts, xs, ys, r, w)[(r + i) - r];
      }
      assert a[i] == Queued(ts[s := m.time], xs[s := m.x], ys[s := m.y], r, w + 1)[(r + i) - r];
    }
  }

  lemma DistinctSlots(i: nat, j: nat)
    requires i < j < i + CAPACITY
    ensures i % CAPACITY != j % CAPACITY
  {
  }

  /** The Windows ring and its serving hooks. Indices count events and never wrap. */
  class WindowsRing {
    const timestamps: array<real>
    const x: array<i32>
    const y: array<i32>
    var writeIndex: nat
    var readIndex: nat
    var remaining: real
    var lastServe: real

    ghost predicate Valid()
      reads this
    {
      && timestamps.Length == x.Length == y.Length == CAPACITY && x != y
      && readIndex <= writeIndex <= readIndex + CAPACITY
    }

    ghost function Queue(): (q: seq<Mouse>)
      requires Valid()
      reads this, timestamps, x, y
      ensures |q| == writeIndex - readIndex
    {
      Queued(timestamps[..], x[..], y[..], readIndex, writeIndex)
    }

    ghost function View(): Tick
      requires Valid()
      reads this, timestamps, x, y
    {
      Tick(readIndex, Queue(), remaining, lastServe)
    }

    constructor ()
      ensures Valid() && View() == Tick(0, [], 0.0, 0.0)
    {
      timestamps := new real[CAPACITY](_ => 0.0);
      x := new i32[CAPACITY](_ => 0);
      y := new i32[CAPACITY](_ => 0);
      writeIndex, readIndex, remaining, lastServe := 0, 0, 0.0, 0.0;
    }

    method RingPush(time: real, dx: i32, dy: i32)
      requires Valid()
      modifies this`writeIndex, timestamps, x, y
      ensures Valid() && View() == Push(Windows, old(View()), Mouse(time, dx, dy))
    {
      if writeIndex - readIndex >= CAPACITY {
        return;
      }
      QueuedAppend(timestamps[..], x[..], y[..], readIndex, writeIndex, Mouse(time, dx, dy));
      var slot := writeIndex % CAPACITY;
      ghost var (ts0, xs0, ys0) := (timestamps[..], x[..], y[..]);
      x[slot] := dx;
      y[slot] := dy;
      timestamps[slot] := time;
      assert timestamps[..] == ts0[slot := time] && x[..] == xs0[slot := dx] && y[..] == ys0[slot := dy];
      writeIndex := writeIndex + 1;
    }

    /** One turn of the drain: the oldest event, unless there is none or it is late. */
    method DrainOne(limit: Limit, sx: i32, sy: i32, ghost q: seq<Mouse>, ghost first: nat)
        returns (sx': i32, sy': i32, more: bool)
      requires Valid() && first <= readIndex && q == Queued(timestamps[..], x[..], y[..], first, writeIndex)
      modifies this`readIndex
      ensures Valid() && q == Queued(timestamps[..], x[..], y[..], first, writeIndex)
      ensures readIndex == old(readIndex) + if more then 1 else 0
      ensures more <==> old(readIndex) < writeIndex && !Late(q[old(readIndex) - first], limit)
      ensures (sx', sy') == if more then Add(Windows, (sx, sy), q[old(readIndex) - first]) else (sx, sy)
    {
      if readIndex == writeIndex {
        return sx, sy, false;
      }
      var slot := readIndex % CAPACITY;
      assert q[readIndex - first] == Mouse(timestamps[slot], x[slot], y[slot]);
      if Late(Mouse(timestamps[slot], 0, 0), limit) {
        return sx, sy, false;
      }
      sx', sy', more := SatAdd(sx, x[slot]), SatAdd(sy, y[slot]), true;
      readIndex := readIndex + 1;
    }

    method RingDrain(limit: Limit, ghost s: Tick) returns (sx: i32, sy: i32, ghost n: nat)
      requires Valid() && s == View()
      modifies this`readIndex
      ensures Valid() && n == DrainCount(s.queue, limit)
      ensures View() == s.(read := s.read + n, queue := s.queue[n..])
      ensures (sx, sy) == Deltas(Windows, s.queue[..n])
    {
      ghost var (q, first) := (s.queue, readIndex);
      sx, sy, n := 0, 0, 0;
      var more := true;
      while more
        invariant Valid() && readIndex == first + n && n <= |q|
        invariant q == Queued(timestamps[..], x[..], y[..], first, writeIndex)
        invariant DrainCount(q, limit) == n + if more then DrainCount(q[n..], limit) else 0
        invariant (sx, sy) == Deltas(Windows, q[..n])
        decreases more, writeIndex - readIndex
      {
        DrainStep(Windows, q, n, limit);
        sx, sy, more := DrainOne(limit, sx, sy, q, first);
        n := n + if more then 1 else 0;
      }
      QueuedTail(timestamps[..], x[..], y[..], first, readIndex, writeIndex);
    }

    /** The countdown at the head of a serve. */
    method TakeTime(now: real, ghost s: Tick)
      requires Valid() && s == View()
      modifies this`remaining, this`lastServe
      ensures Valid() && View() == s.(remaining := Countdown(s, now), last := now)
    {
      var last := lastServe;
      lastServe := now;
      if last != 0.0 {
        remaining := Max(remaining - (now - last), 0.0);
      }
      assert Queue() == s.queue;
    }

    /** `hooked_get_raw`: outside mode 2 the ring is emptied and the stock deltas pass through. */
    method HookedGetRaw(mode: int, now: real, stockX: i32, stockY: i32) returns (outX: i32, outY: i32)
      requires Valid()
      modifies this`readIndex, this`remaining, this`lastServe
      ensures Valid() && View() == Serve(old(View()), mode, now).0
      ensures (outX, outY) == if mode == 2 then Deltas(Windows, Serve(old(View()), mode, now).1) else (stockX, stockY)
    {
      ghost var s := View();
      TakeTime(now, s);
      var limit := if mode == 2 then Upto(now - remaining) else Unlimited;
      ghost var n;
      outX, outY, n := RingDrain(limit, s.(remaining := remaining, last := now));
      if mode != 2 {
        outX, outY := stockX, stockY;
      }
      ServeParts(s, mode, now, limit, n);
    }

    method HookedSetSample(sample: real, now: real)
      requires Valid()
      modifies this`remaining, this`lastServe
      ensures Valid() && View() == SetSample(Windows, old(View()), sample, now)
    {
      remaining := Max(sample, 0.0);
      lastServe := now;
      assert Queue() == old(Queue());
    }
  }

  /** The Linux ring, run sequentially: a deque that keeps the newest 1024 events. `pushed`,
      `served` and `dropped` count what happened to events. */
  class LinuxRing {
    const ts: array<real>
    const dx: array<i32>
    const dy: array<i32>
    var wIdx: nat
    var rIdx: nat
    var remaining: real
    var lastServe: real
    ghost var served: nat
    ghost var dropped: nat

    ghost predicate Valid()
      reads this
    {
      && ts.Length == dx.Length == dy.Length == CAPACITY && dx != dy
      && rIdx <= wIdx <= rIdx + CAPACITY
    }

    ghost function Queue(): (q: seq<Mouse>)
      requires Valid()
      reads this, ts, dx, dy
      ensures |q| == wIdx - rIdx
    {
      Queued(ts[..], dx[..], dy[..], rIdx, wIdx)
    }

    ghost function View(): Tick
      requires Valid()
      reads this, ts, dx, dy
    {
      Tick(rIdx, Queue(), remaining, lastServe)
    }

    /** Every pushed event was served, was dropped, or is still queued (`wIdx` counts pushes
        and the queue has `wIdx - rIdx` events). */
    ghost predicate Conserved()
      reads this
    {
      rIdx == served + dropped
    }

    constructor ()
      ensures Valid() && View() == Tick(0, [], 0.0, 0.0) && Conserved()
    {
      ts := new real[CAPACITY](_ => 0.0);
      dx := new i32[CAPACITY](_ => 0);
      dy := new i32[CAPACITY](_ => 0);
      wIdx, rIdx, remaining, lastServe, served, dropped := 0, 0, 0.0, 0.0, 0, 0;
    }

    /** A full ring gives up its oldest event. */
    method DropOldest(ghost q: seq<Mouse>)
      requires Valid() && Conserved() && q == Queue() && wIdx - rIdx == CAPACITY
      modifies this`rIdx, this`dropped
      ensures Valid() && Conserved() && rIdx == old(rIdx) + 1 && dropped == old(dropped) + 1 && Queue() == q[1..]
    {
      QueuedTail(ts[..], dx[..], dy[..], rIdx, wIdx + 1 - CAPACITY, wIdx);
      rIdx := wIdx + 1 - CAPACITY;
      dropped := dropped + 1;
    }

    method Append(now: real, mx: i32, my: i32, ghost q: seq<Mouse>)
      requires Valid() && q == Queue() && wIdx - rIdx < CAPACITY
      modifies this`wIdx, ts, dx, dy
      ensures Valid() && wIdx == old(wIdx) + 1 && Queue() == q + [Mouse(now, mx, my)]
    {
      QueuedAppend(ts[..], dx[..], dy[..], rIdx, wIdx, Mouse(now, mx, my));
      ghost var (ts0, xs0, ys0) := (ts[..], dx[..], dy[..]);
      var i := wIdx % CAPACITY;
      wIdx := wIdx + 1;
      dx[i] := mx;
      dy[i] := my;
      ts[i] := now;
      assert ts[..] == ts0[i := now] && dx[..] == xs0[i := mx] && dy[..] == ys0[i := my];
    }

    method RingPush(now: real, mx: i32, my: i32)
      requires Valid() && Conserved()
      modifies this`wIdx, this`rIdx, this`dropped, ts, dx, dy
      ensures Valid() && Conserved() && wIdx == old(wIdx) + 1 == served + dropped + |Queue()|
      ensures View() == Push(Linux, old(View()), Mouse(now, mx, my))
      ensures dropped == old(dropped) + if |old(Queue())| == CAPACITY then 1 else 0
    {
      if wIdx - rIdx >= CAPACITY {
        DropOldest(Queue());
      }
      Append(now, mx, my, Queue());
    }

    /** One turn of the drain: the oldest event, unless there is none or it is late. */
    method DrainOne(limit: Limit, sx: i32, sy: i32, ghost q: seq<Mouse>, ghost first: nat)
        returns (sx': i32, sy': i32, more: bool)
      requires Valid() && Conserved() && first <= rIdx && q == Queued(ts[..], dx[..], dy[..], first, wIdx)
      modifies this`rIdx, this`served
      ensures Valid() && Conserved() && q == Queued(ts[..], dx[..], dy[..], first, wIdx)
      ensures rIdx == old(rIdx) + if more then 1 else 0
      ensures more <==> old(rIdx) < wIdx && !Late(q[old(rIdx) - first], limit)
      ensures (sx', sy') == if more then Add(Linux, (sx, sy), q[old(rIdx) - first]) else (sx, sy)
      ensures served == old(served) + if more then 1 else 0
    {
      if rIdx == wIdx {
        return sx, sy, false;
      }
      var slot := rIdx % CAPACITY;
      assert q[rIdx - first] == Mouse(ts[slot], dx[slot], dy[slot]);
      if Late(Mouse(ts[slot], 0, 0), limit) {
        return sx, sy, false;
      }
      sx', sy', more := WrapAdd(sx, dx[slot]), WrapAdd(sy, dy[slot]), true;
      rIdx := rIdx + 1;
      served := served + 1;
    }

    method RingDrain(limit: Limit, ghost s: Tick) returns (sx: i32, sy: i32, ghost n: nat)
      requires Valid() && Conserved() && s == View()
      modifies this`rIdx, this`served
      ensures Valid() && Conserved() && n == DrainCount(s.queue, limit)
      ensures View() == s.(read := s.read + n, queue := s.queue[n..])
      ensures (sx, sy) == Deltas(Linux, s.queue[..n])
      ensures served == old(served) + n
    {
      ghost var (q, first) := (s.queue, rIdx);
      sx, sy, n := 0, 0, 0;
      var more := true;
      while more
        invariant Valid() && Conserved() && rIdx == first + n && n <= |q|
        invariant q == Queued(ts[..], dx[..], dy[..], first, wIdx)
        invariant DrainCount(q, limit) == n + if more then DrainCount(q[n..], limit) else 0
        invariant (sx, sy) == Deltas(Linux, q[..n])
        invariant served == old(served) + n
        decreases more, wIdx - rIdx
      {
        DrainStep(Linux, q, n, limit);
        sx, sy, more := DrainOne(limit, sx, sy, q, first);
        n := n + if more then 1 else 0;
      }
      QueuedTail(ts[..], dx[..], dy[..], first, rIdx, wIdx);
    }

    /** The countdown at the head of a serve. */
    method TakeTime(now: real, ghost s: Tick)
      requires Valid() && s == View()
      modifies this`remaining, this`lastServe
      ensures Valid() && View() == s.(remaining := Countdown(s, now), last := now)
    {
      var last := lastServe;
      lastServe := now;
      if last != 0.0 {
        remaining := Max(remaining - (now - last), 0.0);
      }
      assert Queue() == s.queue;
    }

    method HookedGetRawMouseAccumulators(mode: int, now: real) returns (outX: i32, outY: i32)
      requires Valid() && Conserved()
      modifies this`rIdx, this`served, this`remaining, this`lastServe
      ensures Valid() && Conserved() && View() == Serve(old(View()), mode, now).0
      ensures (outX, outY) == Deltas(Linux, Serve(old(View()), mode, now).1)
    {
      ghost var s := View();
      TakeTime(now, s);
      var limit := if mode == 2 then Upto(now - remaining) else Unlimited;
      ghost var n;
      outX, outY, n := RingDrain(limit, s.(remaining := remaining, last := now));
      ServeParts(s, mode, now, limit, n);
    }

    method HookedCreateMove(sample: real)
      requires Valid() && Conserved()
      modifies this`remaining
      ensures Valid() && Conserved() && View() == SetSample(Linux, old(View()), sample, lastServe)
    {
      remaining := sample;
      assert Queue() == old(Queue());
    }
  }
}
