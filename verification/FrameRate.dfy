/** Frame-rate independence: how often the game asks for mouse deltas inside a tick does not
    change what the tick receives. Time is exact and the clock does not run backwards. */
module FrameRate {
  import opened MouseServing

  predicate NotAfter(a: Limit, b: Limit) {
    b.Unlimited? || (a.Upto? && a.t <= b.t)
  }

  /** A drain up to an earlier limit takes a prefix of what a later limit takes, whatever is
      queued behind in between. The queue need not be sorted. */
  lemma {:induction false} DrainSplit(q: seq<Mouse>, more: seq<Mouse>, early: Limit, late: Limit)
    requires NotAfter(early, late)
    ensures DrainCount(q + more, late) == DrainCount(q, early) + DrainCount(q[DrainCount(q, early)..] + more, late)
  {
    if q == [] || Late(q[0], early) {
      assert DrainCount(q, early) == 0 && q[0..] == q;
    } else {
      var tail := q[1..];
      DrainSplit(tail, more, early, late);
      var n := DrainCount(tail, early);
      assert DrainCount(q, early) == 1 + n && q[1 + n..] == tail[n..];
      assert (q + more)[0] == q[0] && (q + more)[1..] == tail + more;
      assert DrainCount(q + more, late) == 1 + DrainCount(tail + more, late);
    }
  }

  /** The countdown composes, and what remains shrinks no faster than the clock runs: an extra
      serve changes neither the remaining time nor the threshold of a later one. */
  lemma CountdownComposes(s: Tick, t1: real, t2: real)
    requires 0.0 < s.last <= t1 <= t2
    ensures var s1 := s.(remaining := Countdown(s, t1), last := t1);
      Countdown(s1, t2) == Countdown(s, t2)
    ensures t1 - Countdown(s, t1) <= t2 - Countdown(s, t2)
  {
  }

  datatype Op = Pushed(m: Mouse) | Served(now: real)

  function Step(p: Platform, s: Tick, op: Op): (Tick, seq<Mouse>) {
    match op
    case Pushed(m) => (Push(p, s, m), [])
    case Served(now) => Serve(s, 2, now)
  }

  /** A run of pushes and mode-2 serves: the state after it and what each serve consumed. */
  function Run(p: Platform, s: Tick, ops: seq<Op>): (r: (Tick, seq<seq<Mouse>>))
    decreases |ops|
  {
    if ops == [] then (s, [])
    else
      var (s1, out) := Step(p, s, ops[0]);
      var (s2, outs) := Run(p, s1, ops[1..]);
      (s2, if ops[0].Served? then [out] + outs else outs)
  }

  function Concat(outs: seq<seq<Mouse>>): seq<Mouse> {
    if outs == [] then [] else outs[0] + Concat(outs[1..])
  }

  function Pushes(ops: seq<Op>): seq<Mouse> {
    if ops == [] then []
    else (if ops[0].Pushed? then [ops[0].m] else []) + Pushes(ops[1..])
  }

  /** Serves happen in clock order, between `from` and `to`. */
  predicate Ordered(ops: seq<Op>, from: real, to: real)
    decreases |ops|
  {
    if ops == [] then from <= to
    else if ops[0].Pushed? then Ordered(ops[1..], from, to)
    else from <= ops[0].now && Ordered(ops[1..], ops[0].now, to)
  }

  lemma {:induction false} OrderedEnds(ops: seq<Op>, from: real, to: real)
    requires Ordered(ops, from, to)
    ensures from <= to
    decreases |ops|
  {
    if ops != [] {
      OrderedEnds(ops[1..], if ops[0].Served? then ops[0].now else from, to);
    }
  }

  /** A window: the accumulator calls and mouse events after a refresh, closed by a serve. */
  function Close(p: Platform, s: Tick, ops: seq<Op>, to: real): (Tick, seq<Mouse>) {
    var (s1, outs) := Run(p, s, ops);
    var (s2, out) := Serve(s1, 2, to);
    (s2, Concat(outs) + out)
  }

  /** The same window with every serve but the closing one left out. */
  function Sparse(s: Tick, more: seq<Mouse>, to: real): (Tick, seq<Mouse>) {
    Serve(s.(queue := s.queue + more), 2, to)
  }

  /** An extra serve that leaves no trace: the state and the joined outputs are as without it. */
  predicate Unnoticed(s: Tick, t1: real, more: seq<Mouse>, to: real) {
    && Sparse(Serve(s, 2, t1).0, more, to).0 == Sparse(s, more, to).0
    && Serve(s, 2, t1).1 + Sparse(Serve(s, 2, t1).0, more, to).1 == Sparse(s, more, to).1
  }

  /** Serving once more before the closing serve leaves the read index, the remaining time and
      the last-serve time as without it, and the two outputs join to the single output. */
  lemma ExtraServe(s: Tick, t1: real, more: seq<Mouse>, to: real)
    requires 0.0 < s.last <= t1 <= to
    ensures Unnoticed(s, t1, more, to)
  {
    var (early, late) := (Threshold(s, 2, t1), Threshold(s, 2, to));
    var n := DrainCount(s.queue, early);
    var m := DrainCount(s.queue[n..] + more, late);
    assert DrainCount(s.queue + more, late) == n + m by {
      CountdownComposes(s, t1, to);
      DrainSplit(s.queue, more, early, late);
    }
    DrainParts(s.queue, more, n, m);
    SecondServe(s, t1, more, to);
    SingleServe(s, more, to, n + m);
  }

  lemma SingleServe(s: Tick, more: seq<Mouse>, to: real, k: nat)
    requires k == DrainCount(s.queue + more, Threshold(s, 2, to))
    ensures Sparse(s, more, to)
         == (Tick(s.read + k, (s.queue + more)[k..], Countdown(s, to), to), (s.queue + more)[..k])
  {
  }

  /** The closing serve after an extra one uses the threshold it would have used anyway. */
  lemma SecondServe(s: Tick, t1: real, more: seq<Mouse>, to: real)
    requires 0.0 < s.last <= t1 <= to
    ensures var n := DrainCount(s.queue, Threshold(s, 2, t1));
      var q := s.queue[n..] + more;
      var m := DrainCount(q, Threshold(s, 2, to));
      && Serve(s, 2, t1).1 == s.queue[..n]
      && Sparse(Serve(s, 2, t1).0, more, to) == (Tick(s.read + n + m, q[m..], Countdown(s, to), to), q[..m])
  {
    CountdownComposes(s, t1, to);
  }

  lemma DrainParts(q: seq<Mouse>, more: seq<Mouse>, n: nat, m: nat)
    requires n <= |q| && m <= |q[n..] + more|
    ensures (q + more)[n + m..] == (q[n..] + more)[m..]
    ensures (q + more)[..n + m] == q[..n] + (q[n..] + more)[..m]
  {
    assert (q + more)[n..] == q[n..] + more;
  }

  /** However often the window is served, it ends in the same state and yields the same events. */
  lemma {:induction false} WindowIndependence(p: Platform, s: Tick, ops: seq<Op>, to: real)
    requires 0.0 < s.last && Ordered(ops, s.last, to)
    requires |s.queue| + |Pushes(ops)| <= CAPACITY
    ensures Close(p, s, ops, to) == Sparse(s, Pushes(ops), to)
    decreases |ops|
  {
    if ops == [] {
      assert s.queue + [] == s.queue;
      assert Concat([]) + Serve(s, 2, to).1 == Serve(s, 2, to).1;
    } else if ops[0].Pushed? {
      var (m, rest) := (ops[0].m, Pushes(ops[1..]));
      assert Pushes(ops) == [m] + rest;
      assert (s.queue + [m]) + rest == s.queue + ([m] + rest);
      WindowIndependence(p, Push(p, s, m), ops[1..], to);
    } else {
      var t1 := ops[0].now;
      OrderedEnds(ops[1..], t1, to);
      assert Pushes(ops) == Pushes(ops[1..]);
      WindowIndependence(p, Serve(s, 2, t1).0, ops[1..], to);
      ExtraServe(s, t1, Pushes(ops), to);
      CloseServed(p, s, ops, to);
    }
  }

  lemma CloseServed(p: Platform, s: Tick, ops: seq<Op>, to: real)
    requires ops != [] && ops[0].Served?
    ensures var (s1, out) := Serve(s, 2, ops[0].now);
      Close(p, s, ops, to) == (Close(p, s1, ops[1..], to).0, out + Close(p, s1, ops[1..], to).1)
  {
    var (s1, out) := Serve(s, 2, ops[0].now);
    var (s2, outs) := Run(p, s1, ops[1..]);
    assert Run(p, s, ops) == (s2, [out] + outs);
    assert ([out] + outs)[1..] == outs;
    assert (out + Concat(outs)) + Serve(s2, 2, to).1 == out + (Concat(outs) + Serve(s2, 2, to).1);
  }

  /** The closed form on which the feature rests: after any run of serves and events the time left
      is the sample's less the time since the reference instant, never below zero. */
  lemma {:induction false} CountdownClosedForm(p: Platform, s: Tick, ops: seq<Op>, to: real)
    requires 0.0 < s.last && Ordered(ops, s.last, to)
    ensures Serve(Run(p, s, ops).0, 2, to).0.remaining == Max(0.0, s.remaining - (to - s.last))
    decreases |ops|
  {
    if ops != [] {
      if ops[0].Served? {
        OrderedEnds(ops[1..], ops[0].now, to);
      }
      CountdownClosedForm(p, Step(p, s, ops[0]).0, ops[1..], to);
    }
  }

  // ---- the first serve of a session, before which the clock has no reference instant ----

  lemma ColdUnnoticed(s: Tick, t1: real, more: seq<Mouse>, to: real)
    requires s.last == 0.0 && 0.0 < t1 <= to
    requires s.remaining == 0.0 || (s.remaining > 0.0 && t1 == to)
    ensures Unnoticed(s, t1, more, to)
  {
    var s1 := Serve(s, 2, t1).0;
    var (early, late) := (Threshold(s, 2, t1), Threshold(s, 2, to));
    assert Threshold(s1, 2, to) == late && Countdown(s1, to) == Countdown(s, to);
    var n := DrainCount(s.queue, early);
    var m := DrainCount(s.queue[n..] + more, late);
    DrainSplit(s.queue, more, early, late);
    DrainParts(s.queue, more, n, m);
    SingleServe(s1, more, to, m);
    SingleServe(s, more, to, n + m);
  }

  /** When no serve has happened yet the first one does not count down, so an extra serve is
      noticed: exactly when there is time left and the two serves are apart, or less than none. */
  lemma ColdStartIff(s: Tick, t1: real, more: seq<Mouse>, to: real)
    requires s.last == 0.0 && 0.0 < t1 <= to
    ensures Unnoticed(s, t1, more, to) <==> s.remaining == 0.0 || (s.remaining > 0.0 && t1 == to)
  {
    if s.remaining == 0.0 || (s.remaining > 0.0 && t1 == to) {
      ColdUnnoticed(s, t1, more, to);
    } else {
      assert Sparse(Serve(s, 2, t1).0, more, to).0.remaining != Sparse(s, more, to).0.remaining;
    }
  }

  /** On Linux the exception is real: the refresh leaves the clock alone, so with any positive
      sample two first serves that are apart are noticed, and an event between the two thresholds
      is handed out at once instead of later. */
  lemma LinuxColdStart(sample: real, at: real, t1: real, to: real)
    requires 0.0 < sample && 0.0 < at <= t1 < to
    ensures var s := SetSample(Linux, Tick(0, [], 0.0, 0.0), sample, at);
      && (forall more :: !Unnoticed(s, t1, more, to))
      && exists m :: Sparse(Serve(s, 2, t1).0, [m], to).1 == [m] && Sparse(s, [m], to).1 == []
  {
    var s := SetSample(Linux, Tick(0, [], 0.0, 0.0), sample, at);
    forall more ensures !Unnoticed(s, t1, more, to) {
      ColdStartIff(s, t1, more, to);
    }
    var m := Mouse(to - Max(sample - (to - t1), 0.0), 1, 0);
    assert [] + [m] == [m] && [m][1..] == [];
    assert Sparse(Serve(s, 2, t1).0, [m], to).1 == [m] && Sparse(s, [m], to).1 == [];
  }

  /** No clock reference only while there is no time left to count down. */
  predicate Referenced(s: Tick) {
    0.0 <= s.last && (s.last == 0.0 ==> s.remaining == 0.0)
  }

  /** On Windows it cannot happen: the refresh restarts the clock, so no session has time left
      without a reference instant, and every extra serve is unnoticed. */
  lemma WindowsNeverCold(s: Tick, m: Mouse, mode: int, sample: real, now: real, more: seq<Mouse>, to: real)
    requires Referenced(s) && 0.0 < now && s.last <= now <= to
    ensures Referenced(Tick(0, [], 0.0, 0.0)) && Referenced(Push(Windows, s, m))
    ensures Referenced(Serve(s, mode, now).0) && Referenced(SetSample(Windows, s, sample, now))
    ensures Unnoticed(s, now, more, to)
  {
    if s.last == 0.0 {
      ColdStartIff(s, now, more, to);
    } else {
      ExtraServe(s, now, more, to);
    }
  }

  /** A tick: its refresh, its calls and events, and its closing serve. */
  datatype Window = Window(sample: real, at: real, ops: seq<Op>, to: real)

  function Play(p: Platform, s: Tick, ws: seq<Window>): (Tick, seq<seq<Mouse>>)
    decreases |ws|
  {
    if ws == [] then (s, [])
    else
      var (s1, out) := Close(p, SetSample(p, s, ws[0].sample, ws[0].at), ws[0].ops, ws[0].to);
      var (s2, outs) := Play(p, s1, ws[1..]);
      (s2, [out] + outs)
  }

  /** Two sessions with the same refreshes, events and closing serves; only the number and the
      moments of the other serves differ. */
  predicate SameInput(a: seq<Window>, b: seq<Window>)
    decreases |a|
  {
    |a| == |b| && (a == [] ||
      (&& a[0].sample == b[0].sample && a[0].at == b[0].at && a[0].to == b[0].to
       && Pushes(a[0].ops) == Pushes(b[0].ops)
       && SameInput(a[1..], b[1..])))
  }

  /** Clock order throughout, and no window overflows the ring. */
  predicate Sane(p: Platform, s: Tick, ws: seq<Window>)
    decreases |ws|
  {
    ws == [] ||
      (var s0 := SetSample(p, s, ws[0].sample, ws[0].at);
       && s.last <= ws[0].at && 0.0 < s0.last && Ordered(ws[0].ops, ws[0].at, ws[0].to)
       && |s.queue| + |Pushes(ws[0].ops)| <= CAPACITY
       && Sane(p, Close(p, s0, ws[0].ops, ws[0].to).0, ws[1..]))
  }

  lemma {:induction false} OrderedEarlier(ops: seq<Op>, from: real, earlier: real, to: real)
    requires Ordered(ops, from, to) && earlier <= from
    ensures Ordered(ops, earlier, to)
    decreases |ops|
  {
    if ops != [] && ops[0].Pushed? {
      OrderedEarlier(ops[1..], from, earlier, to);
    }
  }

  /** Frame-rate independence over whole sessions, on both platforms: the same input yields the
      same events in every tick and the same final state, at any two serving rates. */
  lemma {:induction false} FrameRateIndependence(p: Platform, s: Tick, a: seq<Window>, b: seq<Window>)
    requires SameInput(a, b) && Sane(p, s, a) && Sane(p, s, b)
    ensures Play(p, s, a) == Play(p, s, b)
    decreases |a|
  {
    if a != [] {
      var s0 := SetSample(p, s, a[0].sample, a[0].at);
      OrderedEarlier(a[0].ops, a[0].at, s0.last, a[0].to);
      OrderedEarlier(b[0].ops, b[0].at, s0.last, b[0].to);
      WindowIndependence(p, s0, a[0].ops, a[0].to);
      WindowIndependence(p, s0, b[0].ops, b[0].to);
      FrameRateIndependence(p, Close(p, s0, a[0].ops, a[0].to).0, a[1..], b[1..]);
    }
  }

  // ---- from events to deltas ----

  function Abs(x: int): nat {
    if x < 0 then -x else x
  }

  function SumX(q: seq<Mouse>): int {
    if q == [] then 0 else SumX(q[..|q| - 1]) + q[|q| - 1].x
  }

  function SumY(q: seq<Mouse>): int {
    if q == [] then 0 else SumY(q[..|q| - 1]) + q[|q| - 1].y
  }

  /** Total motion, ignoring direction: while it fits an i32 no sum can saturate or wrap. */
  function Motion(q: seq<Mouse>): nat {
    if q == [] then 0 else Motion(q[..|q| - 1]) + Abs(q[|q| - 1].x) + Abs(q[|q| - 1].y)
  }

  lemma {:induction false} DeltasExact(p: Platform, q: seq<Mouse>)
    requires Motion(q) <= I32_MAX
    ensures Deltas(p, q) == (SumX(q), SumY(q))
    ensures Abs(SumX(q)) + Abs(SumY(q)) <= Motion(q)
  {
    if q != [] {
      var (rest, m) := (q[..|q| - 1], q[|q| - 1]);
      DeltasExact(p, rest);
      AddExact(p, (SumX(rest), SumY(rest)), m);
    }
  }

  lemma AddExact(p: Platform, acc: (int, int), m: Mouse)
    requires Abs(acc.0) + Abs(m.x) <= I32_MAX && Abs(acc.1) + Abs(m.y) <= I32_MAX
    ensures Add(p, acc, m) == (acc.0 + m.x, acc.1 + m.y)
  {
  }

  lemma {:induction false} SumsJoin(a: seq<Mouse>, b: seq<Mouse>)
    ensures SumX(a + b) == SumX(a) + SumX(b) && SumY(a + b) == SumY(a) + SumY(b)
    ensures Motion(a + b) == Motion(a) + Motion(b)
  {
    if b == [] {
      assert a + b == a;
    } else {
      SumsJoin(a, b[..|b| - 1]);
      assert (a + b)[..|a + b| - 1] == a + b[..|b| - 1];
    }
  }

  /** What a player receives from a list of serves. */
  function Received(p: Platform, outs: seq<seq<Mouse>>): (int, int) {
    if outs == [] then (0, 0)
    else
      var (d, r) := (Deltas(p, outs[0]), Received(p, outs[1..]));
      (d.0 + r.0, d.1 + r.1)
  }

  /** Without saturation the deltas handed out serve by serve add up to the motion of the
      concatenated events, however the serves cut them. */
  lemma {:induction false} ReceivedIsMotion(p: Platform, outs: seq<seq<Mouse>>)
    requires Motion(Concat(outs)) <= I32_MAX
    ensures Received(p, outs) == (SumX(Concat(outs)), SumY(Concat(outs)))
  {
    if outs != [] {
      SumsJoin(outs[0], Concat(outs[1..]));
      DeltasExact(p, outs[0]);
      ReceivedIsMotion(p, outs[1..]);
    }
  }

  lemma {:induction false} ConcatAppend(outs: seq<seq<Mouse>>, out: seq<Mouse>)
    ensures Concat(outs + [out]) == Concat(outs) + out
  {
    if outs == [] {
      assert Concat([out]) == out + Concat([]);
    } else {
      ConcatAppend(outs[1..], out);
      assert (outs + [out])[1..] == outs[1..] + [out];
    }
  }

  /** The deltas received in a window do not depend on how often it was served. */
  lemma DeltaIndependence(p: Platform, s: Tick, a: seq<Op>, b: seq<Op>, to: real)
    requires 0.0 < s.last && Ordered(a, s.last, to) && Ordered(b, s.last, to)
    requires Pushes(a) == Pushes(b) && |s.queue| + |Pushes(a)| <= CAPACITY
    requires Motion(Sparse(s, Pushes(a), to).1) <= I32_MAX
    ensures Received(p, Run(p, s, a).1 + [Serve(Run(p, s, a).0, 2, to).1])
         == Received(p, Run(p, s, b).1 + [Serve(Run(p, s, b).0, 2, to).1])
  {
    WindowIndependence(p, s, a, to);
    WindowIndependence(p, s, b, to);
    ConcatAppend(Run(p, s, a).1, Serve(Run(p, s, a).0, 2, to).1);
    ConcatAppend(Run(p, s, b).1, Serve(Run(p, s, b).0, 2, to).1);
    ReceivedIsMotion(p, Run(p, s, a).1 + [Serve(Run(p, s, a).0, 2, to).1]);
    ReceivedIsMotion(p, Run(p, s, b).1 + [Serve(Run(p, s, b).0, 2, to).1]);
  }
}
