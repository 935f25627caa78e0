/** The log block run by one thread at a time, and the controller's draining of it. */
module LogDrain {
  import opened Bytes
  import opened LogProtocol
  import HitLists

  type Text = (LogLevel, seq<byte>)

  datatype Delivery = Delivery(number: nat, text: Text)

  /** A ring in which no push is in progress. */
  ghost predicate QuietRing(slots: seq<Slot>, log: seq<Record>) {
    && Sized(slots)
    && (forall k | 0 <= k < LOG_SLOTS :: SlotOk(slots[k], k, log, false, false))
    && (forall q: pos | Recent(|log|, false, q) :: slots[SlotIndex(q)].sequence == q)
  }

  /** The last 64 records, and nothing else, under their own numbers. */
  function Window(log: seq<Record>, q: nat): Option<Text> {
    if 0 < q <= |log| < q + LOG_SLOTS then Some((log[q - 1].level, Kept(log[q - 1]))) else None
  }

  lemma QuietReadsWindow(slots: seq<Slot>, log: seq<Record>, q: nat)
    requires QuietRing(slots, log)
    ensures ReadNow(slots, q) == Window(log, q)
  {
    if q > 0 {
      var k := SlotIndex(q);
      assert SlotOk(slots[k], k, log, false, false);
      assert Recent(|log|, false, q) ==> slots[k].sequence == q;
    }
  }

  /** One complete push keeps the ring quiet: the oldest record makes room for the newest. */
  lemma PushKeepsQuiet(slots: seq<Slot>, log: seq<Record>, r: Record, slot: Slot)
    requires QuietRing(slots, log)
    requires slot.sequence == |log| + 1 && Holds(slot, r) && |slot.data| == LOG_BYTES
    ensures QuietRing(slots[SlotIndex(|log| + 1) := slot], log + [r])
  {
    var n := |log| + 1;
    var (slots', log') := (slots[SlotIndex(n) := slot], log + [r]);
    forall k | 0 <= k < LOG_SLOTS
      ensures SlotOk(slots'[k], k, log', false, false)
    {
      if k != SlotIndex(n) {
        assert SlotOk(slots[k], k, log, false, false);
        if slots[k].sequence > 0 {
          IndexApart(slots[k].sequence, n);
        }
      }
    }
    forall q: pos | Recent(n, false, q)
      ensures slots'[SlotIndex(q)].sequence == q
    {
      if q < n {
        assert Recent(|log|, false, q);
        IndexApart(q, n);
      }
    }
  }

  class ControlBlock {
    const slots: array<Slot>
    var logWriter: nat
    var logWrite: nat
    ghost var log: seq<Record>

    ghost predicate Valid()
      reads this, slots
    {
      slots.Length == LOG_SLOTS && QuietRing(slots[..], log) && logWrite == |log| && logWriter == 0
    }

    constructor ()
      ensures Valid() && log == []
    {
      slots := new Slot[LOG_SLOTS](_ => Slot(0, 0, LevelCode(Info), seq(LOG_BYTES, _ => 0)));
      logWriter, logWrite, log := 0, 0, [];
    }

    /** The part of `push_log` between allocation and unlock. */
    method FillSlot(i: nat, sequence: pos, level: LogLevel, message: seq<byte>)
      requires i < slots.Length && |slots[i].data| == LOG_BYTES
      modifies slots
      ensures slots[..] == old(slots[..])[i := slots[i]]
      ensures slots[i].sequence == sequence && |slots[i].data| == LOG_BYTES
      ensures Holds(slots[i], Record(level, message))
    {
      slots[i] := slots[i].(sequence := 0);
      var len := Min(|message|, LOG_BYTES);
      for k := 0 to len
        invariant slots[..] == old(slots[..])[i := slots[i]] && |slots[i].data| == LOG_BYTES
        invariant slots[i].data[..k] == message[..k]
      {
        slots[i] := slots[i].(data := slots[i].data[k := message[k]]);
      }
      slots[i] := slots[i].(level := LevelCode(level));
      slots[i] := slots[i].(len := len);
      slots[i] := slots[i].(sequence := sequence);
    }

    /** `push_log` without interference. */
    method PushLog(level: LogLevel, message: seq<byte>)
      requires Valid()
      modifies this, slots
      ensures Valid() && log == old(log) + [Record(level, message)]
    {
      logWriter := 1;
      logWrite := logWrite + 1;
      var sequence: pos := logWrite;
      ghost var before := slots[..];
      FillSlot(SlotIndex(sequence), sequence, level, message);
      PushKeepsQuiet(before, log, Record(level, message), slots[SlotIndex(sequence)]);
      log := log + [Record(level, message)];
      logWriter := 0;
    }

    /** `read_log` without interference: exactly the last 64 records are there. */
    method ReadLog(sequence: nat) returns (text: Option<Text>)
      requires Valid()
      ensures text == Window(log, sequence)
    {
      QuietReadsWindow(slots[..], log, sequence);
      if sequence == 0 {
        return None;
      }
      var slot := slots[SlotIndex(sequence)];
      if slot.sequence != sequence {
        return None;
      }
      var level := LevelOf(slot.level);
      if level.None? {
        return None;
      }
      var len := Min(slot.len, LOG_BYTES);
      var out := [];
      for k := 0 to len
        invariant out == slot.data[..k]
      {
        out := out + [slot.data[k]];
      }
      if slots[SlotIndex(sequence)].sequence == sequence {
        return Some((level.value, out));
      }
      return None;
    }
  }

  // ---- draining ----

  /** The numbers from `a` up to but not including `b`. */
  function Range(a: nat, b: nat): (r: seq<nat>)
    ensures |r| == if a < b then b - a else 0
  {
    if a < b then Range(a, b - 1) + [b - 1] else []
  }

  /** Positive, strictly increasing, and below a bound. */
  predicate Increasing(s: seq<nat>, bound: nat) {
    s == [] || (0 < s[|s| - 1] < bound && Increasing(s[..|s| - 1], s[|s| - 1]))
  }

  /** The numbers of a list whose one read attempt found a record. */
  function Found(attempts: seq<nat>, read: nat -> Option<Text>): seq<Delivery> {
    if attempts == [] then []
    else
      var last := attempts[|attempts| - 1];
      var rest := Found(attempts[..|attempts| - 1], read);
      match read(last)
      case None => rest
      case Some(text) => rest + [Delivery(last, text)]
  }

  lemma FoundSnoc(attempts: seq<nat>, n: nat, read: nat -> Option<Text>)
    ensures Found(attempts + [n], read)
         == Found(attempts, read) + Delivered(n, read(n))
  {
    assert (attempts + [n])[..|attempts|] == attempts;
  }

  /** What the attempts from `a` up to but not including `b` find. */
  function FoundBetween(a: nat, b: nat, read: nat -> Option<Text>): seq<Delivery> {
    if a < b then FoundBetween(a, b - 1, read) + Delivered(b - 1, read(b - 1)) else []
  }

  /** From `start` up to `next` every number was attempted, with these answers. */
  ghost predicate Reached(next: nat, delivered: seq<Delivery>, attempted: seq<nat>,
                          start: nat, before: seq<Delivery>, tried: seq<nat>, answers: nat -> Option<Text>) {
    && start <= next && attempted == tried + Range(start, next)
    && delivered == before + FoundBetween(start, next, answers)
  }

  lemma ReachedNext(next: nat, delivered: seq<Delivery>, attempted: seq<nat>,
                    start: nat, before: seq<Delivery>, tried: seq<nat>, answers: nat -> Option<Text>)
    requires Reached(next, delivered, attempted, start, before, tried, answers)
    ensures Reached(next + 1, delivered + Delivered(next, answers(next)), attempted + [next],
                    start, before, tried, answers)
  {
    HitLists.Assoc(tried, Range(start, next), [next]);
    HitLists.Assoc(before, FoundBetween(start, next, answers), Delivered(next, answers(next)));
  }

  /** Over a whole run: no number is attempted twice or out of order, what was delivered is what
      those attempts found, and every earlier number was attempted or counted as dropped. */
  ghost predicate Drained(next: nat, delivered: seq<Delivery>, attempted: seq<nat>, dropped: nat,
                          read: nat -> Option<Text>) {
    && Increasing(attempted, next)
    && delivered == Found(attempted, read)
    && dropped + |attempted| == next - 1
  }

  /** The answers, once number `n` has been asked for. */
  function Answering(read: nat -> Option<Text>, n: nat, answer: Option<Text>): nat -> Option<Text> {
    (q: nat) => if q == n then answer else read(q)
  }

  function Delivered(n: nat, answer: Option<Text>): seq<Delivery> {
    if answer.Some? then [Delivery(n, answer.value)] else []
  }

  lemma {:induction false} FoundAgree(attempts: seq<nat>, bound: nat, read: nat -> Option<Text>,
                                      n: nat, answer: Option<Text>)
    requires Increasing(attempts, bound) && bound <= n
    ensures Found(attempts, Answering(read, n, answer)) == Found(attempts, read)
  {
    if attempts != [] {
      FoundAgree(attempts[..|attempts| - 1], attempts[|attempts| - 1], read, n, answer);
    }
  }

  lemma DrainedAttempt(next: nat, delivered: seq<Delivery>, attempted: seq<nat>, dropped: nat,
                       read: nat -> Option<Text>, answer: Option<Text>)
    requires next >= 1 && Drained(next, delivered, attempted, dropped, read)
    ensures Drained(next + 1, delivered + Delivered(next, answer), attempted + [next], dropped,
                    Answering(read, next, answer))
  {
    var read' := Answering(read, next, answer);
    FoundAgree(attempted, next, read, next, answer);
    FoundSnoc(attempted, next, read');
    assert (attempted + [next])[..|attempted|] == attempted;
  }

  /** How many records the ring lost since `next`, when `latest` is the newest. */
  function Overrun(next: nat, latest: nat): nat {
    if latest >= next + LOG_SLOTS then latest - LOG_SLOTS + 1 - next else 0
  }

  /** The controller's side. `read` records what `read_log` answered for each number attempted. */
  class HookSession {
    var nextLog: nat
    var delivered: seq<Delivery>
    ghost var attempted: seq<nat>
    ghost var read: nat -> Option<Text>
    ghost var droppedTotal: nat

    ghost predicate Valid()
      reads this
    {
      nextLog >= 1 && Drained(nextLog, delivered, attempted, droppedTotal, read)
    }

    constructor ()
      ensures Valid() && nextLog == 1 && delivered == [] && attempted == [] && droppedTotal == 0
    {
      nextLog, delivered, attempted, droppedTotal := 1, [], [], 0;
      read := (q: nat) => None;
    }

    /** One turn of the draining loop, given the answer of `read_log`. */
    method Attempt(answer: Option<Text>)
      requires Valid()
      modifies this
      ensures Valid() && nextLog == old(nextLog) + 1
      ensures attempted == old(attempted) + [old(nextLog)] && droppedTotal == old(droppedTotal)
      ensures read == Answering(old(read), old(nextLog), answer)
      ensures delivered == old(delivered) + Delivered(old(nextLog), answer)
    {
      DrainedAttempt(nextLog, delivered, attempted, droppedTotal, read, answer);
      if answer.Some? {
        delivered := delivered + [Delivery(nextLog, answer.value)];
      } else {
        assert delivered + [] == delivered;
      }
      attempted, read := attempted + [nextLog], Answering(read, nextLog, answer);
      nextLog := nextLog + 1;
    }

    /** Skipping what the ring has already overwritten. */
    method SkipOverrun(latest: nat) returns (dropped: nat)
      requires Valid()
      modifies this
      ensures Valid() && attempted == old(attempted) && delivered == old(delivered) && read == old(read)
      ensures dropped == Overrun(old(nextLog), latest) && nextLog == old(nextLog) + dropped
      ensures droppedTotal == old(droppedTotal) + dropped
    {
      dropped := 0;
      if latest >= nextLog + LOG_SLOTS {
        var oldest := latest - LOG_SLOTS + 1;
        dropped := oldest - nextLog;
        droppedTotal := droppedTotal + dropped;
        nextLog := oldest;
      }
    }

    /** The loop: one attempt for each number up to `latest`; `answers` is what `read_log` says at
        each, whatever the writers are doing then. */
    method DrainTo(latest: nat, answers: nat -> Option<Text>)
      requires Valid()
      modifies this
      ensures Valid() && droppedTotal == old(droppedTotal)
      ensures nextLog == if old(nextLog) <= latest then latest + 1 else old(nextLog)
      ensures attempted == old(attempted) + Range(old(nextLog), latest + 1)
      ensures delivered == old(delivered) + FoundBetween(old(nextLog), latest + 1, answers)
    {
      ghost var (start, before, tried) := (nextLog, delivered, attempted);
      while nextLog <= latest
        invariant Valid() && droppedTotal == old(droppedTotal)
        invariant nextLog <= latest + 1 || nextLog == start
        invariant Reached(nextLog, delivered, attempted, start, before, tried, answers)
      {
        DrainTurn(answers, start, before, tried);
      }
    }

    method DrainTurn(answers: nat -> Option<Text>, ghost start: nat, ghost before: seq<Delivery>, ghost tried: seq<nat>)
      requires Valid() && Reached(nextLog, delivered, attempted, start, before, tried, answers)
      modifies this
      ensures Valid() && Reached(nextLog, delivered, attempted, start, before, tried, answers)
      ensures nextLog == old(nextLog) + 1 && droppedTotal == old(droppedTotal)
    {
      ghost var (q, d, a) := (nextLog, delivered, attempted);
      var answer := answers(nextLog);
      Attempt(answer);
      assert nextLog == q + 1 && delivered == d + Delivered(q, answer) && attempted == a + [q];
      ReachedNext(q, d, a, start, before, tried, answers);
    }

    method FlushLogs(latest: nat, answers: nat -> Option<Text>) returns (dropped: nat)
      requires Valid()
      modifies this
      ensures Valid() && droppedTotal == old(droppedTotal) + dropped
      ensures nextLog == if old(nextLog) <= latest then latest + 1 else old(nextLog)
      ensures dropped == Overrun(old(nextLog), latest)
      ensures attempted == old(attempted) + Range(old(nextLog) + dropped, latest + 1)
      ensures delivered == old(delivered) + FoundBetween(old(nextLog) + dropped, latest + 1, answers)
      ensures old(nextLog) <= latest + 1 ==> dropped + |attempted| - |old(attempted)| == latest - old(nextLog) + 1
    {
      dropped := SkipOverrun(latest);
      DrainTo(latest, answers);
    }

    /** The loop beside which no push runs: each read finds its record. */
    method DrainBlock(block: ControlBlock)
      requires Valid() && block.Valid() && nextLog <= |block.log| + 1 <= nextLog + LOG_SLOTS
      modifies this
      ensures Valid() && droppedTotal == old(droppedTotal) && nextLog == |block.log| + 1
      ensures delivered == old(delivered) + Records(block.log, old(nextLog), nextLog)
    {
      ghost var (start, before, log) := (nextLog, delivered, block.log);
      assert before == before + Records(log, start, start);
      while nextLog <= block.logWrite
        invariant Valid() && droppedTotal == old(droppedTotal) && start <= nextLog <= |log| + 1
        invariant delivered == before + Records(log, start, nextLog)
      {
        ghost var q := nextLog;
        var answer := block.ReadLog(nextLog);
        Attempt(answer);
        RecordsNext(log, start, q);
        HitLists.Assoc(before, Records(log, start, q), [Delivery(q, Pushed(log, q))]);
      }
    }

    /** A flush beside which no push runs: every record pushed since the last flush is delivered,
        in order, or counted dropped: delivered + dropped = pushed. */
    method FlushQuiet(block: ControlBlock) returns (dropped: nat)
      requires Valid() && block.Valid() && nextLog <= |block.log| + 1
      modifies this
      ensures Valid() && nextLog == |block.log| + 1 && droppedTotal == old(droppedTotal) + dropped
      ensures dropped == Overrun(old(nextLog), |block.log|)
      ensures delivered == old(delivered) + Records(block.log, old(nextLog) + dropped, |block.log| + 1)
      ensures |delivered| - |old(delivered)| + dropped == |block.log| + 1 - old(nextLog)
    {
      dropped := SkipOverrun(block.logWrite);
      DrainBlock(block);
    }

    /** Every delivered text is that of its push, and every number before the next one was delivered
        or counted as dropped. */
    ghost predicate Tallied(log: seq<Record>)
      reads this
    {
      && nextLog <= |log| + 1 && |delivered| + droppedTotal == nextLog - 1
      && AsPushed(delivered, log)
    }

    /** A whole session of quiet pushes and flushes: whenever a flush has ended,
        delivered + dropped = pushed, and what was delivered is what was pushed, in order. */
    method RunSession(block: ControlBlock, acts: seq<Act>)
      requires Valid() && block.Valid() && Tallied(block.log)
      modifies this, block, block.slots
      ensures Valid() && block.Valid() && Tallied(block.log)
      ensures block.log == old(block.log) + PushedBy(acts)
      ensures acts != [] && acts[|acts| - 1].Flush? ==> |delivered| + droppedTotal == |block.log|
      ensures forall i, j | 0 <= i < j < |delivered| :: delivered[i].number < delivered[j].number
    {
      assert block.log == block.log + PushedBy(acts[..0]);
      for i := 0 to |acts|
        invariant Valid() && block.Valid() && Tallied(block.log)
        invariant block.log == old(block.log) + PushedBy(acts[..i])
        invariant i > 0 && acts[i - 1].Flush? ==> |delivered| + droppedTotal == |block.log|
      {
        assert acts[..i + 1][..i] == acts[..i];
        Step(block, acts[i]);
      }
      assert acts[..|acts|] == acts;
      FoundIncreasing(attempted, nextLog, read);
    }

    method Step(block: ControlBlock, act: Act)
      requires Valid() && block.Valid() && Tallied(block.log)
      modifies this, block, block.slots
      ensures Valid() && block.Valid() && Tallied(block.log)
      ensures block.log == old(block.log) + if act.Push? then [Record(act.level, act.message)] else []
      ensures act.Flush? ==> |delivered| + droppedTotal == |block.log|
    {
      ghost var (log, before, next) := (block.log, delivered, nextLog);
      match act {
        case Push(level, message) =>
          block.PushLog(level, message);
          assert AsPushed(before, log + [Record(level, message)]);
        case Flush =>
          var dropped := FlushQuiet(block);
          RecordsAsPushed(log, next + dropped, |log| + 1);
          assert AsPushed(before + Records(log, next + dropped, |log| + 1), log);
          assert log + [] == log;
      }
    }
  }

  datatype Act = Push(level: LogLevel, message: seq<byte>) | Flush

  function PushedBy(acts: seq<Act>): seq<Record> {
    if acts == [] then []
    else
      var last := acts[|acts| - 1];
      PushedBy(acts[..|acts| - 1]) + if last.Push? then [Record(last.level, last.message)] else []
  }

  ghost predicate AsPushed(delivered: seq<Delivery>, log: seq<Record>) {
    forall d <- delivered :: 0 < d.number <= |log| && d.text == Pushed(log, d.number)
  }

  lemma {:induction false} RecordsAsPushed(log: seq<Record>, first: nat, end: nat)
    requires 0 < first && end <= |log| + 1
    ensures AsPushed(Records(log, first, end), log)
  {
    if first < end {
      RecordsAsPushed(log, first, end - 1);
    }
  }

  lemma RecordsNext(log: seq<Record>, first: nat, q: nat)
    requires 0 < first <= q <= |log|
    ensures Records(log, first, q + 1) == Records(log, first, q) + [Delivery(q, Pushed(log, q))]
  {
  }

  /** Delivered numbers strictly increase: they are a subsequence of the attempts. */
  lemma {:induction false} FoundIncreasing(attempts: seq<nat>, bound: nat, read: nat -> Option<Text>)
    requires Increasing(attempts, bound)
    ensures forall i, j | 0 <= i < j < |Found(attempts, read)| ::
      Found(attempts, read)[i].number < Found(attempts, read)[j].number
    ensures forall i | 0 <= i < |Found(attempts, read)| ::
      Found(attempts, read)[i].number < bound && FromAttempt(attempts, read, Found(attempts, read)[i])
  {
    if attempts != [] {
      var (rest, last) := (attempts[..|attempts| - 1], attempts[|attempts| - 1]);
      FoundIncreasing(rest, last, read);
      assert attempts == rest + [last];
      FoundSnoc(rest, last, read);
      var g := Found(rest, read);
      forall i | 0 <= i < |g|
        ensures g[i].number < last && FromAttempt(attempts, read, g[i])
      {
        assert FromAttempt(rest, read, g[i]);
      }
    }
  }

  predicate FromAttempt(attempts: seq<nat>, read: nat -> Option<Text>, d: Delivery) {
    d.number in attempts && read(d.number) == Some(d.text)
  }

  /** What is to be delivered for the `q`-th push. */
  function Pushed(log: seq<Record>, q: nat): Text
    requires 0 < q <= |log|
  {
    (log[q - 1].level, Kept(log[q - 1]))
  }

  /** From `next` on, a read finds the record if the ring still has it. */
  ghost predicate Answers(log: seq<Record>, next: nat, read: nat -> Option<Text>) {
    forall q: nat | 0 < q && next <= q <= |log| < q + LOG_SLOTS :: read(q) == Some(Pushed(log, q))
  }

  /** What is read from `next` on is read from this ring; earlier reads are of earlier rings. */
  ghost predicate ReadsRing(slots: seq<Slot>, log: seq<Record>, next: nat, read: nat -> Option<Text>)
    requires Sized(slots)
  {
    forall q: nat | next <= q <= |log| :: read(q) == ReadNow(slots, q)
  }

  lemma QuietAnswers(slots: seq<Slot>, log: seq<Record>, next: nat, read: nat -> Option<Text>)
    requires QuietRing(slots, log) && ReadsRing(slots, log, next, read)
    ensures Answers(log, next, read)
  {
    forall q: nat | 0 < q && next <= q <= |log| < q + LOG_SLOTS
      ensures read(q) == Some(Pushed(log, q))
    {
      QuietReadsWindow(slots, log, q);
    }
  }

  /** The records pushed under the numbers from `first` up to but not including `end`. */
  function Records(log: seq<Record>, first: nat, end: nat): (r: seq<Delivery>)
    requires 0 < first && end <= |log| + 1
    ensures |r| == if first < end then end - first else 0
  {
    if first < end then Records(log, first, end - 1) + [Delivery(end - 1, Pushed(log, end - 1))] else []
  }

  lemma {:induction false} FoundRecords(log: seq<Record>, first: nat, end: nat, read: nat -> Option<Text>)
    requires 0 < first <= end <= |log| + 1 <= first + LOG_SLOTS && Answers(log, first, read)
    ensures FoundBetween(first, end, read) == Records(log, first, end)
  {
    if first < end {
      FoundRecords(log, first, end - 1, read);
      assert read(end - 1) == Some(Pushed(log, end - 1));
    }
  }

  /** If every push has completed and none runs during the flush, its attempts find exactly the
      records pushed since the last flush that were not overwritten. */
  lemma QuietFlushDelivers(slots: seq<Slot>, log: seq<Record>, next: nat, read: nat -> Option<Text>)
    requires QuietRing(slots, log) && 1 <= next <= |log| + 1 && ReadsRing(slots, log, next, read)
    ensures FoundBetween(next + Overrun(next, |log|), |log| + 1, read)
         == Records(log, next + Overrun(next, |log|), |log| + 1)
    ensures |FoundBetween(next + Overrun(next, |log|), |log| + 1, read)| + Overrun(next, |log|) == |log| + 1 - next
  {
    QuietAnswers(slots, log, next, read);
    FoundRecords(log, next + Overrun(next, |log|), |log| + 1, read);
  }

  // ---- what the log protocol says of the deliveries, under concurrent pushes ----

  /** Somewhere in the run a call of `read_log` for this number returned this answer. */
  ghost predicate Answered(s: State, events: seq<Event>, q: nat, answer: Option<Text>)
    requires Sized(s.slots)
  {
    exists k :: 0 <= k <= |events| && AnsweredAt(s, events[..k], q, answer)
  }

  ghost predicate AnsweredAt(s: State, events: seq<Event>, q: nat, answer: Option<Text>)
    requires Sized(s.slots)
  {
    Run(s, events) && After(s, events).reader == RDone(q, answer)
  }

  lemma {:induction false} LogGrows(s: State, events: seq<Event>, k: nat)
    requires Sized(s.slots) && Run(s, events) && k <= |events|
    ensures Run(s, events[..k]) && After(s, events[..k]).log <= After(s, events).log
    decreases |events|
  {
    if k > 0 {
      var (head, rest) := (events[..k], events[1..]);
      assert head != [] && head[0] == events[0] && head[1..] == rest[..k - 1];
      LogGrows(Next(s, events[0]), rest, k - 1);
      assert Run(s, head) && After(s, head) == After(Next(s, events[0]), head[1..]);
    } else if events != [] {
      LogGrows(Next(s, events[0]), events[1..], 0);
      assert events[1..][..0] == events[..0] == [];
    }
  }

  lemma AnswerNotTorn(s: State, events: seq<Event>, q: nat, answer: Option<Text>)
    requires Init(s) && Run(s, events) && Answered(s, events, q, answer) && answer.Some?
    ensures 0 < q <= |After(s, events).log| && answer.value == Pushed(After(s, events).log, q)
  {
    var k :| 0 <= k <= |events| && AnsweredAt(s, events[..k], q, answer);
    NoTornRead(s, events[..k]);
    LogGrows(s, events, k);
  }

  /** Draining beside any number of writers: in every interleaving in which the session's attempts
      got their answers from `read_log`, the delivered numbers increase strictly and each
      delivered text is the level and the first 240 bytes of the push of that number. */
  lemma DeliveredAsPushed(s: State, events: seq<Event>, session: HookSession)
    requires Init(s) && Run(s, events) && session.Valid()
    requires forall n <- session.attempted :: Answered(s, events, n, session.read(n))
    ensures AsPushed(session.delivered, After(s, events).log)
    ensures forall i, j | 0 <= i < j < |session.delivered| ::
      session.delivered[i].number < session.delivered[j].number
  {
    var read := session.read;
    FoundIncreasing(session.attempted, session.nextLog, read);
    forall d <- session.delivered
      ensures 0 < d.number <= |After(s, events).log| && d.text == Pushed(After(s, events).log, d.number)
    {
      assert FromAttempt(session.attempted, read, d);
      AnswerNotTorn(s, events, d.number, read(d.number));
    }
  }
}
