/** The cross-process log ring: spin-locked writers and a reader with two sequence checks, under
    every interleaving of their atomic accesses. Fewer than 2^32 records are pushed, so sequence
    numbers never wrap; steps are sequentially consistent. */
module LogProtocol {
  import opened Bytes

  const LOG_SLOTS: nat := 64
  const LOG_BYTES: nat := 240

  type pos = n: nat | n > 0 witness 1
  type fitted = n: nat | n <= LOG_BYTES

  datatype LogLevel = Error | Warn | Info | Debug

  function LevelCode(l: LogLevel): nat {
    match l
    case Error => 1
    case Warn => 2
    case Info => 3
    case Debug => 4
  }

  /** `LogLevel::try_from`. */
  function LevelOf(code: nat): (l: Option<LogLevel>)
    ensures l.Some? ==> LevelCode(l.value) == code
    ensures forall k: LogLevel :: LevelCode(k) == code ==> l == Some(k)
  {
    if code == 1 then Some(Error)
    else if code == 2 then Some(Warn)
    else if code == 3 then Some(Info)
    else if code == 4 then Some(Debug)
    else None
  }

  datatype Record = Record(level: LogLevel, message: seq<byte>)

  function Min(a: nat, b: nat): (m: nat)
    ensures m <= a && m <= b
  {
    if a <= b then a else b
  }

  /** The bytes of a message that fit a slot. */
  function Kept(r: Record): seq<byte> {
    r.message[..Min(|r.message|, LOG_BYTES)]
  }

  datatype Slot = Slot(sequence: nat, len: nat, level: nat, data: seq<byte>)

  function SlotIndex(sequence: pos): nat {
    (sequence - 1) % LOG_SLOTS
  }

  /** A slot holds a record completely. */
  predicate Holds(s: Slot, r: Record) {
    && s.level == LevelCode(r.level)
    && s.len == |Kept(r)| <= |s.data|
    && s.data[..s.len] == Kept(r)
  }

  /** `push_log`, one constructor per atomic access. */
  datatype Writer =
    | Spinning(r: Record)
    | Allocating(r: Record)
    | Invalidating(r: Record, q: pos)
    | StoringByte(r: Record, q: pos, k: nat)
    | StoringLevel(r: Record, q: pos)
    | StoringLen(r: Record, q: pos)
    | Publishing(r: Record, q: pos)
    | Unlocking

  /** `read_log` of one sequence number. */
  datatype Reader =
    | RIdle
    | RCheckFirst(s: nat)
    | RLevel(q: pos)
    | RLen(q: pos, level: LogLevel)
    | RCopy(q: pos, level: LogLevel, len: fitted, out: seq<byte>)
    | RCheckSecond(q: pos, level: LogLevel, out: seq<byte>)
    | RDone(s: nat, result: Option<(LogLevel, seq<byte>)>)

  /** The block, any number of writer threads, a reader, and the records in the order their
      sequence numbers were allocated. `holder` is the thread that set the lock word. */
  datatype State = State(
    slots: seq<Slot>, logWrite: nat, holder: Option<nat>,
    writers: map<nat, Writer>, reader: Reader, log: seq<Record>)

  datatype Event =
    | CallPush(thread: nat, r: Record)
    | WriterStep(thread: nat)
    | CallRead(s: nat)
    | ReaderStep

  predicate Sized(slots: seq<Slot>) {
    |slots| == LOG_SLOTS && forall k | 0 <= k < LOG_SLOTS :: |slots[k].data| == LOG_BYTES
  }

  predicate Init(s: State) {
    && Sized(s.slots) && (forall k | 0 <= k < LOG_SLOTS :: s.slots[k].sequence == 0)
    && s.logWrite == 0 && s.holder == None && s.writers == map[] && s.reader == RIdle && s.log == []
  }

  predicate Critical(w: Writer) {
    !w.Spinning?
  }

  predicate Enabled(s: State, e: Event) {
    match e
    case CallPush(t, _) => t !in s.writers
    case WriterStep(t) => t in s.writers
    case CallRead(_) => s.reader.RIdle? || s.reader.RDone?
    case ReaderStep => !s.reader.RIdle? && !s.reader.RDone?
  }

  function SetSlot(s: State, q: pos, slot: Slot): State
    requires |s.slots| == LOG_SLOTS
  {
    s.(slots := s.slots[SlotIndex(q) := slot])
  }

  function WriterNext(s: State, t: nat): State
    requires Sized(s.slots) && Enabled(s, WriterStep(t))
  {
    var w := s.writers[t];
    match w
    case Spinning(r) =>
      if s.holder.Some? then s else s.(holder := Some(t), writers := s.writers[t := Allocating(r)])
    case Allocating(r) =>
      s.(logWrite := s.logWrite + 1, log := s.log + [r], writers := s.writers[t := Invalidating(r, s.logWrite + 1)])
    case Invalidating(r, q) =>
      SetSlot(s, q, s.slots[SlotIndex(q)].(sequence := 0)).(writers := s.writers[t := StoringByte(r, q, 0)])
    case StoringByte(r, q, k) =>
      var slot := s.slots[SlotIndex(q)];
      if k < |Kept(r)| then
        SetSlot(s, q, slot.(data := slot.data[k := Kept(r)[k]])).(writers := s.writers[t := StoringByte(r, q, k + 1)])
      else s.(writers := s.writers[t := StoringLevel(r, q)])
    case StoringLevel(r, q) =>
      SetSlot(s, q, s.slots[SlotIndex(q)].(level := LevelCode(r.level))).(writers := s.writers[t := StoringLen(r, q)])
    case StoringLen(r, q) =>
      SetSlot(s, q, s.slots[SlotIndex(q)].(len := |Kept(r)|)).(writers := s.writers[t := Publishing(r, q)])
    case Publishing(r, q) =>
      SetSlot(s, q, s.slots[SlotIndex(q)].(sequence := q)).(writers := s.writers[t := Unlocking])
    case Unlocking => s.(holder := None, writers := s.writers - {t})
  }

  function ReaderNext(s: State): State
    requires Sized(s.slots)
  {
    match s.reader
    case RIdle => s
    case RDone(_, _) => s
    case RCheckFirst(q) =>
      s.(reader := if q == 0 || s.slots[SlotIndex(q)].sequence != q then RDone(q, None) else RLevel(q))
    case RLevel(q) =>
      (match LevelOf(s.slots[SlotIndex(q)].level)
       case None => s.(reader := RDone(q, None))
       case Some(level) => s.(reader := RLen(q, level)))
    case RLen(q, level) => s.(reader := RCopy(q, level, Min(s.slots[SlotIndex(q)].len, LOG_BYTES), []))
    case RCopy(q, level, len, out) =>
      if |out| < len then s.(reader := RCopy(q, level, len, out + [s.slots[SlotIndex(q)].data[|out|]]))
      else s.(reader := RCheckSecond(q, level, out))
    case RCheckSecond(q, level, out) =>
      s.(reader := RDone(q, if s.slots[SlotIndex(q)].sequence == q then Some((level, out)) else None))
  }

  function Next(s: State, e: Event): State
    requires Sized(s.slots) && Enabled(s, e)
  {
    match e
    case CallPush(t, r) => s.(writers := s.writers[t := Spinning(r)])
    case WriterStep(t) => WriterNext(s, t)
    case CallRead(q) => s.(reader := RCheckFirst(q))
    case ReaderStep => ReaderNext(s)
  }

  // ---- the invariant ----

  /** The lock holder is between allocation and publication of the newest sequence number. */
  predicate Open(s: State) {
    s.holder.Some? && s.holder.value in s.writers &&
    var w := s.writers[s.holder.value];
    w.Invalidating? || w.StoringByte? || w.StoringLevel? || w.StoringLen? || w.Publishing?
  }

  /** Its old contents are already marked as gone. */
  predicate Erased(s: State) {
    Open(s) && !s.writers[s.holder.value].Invalidating?
  }

  ghost predicate LockInv(s: State) {
    && (s.holder.Some? ==> s.holder.value in s.writers)
    && (forall t | t in s.writers :: Critical(s.writers[t]) <==> s.holder == Some(t))
  }

  /** How far the holder got with the slot it is filling. */
  ghost predicate HolderInv(s: State)
    requires Sized(s.slots)
  {
    Open(s) ==>
      var w := s.writers[s.holder.value];
      && w.q == |s.log| > 0 && w.r == s.log[w.q - 1]
      && var slot := s.slots[SlotIndex(w.q)];
      match w
      case StoringByte(r, _, k) => k <= |Kept(r)| && slot.data[..k] == Kept(r)[..k]
      case StoringLevel(r, _) => slot.data[..|Kept(r)|] == Kept(r)
      case StoringLen(r, _) => slot.data[..|Kept(r)|] == Kept(r) && slot.level == LevelCode(r.level)
      case Publishing(r, _) => Holds(slot, r)
      case _ => true
  }

  /** A published number is one of the last 64 (the holder may still have to erase the one it
      replaces), sits in its own slot, and its slot holds its record completely. */
  ghost predicate SlotOk(slot: Slot, k: nat, log: seq<Record>, open: bool, erased: bool) {
    var q := slot.sequence;
    q != 0 ==>
      && q <= |log| && SlotIndex(q) == k && Holds(slot, log[q - 1])
      && (open ==> q < |log|)
      && (|log| < q + LOG_SLOTS || (open && !erased && q + LOG_SLOTS == |log|))
  }

  /** One of the last 64 numbers, and not the one being published. */
  predicate Recent(n: nat, open: bool, q: pos) {
    q <= n < q + LOG_SLOTS && (open ==> q < n)
  }

  ghost predicate RingInv(s: State) {
    && Sized(s.slots) && s.logWrite == |s.log|
    && (forall k | 0 <= k < LOG_SLOTS :: SlotOk(s.slots[k], k, s.log, Open(s), Erased(s)))
    && (forall q: pos | Recent(|s.log|, Open(s), q) :: s.slots[SlotIndex(q)].sequence == q)
    && (Erased(s) ==> |s.log| > 0 && s.slots[SlotIndex(|s.log|)].sequence == 0)
  }

  lemma IndexApart(p: pos, q: pos)
    ensures p + LOG_SLOTS == q ==> SlotIndex(p) == SlotIndex(q)
    ensures p < q < p + LOG_SLOTS ==> SlotIndex(p) != SlotIndex(q)
  {
  }

  /** What the reader copied is right for as long as its number is still in the slot. A number it
      has seen published cannot be published again. */
  predicate Seen(s: State, q: nat) {
    0 < q <= |s.log| && (Open(s) ==> q < |s.log|)
  }

  predicate Current(s: State, q: nat)
    requires |s.slots| == LOG_SLOTS
  {
    q > 0 && s.slots[SlotIndex(q)].sequence == q
  }

  ghost predicate ReaderInv(s: State)
    requires |s.slots| == LOG_SLOTS
  {
    match s.reader
    case RLevel(q) => Seen(s, q)
    case RLen(q, level) => Seen(s, q) && (Current(s, q) ==> level == s.log[q - 1].level)
    case RCopy(q, level, len, out) =>
      Seen(s, q) && |out| <= len <= LOG_BYTES &&
      (Current(s, q) ==>
        level == s.log[q - 1].level && len == |Kept(s.log[q - 1])| && out == Kept(s.log[q - 1])[..|out|])
    case RCheckSecond(q, level, out) =>
      Seen(s, q) && (Current(s, q) ==> level == s.log[q - 1].level && out == Kept(s.log[q - 1]))
    case RDone(q, result) => result.Some? ==>
      Seen(s, q) && result.value == (s.log[q - 1].level, Kept(s.log[q - 1]))
    case _ => true
  }

  ghost predicate Inv(s: State) {
    LockInv(s) && RingInv(s) && HolderInv(s) && ReaderInv(s)
  }

  lemma CallPushPreserves(s: State, t: nat, r: Record)
    requires Inv(s) && t !in s.writers
    ensures Inv(s.(writers := s.writers[t := Spinning(r)]))
  {
    var u := s.(writers := s.writers[t := Spinning(r)]);
    assert Open(u) == Open(s) && Erased(u) == Erased(s);
  }

  lemma SpinPreserves(s: State, t: nat)
    requires Inv(s) && t in s.writers && s.writers[t].Spinning?
    ensures Inv(WriterNext(s, t))
  {
    var u := WriterNext(s, t);
    assert Open(u) == Open(s) && Erased(u) == Erased(s);
  }

  lemma AllocatePreserves(s: State, t: nat)
    requires Inv(s) && t in s.writers && s.writers[t].Allocating?
    ensures Inv(WriterNext(s, t))
  {
    var u := WriterNext(s, t);
    forall q: pos | Recent(|u.log|, Open(u), q)
      ensures u.slots[SlotIndex(q)].sequence == q
    {
      assert Recent(|s.log|, Open(s), q);
    }
  }

  /** Erasing the number of the slot to be filled, which is that of the record 64 back, if any. */
  lemma EraseRing(s: State, t: nat)
    requires Inv(s) && t in s.writers && s.writers[t].Invalidating?
    ensures RingInv(WriterNext(s, t))
  {
    var (u, n) := (WriterNext(s, t), |s.log|);
    forall k | 0 <= k < LOG_SLOTS
      ensures SlotOk(u.slots[k], k, u.log, Open(u), Erased(u))
    {
      assert SlotOk(s.slots[k], k, s.log, Open(s), Erased(s));
      if u.slots[k].sequence > 0 {
        IndexApart(u.slots[k].sequence, n);
      }
    }
    forall q: pos | Recent(n, Open(u), q)
      ensures u.slots[SlotIndex(q)].sequence == q
    {
      assert Recent(n, Open(s), q);
      IndexApart(q, n);
    }
  }

  lemma ErasePreserves(s: State, t: nat)
    requires Inv(s) && t in s.writers && s.writers[t].Invalidating?
    ensures Inv(WriterNext(s, t))
  {
    EraseRing(s, t);
  }

  /** Storing into the slot that is being filled, whose number is erased. */
  lemma StorePreserves(s: State, t: nat, slot: Slot)
    requires Inv(s) && s.holder == Some(t) && Erased(s)
    requires slot.sequence == 0 && |slot.data| == LOG_BYTES
    ensures RingInv(s.(slots := s.slots[SlotIndex(|s.log|) := slot]))
    ensures ReaderInv(s.(slots := s.slots[SlotIndex(|s.log|) := slot]))
  {
    var u := s.(slots := s.slots[SlotIndex(|s.log|) := slot]);
    forall q: pos | Recent(|u.log|, Open(u), q)
      ensures u.slots[SlotIndex(q)].sequence == q
    {
      assert Recent(|s.log|, Open(s), q);
    }
  }

  /** A holder that moves on without leaving the filling phase. */
  lemma HolderMoves(s: State, t: nat, w: Writer)
    requires LockInv(s) && RingInv(s) && ReaderInv(s) && s.holder == Some(t) && Erased(s)
    requires w.StoringByte? || w.StoringLevel? || w.StoringLen? || w.Publishing?
    ensures var u := s.(writers := s.writers[t := w]); LockInv(u) && RingInv(u) && ReaderInv(u)
  {
    var u := s.(writers := s.writers[t := w]);
    forall q: pos | Recent(|u.log|, Open(u), q)
      ensures u.slots[SlotIndex(q)].sequence == q
    {
      assert Recent(|s.log|, Open(s), q);
    }
  }

  lemma FillPreserves(s: State, t: nat)
    requires Inv(s) && t in s.writers
    requires s.writers[t].StoringByte? || s.writers[t].StoringLevel? || s.writers[t].StoringLen?
    ensures Inv(WriterNext(s, t))
  {
    var u := WriterNext(s, t);
    var i := SlotIndex(|s.log|);
    StorePreserves(s, t, u.slots[i]);
    var v := s.(slots := s.slots[i := u.slots[i]]);
    HolderMoves(v, t, u.writers[t]);
    assert u == v.(writers := v.writers[t := u.writers[t]]);
  }

  lemma PublishPreserves(s: State, t: nat)
    requires Inv(s) && t in s.writers && s.writers[t].Publishing?
    ensures Inv(WriterNext(s, t))
  {
    var u := WriterNext(s, t);
    var n := |s.log|;
    forall q: pos | Recent(n, Open(u), q)
      ensures u.slots[SlotIndex(q)].sequence == q
    {
      if q < n {
        assert Recent(n, Open(s), q);
        IndexApart(q, n);
      }
    }
  }

  lemma ReaderFrame(s: State, r: Reader)
    requires LockInv(s) && RingInv(s) && HolderInv(s)
    ensures var u := s.(reader := r); LockInv(u) && RingInv(u) && HolderInv(u)
  {
  }

  /** The next byte of a record that is still in its slot. */
  lemma CopyStep(s: State, q: pos, out: seq<byte>)
    requires Inv(s) && Current(s, q) && q <= |s.log|
    requires |out| < |Kept(s.log[q - 1])| && out == Kept(s.log[q - 1])[..|out|]
    ensures out + [s.slots[SlotIndex(q)].data[|out|]] == Kept(s.log[q - 1])[..|out| + 1]
  {
    var slot := s.slots[SlotIndex(q)];
    assert SlotOk(slot, SlotIndex(q), s.log, Open(s), Erased(s));
    assert slot.data[..slot.len][|out|] == Kept(s.log[q - 1])[|out|];
  }

  lemma CopyInv(s: State)
    requires Inv(s) && s.reader.RCopy?
    ensures ReaderInv(ReaderNext(s))
  {
    if Current(s, s.reader.q) && |s.reader.out| < s.reader.len {
      CopyStep(s, s.reader.q, s.reader.out);
    }
  }

  /** A slot looked into while its number is still there. */
  lemma SlotInv(s: State)
    requires Inv(s) && (s.reader.RLevel? || s.reader.RLen?)
    ensures ReaderInv(ReaderNext(s))
  {
    var q := s.reader.q;
    assert SlotOk(s.slots[SlotIndex(q)], SlotIndex(q), s.log, Open(s), Erased(s));
  }

  lemma ReaderStepInv(s: State)
    requires Inv(s)
    ensures ReaderInv(ReaderNext(s))
  {
    match s.reader
    case RCheckFirst(q) =>
      if q > 0 {
        assert SlotOk(s.slots[SlotIndex(q)], SlotIndex(q), s.log, Open(s), Erased(s));
      }
    case RLevel(_) => SlotInv(s);
    case RLen(_, _) => SlotInv(s);
    case RCopy(_, _, _, _) => CopyInv(s);
    case _ =>
  }

  lemma ReaderPreserves(s: State)
    requires Inv(s)
    ensures Inv(ReaderNext(s))
  {
    var u := ReaderNext(s);
    ReaderStepInv(s);
    ReaderFrame(s, u.reader);
    assert u == s.(reader := u.reader);
  }

  lemma StepPreserves(s: State, e: Event)
    requires Inv(s) && Enabled(s, e)
    ensures Inv(Next(s, e))
  {
    match e
    case CallPush(t, r) => CallPushPreserves(s, t, r);
    case CallRead(q) => ReaderFrame(s, RCheckFirst(q));
    case WriterStep(t) => WriterPreserves(s, t);
    case ReaderStep => ReaderPreserves(s);
  }

  lemma WriterPreserves(s: State, t: nat)
    requires Inv(s) && t in s.writers
    ensures Inv(WriterNext(s, t))
  {
    match s.writers[t]
    case Spinning(_) => SpinPreserves(s, t);
    case Allocating(_) => AllocatePreserves(s, t);
    case Invalidating(_, _) => ErasePreserves(s, t);
    case StoringByte(_, _, _) => FillPreserves(s, t);
    case StoringLevel(_, _) => FillPreserves(s, t);
    case StoringLen(_, _) => FillPreserves(s, t);
    case Publishing(_, _) => PublishPreserves(s, t);
    case Unlocking =>
  }

  predicate Run(s: State, events: seq<Event>)
    requires Sized(s.slots)
    decreases |events|
  {
    events == [] || (Enabled(s, events[0]) && Run(Next(s, events[0]), events[1..]))
  }

  function After(s: State, events: seq<Event>): (t: State)
    requires Sized(s.slots) && Run(s, events)
    ensures Sized(t.slots)
    decreases |events|
  {
    if events == [] then s else After(Next(s, events[0]), events[1..])
  }

  lemma {:induction false} RunPreserves(s: State, events: seq<Event>)
    requires Inv(s) && Run(s, events)
    ensures Inv(After(s, events))
    decreases |events|
  {
    if events != [] {
      StepPreserves(s, events[0]);
      RunPreserves(Next(s, events[0]), events[1..]);
    }
  }

  /** Torn-read freedom: in every interleaving, a read of number `q` that returns a record returns
      the level and the first 240 bytes of exactly the q-th pushed message. */
  lemma NoTornRead(s: State, events: seq<Event>)
    requires Init(s) && Run(s, events)
    ensures var t := After(s, events);
      t.reader.RDone? && t.reader.result.Some? ==>
        && 0 < t.reader.s <= |t.log|
        && t.reader.result.value == (t.log[t.reader.s - 1].level, Kept(t.log[t.reader.s - 1]))
  {
    RunPreserves(s, events);
  }

  /** At most one thread is past the lock. */
  lemma WritersExclude(s: State, events: seq<Event>, t: nat, u: nat)
    requires Init(s) && Run(s, events)
    requires t in After(s, events).writers && u in After(s, events).writers
    requires Critical(After(s, events).writers[t]) && Critical(After(s, events).writers[u])
    ensures t == u
  {
    RunPreserves(s, events);
  }

  /** What an undisturbed `read_log` returns. */
  function ReadNow(slots: seq<Slot>, q: nat): Option<(LogLevel, seq<byte>)>
    requires Sized(slots)
  {
    if q == 0 || slots[SlotIndex(q)].sequence != q then None
    else
      var slot := slots[SlotIndex(q)];
      match LevelOf(slot.level)
      case None => None
      case Some(level) => Some((level, slot.data[..Min(slot.len, LOG_BYTES)]))
  }

  /** While no writer holds the lock, exactly the last min(64, latest) numbers are readable, and
      each reads as the record pushed under it. */
  lemma QuietReads(s: State, events: seq<Event>, q: nat)
    requires Init(s) && Run(s, events) && After(s, events).holder == None
    ensures var t := After(s, events);
      ReadNow(t.slots, q) ==
        if 0 < q <= |t.log| < q + LOG_SLOTS then Some((t.log[q - 1].level, Kept(t.log[q - 1]))) else None
  {
    RunPreserves(s, events);
    var t := After(s, events);
    if q > 0 {
      var k := SlotIndex(q);
      assert SlotOk(t.slots[k], k, t.log, Open(t), Erased(t));
      assert Recent(|t.log|, Open(t), q) ==> t.slots[k].sequence == q;
    }
  }
}
