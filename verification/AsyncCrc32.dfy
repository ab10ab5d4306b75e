/** The buffer ring of util/util/asynccrc32.hpp: one thread submits blocks, another one hashes them. */
module AsyncCrc32 {
  import opened Sequences
  import opened Wrappers
  import opened Crc32

  // Each critical section is one atomic step, and so is each statement outside of one. A thread
  // waiting on a condition variable is asleep until the other thread notifies it or it wakes
  // up spuriously, so a lost wake-up would show as a deadlock.

  datatype Slot = Slot(empty: bool, len: nat, data: seq<Byte>)

  /** Which of the two `Update` overloads this instance is driven with. */
  datatype Style = Copying | InPlace

  datatype Producer =
    | Idle                                // outside of every call
    | WaitSlot(bytes: seq<Byte>)          // Update(bytes, len): about to test its slot
    | AsleepSlot(bytes: seq<Byte>)
    | CopyBytes(bytes: seq<Byte>, done: nat)
    | StoreLen(bytes: seq<Byte>)
    | Publish(bytes: seq<Byte>)
    | NotifyReader
    | AdvanceWriter
    | WaitNext                            // Update(len): the next slot has to become free
    | AsleepNext
    | WaitPending                         // Checksum()
    | AsleepPending
    | ReadSum
    | NotifyFinished                      // destructor
    | Joining
    | Destroyed

  datatype Consumer =
    | TestSlot | AsleepRead | Hash | Release | NotifyWriter | AdvanceReader | Exited

  /** The object, the register of its base class, what `Checksum()` last returned, the two program
      counters, and the history: the bytes hashed, every block submitted so far, and how many of
      them the consumer has released. */
  datatype State = State(
    style: Style, slots: seq<Slot>, readIt: nat, writeIt: nat, pending: nat, finished: bool,
    checksum: Word, answer: Option<Word>, producer: Producer, consumer: Consumer,
    hashed: seq<Byte>, submitted: seq<seq<Byte>>, released: nat)

  datatype Step =
    // the caller starts something
    | CallUpdate(bytes: seq<Byte>) | Fill(index: nat, value: Byte) | CallUpdateInPlace(len: nat)
    | CallChecksum | CallDestructor
    // one of the threads goes on with what it is doing
    | ProducerStep | ConsumerStep
    // a wait returns without a notification
    | SpuriousProducer | SpuriousConsumer

  predicate Internal(step: Step) {
    step.ProducerStep? || step.ConsumerStep?
  }

  /** The slot of block `k` in a ring of `n`, that is, `k % n`. */
  function Index(k: nat, n: nat): (i: nat)
    requires n > 0
    ensures i < n
  {
    if k < n then k else Index(k - n, n)
  }

  /** `if (++it == queue.end()) it = queue.begin()` */
  function Succ(i: nat, n: nat): nat {
    if i + 1 == n then 0 else i + 1
  }

  function Init(style: Style, slots: seq<Slot>): State {
    State(style, slots, 0, 0, 0, false, Zeros(32), None, Idle, TestSlot, [], [], 0)
  }

  predicate Initial(s: State) {
    && |s.slots| > 0
    && s == Init(s.style, s.slots)
    && (forall i | 0 <= i < |s.slots| :: s.slots[i].empty && |s.slots[i].data| == |s.slots[0].data|)
  }

  function BufferSize(s: State): nat
    requires |s.slots| > 0
  {
    |s.slots[0].data|
  }

  /** `notify_one` on the condition variable the producer waits on. */
  function WakeProducer(p: Producer): Producer {
    match p
    case AsleepSlot(bytes) => WaitSlot(bytes)
    case AsleepNext => WaitNext
    case AsleepPending => WaitPending
    case _ => p
  }

  /** `notify_one` on the condition variable the consumer waits on. */
  function WakeConsumer(c: Consumer): Consumer {
    if c.AsleepRead? then TestSlot else c
  }

  function Overwrite(data: seq<Byte>, i: nat, b: Byte): seq<Byte>
    requires i < |data|
  {
    data[i := b]
  }

  /** The state after a step, or `None` where the step cannot be taken. */
  function Next(s: State, step: Step): Option<State>
    requires Shape(s)
  {
    match step
    case CallUpdate(bytes) =>
      if s.producer.Idle? && s.style.Copying? && |bytes| <= BufferSize(s)
      then Some(s.(producer := WaitSlot(bytes))) else None
    case Fill(i, b) =>
      if s.producer.Idle? && s.style.InPlace? && i < BufferSize(s)
      then var slot := s.slots[s.writeIt];
           Some(s.(slots := s.slots[s.writeIt := slot.(data := Overwrite(slot.data, i, b))]))
      else None
    case CallUpdateInPlace(len) =>
      if s.producer.Idle? && s.style.InPlace? && len <= BufferSize(s)
      then var slot := s.slots[s.writeIt];
           Some(s.(slots := s.slots[s.writeIt := slot.(len := len, empty := false)],
                   pending := s.pending + 1, producer := NotifyReader,
                   submitted := s.submitted + [slot.data[..len]]))
      else None
    case CallChecksum => if s.producer.Idle? then Some(s.(producer := WaitPending)) else None
    case CallDestructor =>
      if s.producer.Idle? then Some(s.(finished := true, producer := NotifyFinished)) else None
    case ProducerStep => ProducerNext(s)
    case ConsumerStep => ConsumerNext(s)
    case SpuriousProducer =>
      if WakeProducer(s.producer) != s.producer
      then Some(s.(producer := WakeProducer(s.producer))) else None
    case SpuriousConsumer =>
      if s.consumer.AsleepRead? then Some(s.(consumer := TestSlot)) else None
  }

  function ProducerNext(s: State): Option<State>
    requires Shape(s)
  {
    var slot := s.slots[s.writeIt];
    match s.producer
    case WaitSlot(bytes) =>
      Some(s.(producer := if slot.empty then CopyBytes(bytes, 0) else AsleepSlot(bytes)))
    case CopyBytes(bytes, done) =>
      if done < |bytes| && done < |slot.data| then
        Some(s.(slots := s.slots[s.writeIt := slot.(data := Overwrite(slot.data, done, bytes[done]))],
                producer := CopyBytes(bytes, done + 1)))
      else
        Some(s.(producer := StoreLen(bytes)))
    case StoreLen(bytes) =>
      Some(s.(slots := s.slots[s.writeIt := slot.(len := |bytes|)], producer := Publish(bytes)))
    case Publish(bytes) =>
      Some(s.(slots := s.slots[s.writeIt := slot.(empty := false)], pending := s.pending + 1,
              producer := NotifyReader, submitted := s.submitted + [bytes]))
    case NotifyReader =>
      Some(s.(consumer := WakeConsumer(s.consumer), producer := AdvanceWriter))
    case AdvanceWriter =>
      Some(s.(writeIt := Succ(s.writeIt, |s.slots|),
              producer := if s.style.Copying? then Idle else WaitNext))
    case WaitNext => Some(s.(producer := if slot.empty then Idle else AsleepNext))
    case WaitPending => Some(s.(producer := if s.pending > 0 then AsleepPending else ReadSum))
    case ReadSum => Some(s.(producer := Idle, answer := Some(s.checksum)))
    case NotifyFinished => Some(s.(consumer := WakeConsumer(s.consumer), producer := Joining))
    case Joining => if s.consumer.Exited? then Some(s.(producer := Destroyed)) else None
    case _ => None
  }

  function ConsumerNext(s: State): Option<State>
    requires Shape(s)
  {
    var slot := s.slots[s.readIt];
    match s.consumer
    case TestSlot =>
      Some(s.(consumer := if !slot.empty then Hash else if s.finished then Exited else AsleepRead))
    case Hash =>
      if slot.len <= |slot.data|
      then Some(s.(checksum := Checksum(slot.data[..slot.len], s.checksum),
                   hashed := s.hashed + slot.data[..slot.len], consumer := Release))
      else None
    case Release =>
      if s.pending > 0
      then Some(s.(slots := s.slots[s.readIt := slot.(empty := true)], pending := s.pending - 1,
                   consumer := NotifyWriter, released := s.released + 1))
      else None
    case NotifyWriter =>
      Some(s.(producer := WakeProducer(s.producer), consumer := AdvanceReader))
    case AdvanceReader => Some(s.(readIt := Succ(s.readIt, |s.slots|), consumer := TestSlot))
    case _ => None
  }

  // ----- The invariant -----

  ghost predicate Shape(s: State) {
    && s.readIt < |s.slots| && s.writeIt < |s.slots|
    && (forall i | 0 <= i < |s.slots| :: |s.slots[i].data| == |s.slots[0].data|)
  }

  /** How many blocks the two iterators have moved past. */
  ghost function WriterAt(s: State): int {
    if s.producer.NotifyReader? || s.producer.AdvanceWriter? then |s.submitted| - 1 else |s.submitted|
  }

  ghost function ReaderAt(s: State): int {
    if s.consumer.NotifyWriter? || s.consumer.AdvanceReader? then s.released - 1 else s.released
  }

  /** The filled slots are exactly the cyclic window of the blocks not released yet, in the
      order they were submitted. */
  ghost predicate Filled(slots: seq<Slot>, blocks: seq<seq<Byte>>, released: nat)
    requires |slots| > 0
  {
    && (forall k {:trigger Index(k, |slots|)} | released <= k < |blocks| ::
          Holds(slots[Index(k, |slots|)], blocks[k]))
    && (forall k {:trigger Index(k, |slots|)} | |blocks| <= k < released + |slots| ::
          slots[Index(k, |slots|)].empty)
  }

  /** `pending` is the size of that window, and both iterators are where it says. */
  ghost predicate Window(s: State)
    requires Shape(s)
  {
    var n := |s.slots|;
    && s.released <= |s.submitted| <= s.released + n
    && s.pending == |s.submitted| - s.released
    && 0 <= WriterAt(s) && s.writeIt == Index(WriterAt(s), n)
    && 0 <= ReaderAt(s) && s.readIt == Index(ReaderAt(s), n)
    && Filled(s.slots, s.submitted, s.released)
  }

  ghost predicate Holds(slot: Slot, block: seq<Byte>) {
    !slot.empty && slot.len <= |slot.data| && slot.data[..slot.len] == block
  }

  ghost predicate SlotFree(s: State) {
    |s.submitted| < s.released + |s.slots|
  }

  /** What each producer state promises; a sleeping producer is either right to sleep or
      about to be notified. */
  ghost predicate ProducerOk(s: State)
    requires Shape(s)
  {
    var slot := s.slots[s.writeIt];
    && (s.finished <==> s.producer.NotifyFinished? || s.producer.Joining? || s.producer.Destroyed?)
    && (s.producer.Destroyed? ==> s.consumer.Exited?)
    && match s.producer
       case Idle => s.style.InPlace? ==> SlotFree(s)
       case WaitSlot(bytes) => s.style.Copying? && |bytes| <= BufferSize(s)
       case AsleepSlot(bytes) => s.style.Copying? && |bytes| <= BufferSize(s) && (!SlotFree(s) || s.consumer.NotifyWriter?)
       case CopyBytes(bytes, done) =>
         s.style.Copying? && SlotFree(s) && done <= |bytes| <= BufferSize(s) && slot.data[..done] == bytes[..done]
       case StoreLen(bytes) =>
         s.style.Copying? && SlotFree(s) && |bytes| <= BufferSize(s) && slot.data[..|bytes|] == bytes
       case Publish(bytes) =>
         s.style.Copying? && SlotFree(s) && |bytes| <= BufferSize(s) && slot.data[..|bytes|] == bytes && slot.len == |bytes|
       case WaitNext => s.style.InPlace?
       case AsleepNext => s.style.InPlace? && (!SlotFree(s) || s.consumer.NotifyWriter?)
       case WaitPending => s.style.InPlace? ==> SlotFree(s)
       case AsleepPending =>
         (s.style.InPlace? ==> SlotFree(s)) && (s.pending > 0 || s.consumer.NotifyWriter?)
       case ReadSum => (s.style.InPlace? ==> SlotFree(s)) && s.pending == 0
       case _ => true
  }

  ghost predicate ConsumerOk(s: State) {
    && (s.consumer.Hash? || s.consumer.Release? ==> s.released < |s.submitted|)
    && (s.consumer.AsleepRead? ==>
          (s.released == |s.submitted| && !s.finished) || s.producer.NotifyReader? || s.producer.NotifyFinished?)
    && (s.consumer.Exited? ==> s.finished && s.released == |s.submitted|)
  }

  ghost function HashedBlocks(s: State): nat {
    if s.consumer.Release? then s.released + 1 else s.released
  }

  ghost predicate HashedOk(s: State) {
    && HashedBlocks(s) <= |s.submitted|
    && s.hashed == Flatten(s.submitted[..HashedBlocks(s)])
  }

  /** The register is that of the bytes hashed. */
  ghost predicate Summed(s: State) {
    s.checksum == Checksum(s.hashed, Zeros(32))
  }

  ghost predicate Inv(s: State) {
    Shape(s) && Window(s) && ProducerOk(s) && ConsumerOk(s) && HashedOk(s)
  }

  // ----- Every step keeps the invariant -----

  lemma {:induction false} IndexSucc(k: nat, n: nat)
    requires n > 0
    ensures Succ(Index(k, n), n) == Index(k + 1, n)
  {
    if k >= n {
      IndexSucc(k - n, n);
    }
  }

  /** Blocks less than a whole ring apart live in different slots. */
  lemma {:induction false} IndexInjective(j: nat, k: nat, n: nat)
    requires n > 0 && j < k < j + n
    ensures Index(j, n) != Index(k, n)
  {
    if j >= n {
      IndexInjective(j - n, k - n, n);
    }
  }

  /** The slot of block `k` is no other block's slot. */
  lemma OtherSlots(s: State, k: nat)
    requires |s.slots| > 0
    requires s.released <= k <= s.released + |s.slots|
    ensures forall j {:trigger Index(j, |s.slots|)} | s.released <= j < s.released + |s.slots| && j != k && j + |s.slots| != k ::
              Index(j, |s.slots|) != Index(k, |s.slots|)
  {
    forall j {:trigger Index(j, |s.slots|)} | s.released <= j < s.released + |s.slots| && j != k && j + |s.slots| != k
      ensures Index(j, |s.slots|) != Index(k, |s.slots|)
    {
      if j < k {
        IndexInjective(j, k, |s.slots|);
      } else {
        IndexInjective(k, j, |s.slots|);
      }
    }
  }

  lemma InitialInv(s: State)
    requires Initial(s)
    ensures Inv(s)
  {
    assert Index(0, |s.slots|) == 0;
  }

  lemma WriterSlot(s: State)
    requires Inv(s) && !s.producer.NotifyReader? && !s.producer.AdvanceWriter?
    ensures s.slots[s.writeIt].empty <==> SlotFree(s)
  {
    if !SlotFree(s) {
      assert Index(s.released + |s.slots|, |s.slots|) == Index(s.released, |s.slots|);
    }
  }

  lemma ReaderSlot(s: State)
    requires Inv(s) && !s.consumer.NotifyWriter? && !s.consumer.AdvanceReader?
    ensures s.slots[s.readIt].empty <==> s.released == |s.submitted|
    ensures s.released < |s.submitted| ==> Holds(s.slots[s.readIt], s.submitted[s.released])
  {
    assert s.readIt == Index(s.released, |s.slots|);
  }

  /** Changing the data or length of the free slot under the writer disturbs nothing. */
  lemma WriteFreeSlot(s: State, slot: Slot)
    requires Inv(s) && SlotFree(s) && !s.producer.NotifyReader? && !s.producer.AdvanceWriter?
    requires slot.empty && |slot.data| == BufferSize(s)
    ensures var t := s.(slots := s.slots[s.writeIt := slot]); Shape(t) && Window(t)
  {
    OtherSlots(s, |s.submitted|);
  }

  function Published(s: State, slot: Slot, block: seq<Byte>): State
    requires Shape(s)
  {
    s.(slots := s.slots[s.writeIt := slot], pending := s.pending + 1, producer := NotifyReader,
       submitted := s.submitted + [block])
  }

  lemma PublishKeepsWindow(s: State, slot: Slot, block: seq<Byte>)
    requires Shape(s) && Window(s) && SlotFree(s) && !s.producer.NotifyReader? && !s.producer.AdvanceWriter?
    requires Holds(slot, block) && |slot.data| == BufferSize(s)
    ensures Shape(Published(s, slot, block)) && Window(Published(s, slot, block))
  {
    OtherSlots(s, |s.submitted|);
  }

  /** Submitting more blocks leaves what was hashed alone. */
  lemma HashedKept(s: State, t: State)
    requires HashedOk(s) && t.hashed == s.hashed && HashedBlocks(t) == HashedBlocks(s)
    requires s.submitted <= t.submitted
    ensures HashedOk(t)
  {
    assert t.submitted[..HashedBlocks(t)] == s.submitted[..HashedBlocks(s)];
  }

  lemma PublishKeepsInv(s: State, slot: Slot, block: seq<Byte>)
    requires Inv(s) && SlotFree(s) && !s.finished && !s.producer.NotifyReader? && !s.producer.AdvanceWriter?
    requires Holds(slot, block) && |slot.data| == BufferSize(s)
    ensures Inv(Published(s, slot, block))
  {
    var t := Published(s, slot, block);
    HashedKept(s, t);
    PublishKeepsWindow(s, slot, block);
    assert ProducerOk(t) && ConsumerOk(t);
  }

  lemma ReleaseKeepsInv(s: State)
    requires Inv(s) && s.consumer.Release?
    ensures ConsumerNext(s).Some? && Inv(ConsumerNext(s).value)
  {
    var t := ConsumerNext(s).value;
    ReleaseKeepsWindow(s);
    ReleaseKeepsThreads(s);
    assert t.submitted[..HashedBlocks(t)] == s.submitted[..HashedBlocks(s)];
  }

  /** Releasing the first block of the window makes the next one the first. */
  lemma ReleaseOldest(slots: seq<Slot>, blocks: seq<seq<Byte>>, released: nat, slot: Slot)
    requires |slots| > 0 && released < |blocks| <= released + |slots|
    requires Filled(slots, blocks, released) && slot.empty
    ensures Filled(slots[Index(released, |slots|) := slot], blocks, released + 1)
  {
    var n := |slots|;
    assert Index(released + n, n) == Index(released, n);
    forall k {:trigger Index(k, n)} | released < k < released + n
      ensures Index(k, n) != Index(released, n)
    {
      IndexInjective(released, k, n);
    }
  }

  lemma ReleaseKeepsWindow(s: State)
    requires Shape(s) && Window(s) && ConsumerOk(s) && s.consumer.Release?
    ensures ConsumerNext(s).Some? && Shape(ConsumerNext(s).value) && Window(ConsumerNext(s).value)
  {
    ReleaseOldest(s.slots, s.submitted, s.released, s.slots[s.readIt].(empty := true));
  }

  lemma ReleaseKeepsThreads(s: State)
    requires Inv(s) && s.consumer.Release? && ConsumerNext(s).Some? && Shape(ConsumerNext(s).value)
    ensures ProducerOk(ConsumerNext(s).value) && ConsumerOk(ConsumerNext(s).value)
  {
    var t := ConsumerNext(s).value;
    assert t.slots[t.writeIt].data == s.slots[s.writeIt].data && t.slots[t.writeIt].len == s.slots[s.writeIt].len;
    assert SlotFree(t) && t.consumer.NotifyWriter?;
  }

  lemma HashKeepsInv(s: State)
    requires Inv(s) && s.consumer.Hash?
    ensures ConsumerNext(s).Some? && Inv(ConsumerNext(s).value)
  {
    ReaderSlot(s);
    var h := s.released;
    assert s.submitted[..h + 1][..h] == s.submitted[..h];
  }

  /** Moving only the program counters, or setting `finished`, leaves the ring as it is. */
  lemma RingKept(s: State, t: State)
    requires Shape(s) && Window(s) && HashedOk(s)
    requires t == s.(producer := t.producer, consumer := t.consumer, finished := t.finished, answer := t.answer)
    requires WriterAt(t) == WriterAt(s) && ReaderAt(t) == ReaderAt(s) && HashedBlocks(t) == HashedBlocks(s)
    ensures Shape(t) && Window(t) && HashedOk(t)
  {
  }

  lemma AdvanceReaderKeepsInv(s: State)
    requires Inv(s) && s.consumer.AdvanceReader?
    ensures Inv(ConsumerNext(s).value)
  {
    IndexSucc(ReaderAt(s), |s.slots|);
    var t := ConsumerNext(s).value;
    assert Shape(t) && Window(t);
    assert ProducerOk(t) && ConsumerOk(t);
  }

  lemma AdvanceWriterKeepsInv(s: State)
    requires Inv(s) && s.producer.AdvanceWriter?
    ensures Inv(ProducerNext(s).value)
  {
    IndexSucc(WriterAt(s), |s.slots|);
    var t := ProducerNext(s).value;
    assert Shape(t) && Window(t);
    assert ProducerOk(t) && ConsumerOk(t);
  }

  lemma ConsumerKeepsInv(s: State)
    requires Inv(s) && ConsumerNext(s).Some?
    ensures Inv(ConsumerNext(s).value)
  {
    if s.consumer.Hash? {
      HashKeepsInv(s);
    } else if s.consumer.Release? {
      ReleaseKeepsInv(s);
    } else if s.consumer.AdvanceReader? {
      AdvanceReaderKeepsInv(s);
    } else {
      if s.consumer.TestSlot? {
        ReaderSlot(s);
      }
      RingKept(s, ConsumerNext(s).value);
    }
  }

  lemma CopyOneKeepsInv(s: State, bytes: seq<Byte>, done: nat)
    requires Inv(s) && s.producer == CopyBytes(bytes, done) && done < |bytes|
    ensures Inv(ProducerNext(s).value)
  {
    var slot := s.slots[s.writeIt];
    var data := Overwrite(slot.data, done, bytes[done]);
    var t := s.(slots := s.slots[s.writeIt := slot.(data := data)]);
    WriterSlot(s);
    WriteFreeSlot(s, slot.(data := data));
    RingKept(t, t.(producer := CopyBytes(bytes, done + 1)));
    CopyOneOk(s, bytes, done);
  }

  lemma CopyOneOk(s: State, bytes: seq<Byte>, done: nat)
    requires Shape(s) && ProducerOk(s) && ConsumerOk(s) && s.producer == CopyBytes(bytes, done) && done < |bytes|
    requires ProducerNext(s).Some? && Shape(ProducerNext(s).value)
    ensures ProducerOk(ProducerNext(s).value) && ConsumerOk(ProducerNext(s).value)
  {
    var data := s.slots[s.writeIt].data;
    assert data[done := bytes[done]][..done + 1] == bytes[..done + 1];
  }

  lemma CopyDoneKeepsInv(s: State, bytes: seq<Byte>, done: nat)
    requires Inv(s) && s.producer == CopyBytes(bytes, done) && done >= |bytes|
    ensures Inv(ProducerNext(s).value)
  {
    RingKept(s, ProducerNext(s).value);
  }

  lemma StoreLenKeepsInv(s: State, bytes: seq<Byte>)
    requires Inv(s) && s.producer == StoreLen(bytes)
    ensures Inv(ProducerNext(s).value)
  {
    WriterSlot(s);
    WriteFreeSlot(s, s.slots[s.writeIt].(len := |bytes|));
    RingKept(s.(slots := ProducerNext(s).value.slots), ProducerNext(s).value);
  }

  lemma WaitKeepsInv(s: State)
    requires Inv(s) && (s.producer.WaitSlot? || s.producer.WaitNext? || s.producer.WaitPending? || s.producer.ReadSum?)
    ensures Inv(ProducerNext(s).value)
  {
    WriterSlot(s);
    RingKept(s, ProducerNext(s).value);
  }

  lemma NotifyKeepsInv(s: State)
    requires Inv(s) && (s.producer.NotifyReader? || s.producer.NotifyFinished? || s.producer.Joining?)
    requires ProducerNext(s).Some?
    ensures Inv(ProducerNext(s).value)
  {
    RingKept(s, ProducerNext(s).value);
  }

  lemma {:induction false} ProducerKeepsInv(s: State)
    requires Inv(s) && ProducerNext(s).Some?
    ensures Inv(ProducerNext(s).value)
  {
    var p := s.producer;
    if p.CopyBytes? {
      if p.done < |p.bytes| {
        CopyOneKeepsInv(s, p.bytes, p.done);
      } else {
        CopyDoneKeepsInv(s, p.bytes, p.done);
      }
    } else if p.StoreLen? {
      StoreLenKeepsInv(s, p.bytes);
    } else if p.Publish? {
      PublishKeepsInv(s, s.slots[s.writeIt].(empty := false), p.bytes);
    } else if p.AdvanceWriter? {
      AdvanceWriterKeepsInv(s);
    } else if p.NotifyReader? || p.NotifyFinished? || p.Joining? {
      NotifyKeepsInv(s);
    } else {
      WaitKeepsInv(s);
    }
  }

  lemma FillKeepsInv(s: State, i: nat, b: Byte)
    requires Inv(s) && Next(s, Fill(i, b)).Some?
    ensures Inv(Next(s, Fill(i, b)).value)
  {
    WriterSlot(s);
    var slot := s.slots[s.writeIt];
    WriteFreeSlot(s, slot.(data := Overwrite(slot.data, i, b)));
  }

  lemma CallKeepsInv(s: State, step: Step)
    requires Inv(s) && Next(s, step).Some?
    requires step.CallUpdate? || step.CallChecksum? || step.CallDestructor?
    ensures Inv(Next(s, step).value)
  {
    RingKept(s, Next(s, step).value);
  }

  lemma SpuriousKeepsInv(s: State, step: Step)
    requires Inv(s) && Next(s, step).Some?
    requires step.SpuriousProducer? || step.SpuriousConsumer?
    ensures Inv(Next(s, step).value)
  {
    RingKept(s, Next(s, step).value);
  }

  lemma {:induction false} StepKeepsInv(s: State, step: Step)
    requires Inv(s) && Next(s, step).Some?
    ensures Inv(Next(s, step).value)
  {
    if step.Fill? {
      FillKeepsInv(s, step.index, step.value);
    } else if step.CallUpdateInPlace? {
      var slot := s.slots[s.writeIt];
      PublishKeepsInv(s, slot.(len := step.len, empty := false), slot.data[..step.len]);
    } else if step.ProducerStep? {
      ProducerKeepsInv(s);
    } else if step.ConsumerStep? {
      ConsumerKeepsInv(s);
    } else if step.SpuriousProducer? || step.SpuriousConsumer? {
      SpuriousKeepsInv(s, step);
    } else {
      CallKeepsInv(s, step);
    }
  }

  // ----- Every run -----

  /** The state after a run of steps of any kind, in any interleaving, from `s`. */
  function Run(s: State, steps: seq<Step>): Option<State>
    requires Inv(s)
    decreases |steps|
  {
    if steps == [] then Some(s)
    else
      match Next(s, steps[0])
      case None => None
      case Some(t) => StepKeepsInv(s, steps[0]); Run(t, steps[1..])
  }

  lemma {:induction false} RunKeepsInv(s: State, steps: seq<Step>)
    requires Inv(s) && Run(s, steps).Some?
    ensures Inv(Run(s, steps).value)
    decreases |steps|
  {
    if steps != [] {
      StepKeepsInv(s, steps[0]);
      RunKeepsInv(Next(s, steps[0]).value, steps[1..]);
    }
  }

  lemma NothingSummed(s: State)
    requires Initial(s)
    ensures Summed(s)
  {
    assert Not(Not(Zeros(32))) == Zeros(32);
  }

  lemma OnlyHashingSums(s: State, step: Step)
    requires Shape(s) && Next(s, step).Some? && !(step.ConsumerStep? && s.consumer.Hash?)
    ensures Next(s, step).value.checksum == s.checksum && Next(s, step).value.hashed == s.hashed
  {
  }

  /** Only hashing a block touches the register, and it chains. */
  lemma StepKeepsSummed(s: State, step: Step)
    requires Shape(s) && Summed(s) && Next(s, step).Some?
    ensures Summed(Next(s, step).value)
  {
    if step.ConsumerStep? && s.consumer.Hash? {
      var slot := s.slots[s.readIt];
      ChecksumAppend(s.hashed, slot.data[..slot.len], Zeros(32));
    } else {
      OnlyHashingSums(s, step);
    }
  }

  lemma {:induction false} RunKeepsSummed(s: State, steps: seq<Step>)
    requires Inv(s) && Summed(s) && Run(s, steps).Some?
    ensures Summed(Run(s, steps).value)
    decreases |steps|
  {
    if steps != [] {
      StepKeepsInv(s, steps[0]);
      StepKeepsSummed(s, steps[0]);
      RunKeepsSummed(Next(s, steps[0]).value, steps[1..]);
    }
  }

  ghost predicate Reachable(s: State) {
    exists s0: State, steps: seq<Step> :: Initial(s0) && (InitialInv(s0); Run(s0, steps) == Some(s))
  }

  lemma ReachableInv(s: State)
    requires Reachable(s)
    ensures Inv(s) && Summed(s)
  {
    var s0: State, steps: seq<Step> :| Initial(s0) && (InitialInv(s0); Run(s0, steps) == Some(s));
    InitialInv(s0);
    NothingSummed(s0);
    RunKeepsInv(s0, steps);
    RunKeepsSummed(s0, steps);
  }

  /** The producer may be touching the data or the length of the slot at `writeIt`. */
  predicate ProducerTouches(s: State) {
    s.producer.CopyBytes? || s.producer.StoreLen? || (s.producer.Idle? && s.style.InPlace?)
  }

  /** In every interleaving: `pending` counts the filled slots and never exceeds the queue, the
      asserts of the original hold, and the threads never use one slot's data at once. */
  lemma Safety(s: State)
    requires Reachable(s)
    ensures Shape(s) && Window(s) && s.pending <= |s.slots|
    ensures s.consumer.Hash? ==> s.slots[s.readIt].len <= |s.slots[s.readIt].data|
    ensures s.consumer.Release? ==> s.pending > 0
    ensures s.consumer.Hash? && ProducerTouches(s) ==> s.readIt != s.writeIt
    ensures s.producer.ReadSum? ==> !s.consumer.Hash?
  {
    ReachableInv(s);
    ReaderSlot'(s);
  }

  lemma ReaderSlot'(s: State)
    requires Inv(s)
    ensures s.consumer.Hash? ==> Holds(s.slots[s.readIt], s.submitted[s.released])
    ensures s.consumer.Hash? && ProducerTouches(s) ==> s.slots[s.writeIt].empty
  {
    if s.consumer.Hash? {
      ReaderSlot(s);
      if ProducerTouches(s) {
        WriterSlot(s);
      }
    }
  }

  /** `Checksum()` returns the CRC-32 of the blocks submitted, and the register holds it once the
      consumer has stopped: the ring refines hashing each block at once. */
  lemma ChecksumOfSubmitted(s: State)
    requires Reachable(s)
    ensures s.producer.ReadSum? ==>
              Shape(s) && ProducerNext(s).Some? &&
              ProducerNext(s).value.answer == Some(Checksum(Flatten(s.submitted), Zeros(32)))
    ensures s.consumer.Exited? ==> s.checksum == Checksum(Flatten(s.submitted), Zeros(32))
    ensures s.consumer.Exited? ==> forall i | 0 <= i < |s.slots| :: s.slots[i].empty
  {
    ReachableInv(s);
    if s.producer.ReadSum? || s.consumer.Exited? {
      assert s.submitted[..HashedBlocks(s)] == s.submitted;
    }
    if s.consumer.Exited? {
      forall i | 0 <= i < |s.slots|
        ensures s.slots[i].empty
      {
        var _ := SomeBlock(s.released, |s.slots|, i);
      }
    }
  }

  /** Any `n` consecutive blocks use every slot. */
  lemma {:induction false} SomeBlock(first: nat, n: nat, i: nat) returns (k: nat)
    requires i < n
    ensures first <= k < first + n && Index(k, n) == i
    decreases first
  {
    if first <= i {
      k := i;
    } else if first <= n {
      k := i + n;
    } else {
      k := SomeBlock(first - n, n, i);
      k := k + n;
    }
  }

  // ----- No deadlock, and every call returns -----

  predicate InCall(p: Producer) {
    !p.Idle? && !p.Destroyed?
  }

  function ConsumerWork(c: Consumer): nat {
    match c
    case NotifyWriter => 9
    case AdvanceReader => 7
    case TestSlot => 6
    case Hash => 5
    case Release => 4
    case AsleepRead => 1
    case Exited => 0
  }

  function ProducerWork(p: Producer): nat {
    match p
    case WaitSlot(bytes) => 25 + |bytes|
    case AsleepSlot(bytes) => 24 + |bytes|
    case CopyBytes(bytes, done) => 22 + (if done <= |bytes| then |bytes| - done else 0)
    case StoreLen(_) => 21
    case Publish(_) => 20
    case NotifyReader => 9
    case NotifyFinished => 8
    case AdvanceWriter => 3
    case WaitPending => 3
    case WaitNext => 2
    case AsleepPending => 2
    case Joining => 2
    case AsleepNext => 1
    case ReadSum => 1
    case Idle => 0
    case Destroyed => 0
  }

  /** How many steps the two threads can still take before the producer's call returns. */
  function Work(s: State): nat {
    10 * s.pending + ConsumerWork(s.consumer) + ProducerWork(s.producer)
  }

  /** While the producer is inside a call, one of the threads can go on. */
  lemma NoDeadlock(s: State)
    requires Inv(s) && InCall(s.producer)
    ensures ProducerNext(s).Some? || ConsumerNext(s).Some?
  {
    ReaderSlot'(s);
  }

  lemma ConsumerUsesWork(s: State)
    requires Inv(s) && ConsumerNext(s).Some?
    ensures Work(ConsumerNext(s).value) < Work(s)
  {
    ReaderSlot'(s);
  }

  lemma WaitUsesWork(s: State)
    requires Inv(s) && (s.producer.WaitSlot? || s.producer.WaitNext? || s.producer.WaitPending?)
    ensures ProducerNext(s).Some? && Work(ProducerNext(s).value) < Work(s)
  {
  }

  lemma ProducerUsesWork(s: State)
    requires Inv(s) && ProducerNext(s).Some?
    ensures Work(ProducerNext(s).value) < Work(s)
  {
    if s.producer.WaitSlot? || s.producer.WaitNext? || s.producer.WaitPending? {
      WaitUsesWork(s);
    } else {
      OwnStepUsesWork(s);
    }
  }

  lemma OwnStepUsesWork(s: State)
    requires Shape(s) && ProducerOk(s) && ProducerNext(s).Some?
    requires !s.producer.WaitSlot? && !s.producer.WaitNext? && !s.producer.WaitPending?
    ensures Work(ProducerNext(s).value) < Work(s)
  {
    var t := ProducerNext(s).value;
    assert t.pending == if s.producer.Publish? then s.pending + 1 else s.pending;
    assert ConsumerWork(t.consumer) <= ConsumerWork(s.consumer) + if s.producer.NotifyReader? || s.producer.NotifyFinished? then 5 else 0;
  }

  /** Each step either thread takes on its own uses up work. */
  lemma {:induction false} StepUsesWork(s: State, step: Step)
    requires Inv(s) && Internal(step) && Next(s, step).Some?
    ensures Work(Next(s, step).value) < Work(s)
  {
    if step.ConsumerStep? {
      ConsumerUsesWork(s);
    } else {
      ProducerUsesWork(s);
    }
  }

  /** A spurious wake-up may add a little work, but no more than that. */
  lemma SpuriousAddsWork(s: State, step: Step)
    requires Inv(s) && (step.SpuriousProducer? || step.SpuriousConsumer?) && Next(s, step).Some?
    ensures Work(Next(s, step).value) <= Work(s) + 5
  {
  }

  /** The steps the two threads take, wake-ups without a notification included. */
  predicate OfThreads(step: Step) {
    Internal(step) || step.SpuriousProducer? || step.SpuriousConsumer?
  }

  function Spurious(steps: seq<Step>): nat {
    if steps == [] then 0 else (if Internal(steps[0]) then 0 else 1) + Spurious(steps[1..])
  }

  lemma {:induction false} RunUsesWork(s: State, steps: seq<Step>)
    requires Inv(s) && Run(s, steps).Some?
    requires forall i | 0 <= i < |steps| :: OfThreads(steps[i])
    ensures |steps| + Work(Run(s, steps).value) <= Work(s) + 6 * Spurious(steps)
    decreases |steps|
  {
    if steps != [] {
      var t := Next(s, steps[0]).value;
      StepKeepsInv(s, steps[0]);
      if Internal(steps[0]) {
        StepUsesWork(s, steps[0]);
      } else {
        SpuriousAddsWork(s, steps[0]);
      }
      assert forall i | 0 <= i < |steps[1..]| :: steps[1..][i] == steps[i + 1];
      RunUsesWork(t, steps[1..]);
    }
  }

  /** Every call returns under every schedule: but for spurious wake-ups the threads cannot go on for
      ever, and once they cannot go on at all the producer is outside of every call. */
  lemma {:induction false} CallsReturn(s: State, steps: seq<Step>)
    requires Reachable(s) && Inv(s) && Run(s, steps).Some?
    requires forall i | 0 <= i < |steps| :: OfThreads(steps[i])
    ensures |steps| <= Work(s) + 6 * Spurious(steps)
    ensures var t := Run(s, steps).value;
            Shape(t) && (InCall(t.producer) ==> ProducerNext(t).Some? || ConsumerNext(t).Some?)
  {
    RunUsesWork(s, steps);
    RunKeepsInv(s, steps);
    if InCall(Run(s, steps).value.producer) {
      NoDeadlock(Run(s, steps).value);
    }
  }
}
