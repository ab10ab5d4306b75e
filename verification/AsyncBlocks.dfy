/** What is hashed by the ring of util/util/asynccrc32.hpp is what its caller passed in, block by block and byte by byte. */
module AsyncBlocks {
  import opened Sequences
  import opened Wrappers
  import opened Crc32
  import opened AsyncCrc32

  // ----- Runs, from the back -----

  lemma {:induction false} RunBack(s: State, steps: seq<Step>)
    requires Inv(s) && steps != [] && Run(s, steps).Some?
    ensures Run(s, steps[..|steps| - 1]).Some? && Inv(Run(s, steps[..|steps| - 1]).value)
    ensures Next(Run(s, steps[..|steps| - 1]).value, steps[|steps| - 1]) == Run(s, steps)
    decreases |steps|
  {
    var front, last := steps[..|steps| - 1], steps[|steps| - 1];
    StepKeepsInv(s, steps[0]);
    if front == [] {
      assert steps[1..] == [];
    } else {
      assert steps[1..][..|front| - 1] == front[1..];
      assert steps[1..][|front| - 1] == last;
      RunBack(Next(s, steps[0]).value, steps[1..]);
    }
  }

  // ----- The copying overload -----

  /** The blocks that the caller passed to `Update`, in order. */
  function Arguments(steps: seq<Step>): seq<seq<Byte>> {
    if steps == [] then []
    else
      var last := steps[|steps| - 1];
      Arguments(steps[..|steps| - 1]) + (if last.CallUpdate? then [last.bytes] else [])
  }

  /** The block of a call that has not handed it over yet. */
  function InFlight(p: Producer): seq<seq<Byte>> {
    match p
    case WaitSlot(bytes) => [bytes]
    case AsleepSlot(bytes) => [bytes]
    case CopyBytes(bytes, _) => [bytes]
    case StoreLen(bytes) => [bytes]
    case Publish(bytes) => [bytes]
    case _ => []
  }

  lemma StepPassesOn(s: State, step: Step)
    requires Shape(s) && s.style.Copying? && Next(s, step).Some?
    ensures var t := Next(s, step).value;
            && t.style.Copying?
            && t.submitted + InFlight(t.producer) ==
               s.submitted + InFlight(s.producer) + (if step.CallUpdate? then [step.bytes] else [])
  {
  }

  /** Every block passed to `Update` has been submitted, in order, or is the one of the call under way. */
  lemma {:induction false} PassedOn(s0: State, steps: seq<Step>)
    requires Initial(s0) && s0.style.Copying? && Inv(s0) && Run(s0, steps).Some?
    ensures var s := Run(s0, steps).value;
            s.style.Copying? && s.submitted + InFlight(s.producer) == Arguments(steps)
    decreases |steps|
  {
    if steps != [] {
      RunBack(s0, steps);
      PassedOn(s0, steps[..|steps| - 1]);
      StepPassesOn(Run(s0, steps[..|steps| - 1]).value, steps[|steps| - 1]);
    }
  }

  // ----- The overload for buffers filled in place -----

  /** How many blocks have been submitted. */
  function Calls(steps: seq<Step>): nat {
    if steps == [] then 0
    else Calls(steps[..|steps| - 1]) + if steps[|steps| - 1].CallUpdateInPlace? then 1 else 0
  }

  /** What was written last at position `i` of buffer `k`, the buffers being used in turn. */
  function LastWritten(first: seq<Slot>, steps: seq<Step>, k: nat, i: nat): Byte
    requires |first| > 0
  {
    if steps == [] then
      if k < |first| && i < |first[k].data| then first[k].data[i] else Zeros(8)
    else
      var front, last := steps[..|steps| - 1], steps[|steps| - 1];
      if last.Fill? && last.index == i && Index(Calls(front), |first|) == k then last.value
      else LastWritten(first, front, k, i)
  }

  /** The blocks that the caller wrote and submitted, in order. */
  function Written(first: seq<Slot>, steps: seq<Step>): seq<seq<Byte>>
    requires |first| > 0
  {
    if steps == [] then []
    else
      var front, last := steps[..|steps| - 1], steps[|steps| - 1];
      Written(first, front) +
      if last.CallUpdateInPlace? then
        [seq(last.len, i requires 0 <= i < last.len => LastWritten(first, front, Index(Calls(front), |first|), i))]
      else []
  }

  ghost predicate BuffersHold(s: State, first: seq<Slot>, steps: seq<Step>)
    requires |first| > 0
  {
    && |s.slots| == |first|
    && (forall k | 0 <= k < |first| :: |s.slots[k].data| == |first[0].data|)
    && forall k, i | 0 <= k < |first| && 0 <= i < |first[0].data| ::
         s.slots[k].data[i] == LastWritten(first, steps, k, i)
  }

  ghost predicate Tracks(s: State, first: seq<Slot>, steps: seq<Step>)
    requires |first| > 0
  {
    && s.style.InPlace? && BuffersHold(s, first, steps)
    && |s.submitted| == Calls(steps) && s.submitted == Written(first, steps)
  }

  /** A step that neither writes to a buffer nor submits one. */
  predicate Elsewhere(step: Step) {
    !step.Fill? && !step.CallUpdateInPlace?
  }

  lemma ElsewhereKeepsBuffers(s: State, step: Step)
    requires Shape(s) && ProducerOk(s) && s.style.InPlace? && Elsewhere(step) && Next(s, step).Some?
    ensures var t := Next(s, step).value;
            && t.style == s.style && t.submitted == s.submitted && |t.slots| == |s.slots|
            && forall k | 0 <= k < |s.slots| :: t.slots[k].data == s.slots[k].data
  {
  }

  lemma FillTracks(s: State, first: seq<Slot>, steps: seq<Step>)
    requires |first| > 0 && steps != [] && steps[|steps| - 1].Fill?
    requires Inv(s) && Tracks(s, first, steps[..|steps| - 1]) && Next(s, steps[|steps| - 1]).Some?
    ensures Tracks(Next(s, steps[|steps| - 1]).value, first, steps)
  {
    var front, last := steps[..|steps| - 1], steps[|steps| - 1];
    var t := Next(s, last).value;
    assert s.writeIt == Index(Calls(front), |first|);
    forall k, i | 0 <= k < |first| && 0 <= i < |first[0].data|
      ensures t.slots[k].data[i] == LastWritten(first, steps, k, i)
    {
      assert s.slots[k].data[i] == LastWritten(first, front, k, i);
    }
  }

  lemma SubmitTracks(s: State, first: seq<Slot>, steps: seq<Step>)
    requires |first| > 0 && steps != [] && steps[|steps| - 1].CallUpdateInPlace?
    requires Inv(s) && Tracks(s, first, steps[..|steps| - 1]) && Next(s, steps[|steps| - 1]).Some?
    ensures Tracks(Next(s, steps[|steps| - 1]).value, first, steps)
  {
    var front, last := steps[..|steps| - 1], steps[|steps| - 1];
    var t := Next(s, last).value;
    assert s.writeIt == Index(Calls(front), |first|);
    var block := seq(last.len, i requires 0 <= i < last.len => LastWritten(first, front, s.writeIt, i));
    assert s.slots[s.writeIt].data[..last.len] == block;
    forall k, i | 0 <= k < |first| && 0 <= i < |first[0].data|
      ensures t.slots[k].data[i] == LastWritten(first, steps, k, i)
    {
      assert s.slots[k].data[i] == LastWritten(first, front, k, i);
    }
  }

  lemma ElsewhereTracks(s: State, first: seq<Slot>, steps: seq<Step>)
    requires |first| > 0 && steps != [] && Elsewhere(steps[|steps| - 1])
    requires Inv(s) && Tracks(s, first, steps[..|steps| - 1]) && Next(s, steps[|steps| - 1]).Some?
    ensures Tracks(Next(s, steps[|steps| - 1]).value, first, steps)
  {
    var front, last := steps[..|steps| - 1], steps[|steps| - 1];
    var t := Next(s, last).value;
    ElsewhereKeepsBuffers(s, last);
    forall k, i | 0 <= k < |first| && 0 <= i < |first[0].data|
      ensures t.slots[k].data[i] == LastWritten(first, steps, k, i)
    {
      assert s.slots[k].data[i] == LastWritten(first, front, k, i);
    }
  }

  /** The blocks submitted are what the caller wrote last into each buffer, up to the length it gave. */
  lemma {:induction false} FilledIn(s0: State, steps: seq<Step>)
    requires Initial(s0) && s0.style.InPlace? && Inv(s0) && Run(s0, steps).Some?
    ensures Tracks(Run(s0, steps).value, s0.slots, steps)
    decreases |steps|
  {
    if steps != [] {
      var front, last := steps[..|steps| - 1], steps[|steps| - 1];
      RunBack(s0, steps);
      FilledIn(s0, front);
      var s := Run(s0, front).value;
      if last.Fill? {
        FillTracks(s, s0.slots, steps);
      } else if last.CallUpdateInPlace? {
        SubmitTracks(s, s0.slots, steps);
      } else {
        ElsewhereTracks(s, s0.slots, steps);
      }
    }
  }

  // ----- Either style -----

  /** Everything the caller asked to be hashed, in order. */
  function Given(s0: State, steps: seq<Step>): seq<seq<Byte>>
    requires |s0.slots| > 0
  {
    if s0.style.Copying? then Arguments(steps) else Written(s0.slots, steps)
  }

  /** `Checksum()` returns the CRC-32 of all the bytes that the caller asked to be hashed, whatever the interleaving,
      and so does the register hold it once the thread that hashes has exited. */
  lemma ChecksumOfEverything(s0: State, steps: seq<Step>)
    requires Initial(s0) && Inv(s0) && Run(s0, steps).Some?
    ensures var s, sum := Run(s0, steps).value, Checksum(Flatten(Given(s0, steps)), Zeros(32));
            && (s.producer.ReadSum? ==>
                  Shape(s) && ProducerNext(s).Some? && ProducerNext(s).value.answer == Some(sum))
            && (s.consumer.Exited? ==> s.checksum == sum)
  {
    var s := Run(s0, steps).value;
    assert Reachable(s);
    ReachableInv(s);
    ChecksumOfSubmitted(s);
    if s0.style.Copying? {
      PassedOn(s0, steps);
      assert InFlight(s.producer) == [] ==> s.submitted == Arguments(steps);
    } else {
      FilledIn(s0, steps);
    }
  }
}
