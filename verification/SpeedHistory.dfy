/** What the shared speed counter of src/ftp/speedcontrol.hpp holds, told from the calls alone. */
module SpeedHistory {
  import opened Wrappers
  import opened SpeedCounter
  import opened SpeedControl

  // ----- What the calls say -----

  /** The transfers begun, in order. */
  function Begun(steps: seq<Step>): seq<Step> {
    if steps == [] then []
    else Begun(steps[..|steps| - 1]) + if steps[|steps| - 1].Begin? then [steps[|steps| - 1]] else []
  }

  lemma {:induction false} BegunBegin(steps: seq<Step>)
    ensures forall i | 0 <= i < |Begun(steps)| :: Begun(steps)[i].Begin?
  {
    if steps != [] {
      BegunBegin(steps[..|steps| - 1]);
    }
  }

  /** The figures of the last report of transfer `i`. */
  function LastReport(steps: seq<Step>, i: nat): Option<SpeedInfo> {
    if steps == [] then None
    else
      var last := steps[|steps| - 1];
      if last.Apply? && last.i == i then Some(last.current) else LastReport(steps[..|steps| - 1], i)
  }

  predicate HasEnded(steps: seq<Step>, i: nat) {
    End(i) in steps
  }

  /** A transfer without limits reports nothing, and one that has ended takes its report back. */
  function Counted(steps: seq<Step>, i: nat, limits: seq<string>, ownLimit: bool): Option<SpeedInfo> {
    if HasEnded(steps, i) || (!ownLimit && limits == []) then None else LastReport(steps, i)
  }

  function TransferOf(steps: seq<Step>, i: nat, begin: Step): Transfer
    requires begin.Begin?
  {
    Transfer(begin.limits, begin.ownLimit, Counted(steps, i, begin.limits, begin.ownLimit), !HasEnded(steps, i))
  }

  function Expected(steps: seq<Step>): seq<Transfer> {
    BegunBegin(steps);
    seq(|Begun(steps)|, i requires 0 <= i < |Begun(steps)| => TransferOf(steps, i, Begun(steps)[i]))
  }

  // ----- Every run does what the calls say -----

  const START := State(map[], [])

  lemma {:induction false} RunBack(s: State, steps: seq<Step>)
    requires steps != [] && Run(s, steps).Some?
    ensures Run(s, steps[..|steps| - 1]).Some?
    ensures Next(Run(s, steps[..|steps| - 1]).value, steps[|steps| - 1]) == Run(s, steps)
    decreases |steps|
  {
    var front, last := steps[..|steps| - 1], steps[|steps| - 1];
    if front == [] {
      assert steps[1..] == [];
    } else {
      assert steps[1..][..|front| - 1] == front[1..];
      assert steps[1..][|front| - 1] == last;
      RunBack(Next(s, steps[0]).value, steps[1..]);
    }
  }

  /** Only transfers that have begun report or end. */
  ghost predicate OnlyBegun(steps: seq<Step>) {
    forall i: nat | i >= |Begun(steps)| :: LastReport(steps, i) == None && !HasEnded(steps, i)
  }

  lemma SplitLast(steps: seq<Step>, step: Step)
    requires steps != []
    ensures step in steps <==> step in steps[..|steps| - 1] || step == steps[|steps| - 1]
  {
    assert steps == steps[..|steps| - 1] + [steps[|steps| - 1]];
  }

  lemma StepIsExpected(s: State, steps: seq<Step>)
    requires steps != [] && s.transfers == Expected(steps[..|steps| - 1]) && OnlyBegun(steps[..|steps| - 1])
    requires Next(s, steps[|steps| - 1]).Some?
    ensures Next(s, steps[|steps| - 1]).value.transfers == Expected(steps) && OnlyBegun(steps)
  {
    var front, last := steps[..|steps| - 1], steps[|steps| - 1];
    var t := Next(s, last).value;
    BegunBegin(front);
    BegunBegin(steps);
    forall i: nat
      ensures HasEnded(steps, i) <==> HasEnded(front, i) || last == End(i)
    {
      SplitLast(steps, End(i));
    }
    assert |t.transfers| == |Begun(steps)|;
    forall i | 0 <= i < |t.transfers|
      ensures t.transfers[i] == TransferOf(steps, i, Begun(steps)[i])
    {
      if i < |s.transfers| {
        assert s.transfers[i] == TransferOf(front, i, Begun(front)[i]);
        assert Begun(steps)[i] == Begun(front)[i];
      }
    }
  }

  lemma {:induction false} RunIsExpected(steps: seq<Step>)
    requires Run(START, steps).Some?
    ensures Run(START, steps).value.transfers == Expected(steps) && OnlyBegun(steps)
    decreases |steps|
  {
    if steps != [] {
      RunBack(START, steps);
      RunIsExpected(steps[..|steps| - 1]);
      StepIsExpected(Run(START, steps[..|steps| - 1]).value, steps);
    }
  }

  /** After every run the map holds exactly the last reports of the transfers that have begun and not ended, each
      on its own limit paths with multiplicity, and no assert fires in the next step either. */
  lemma {:induction false} EveryRun(steps: seq<Step>, step: Step)
    requires Run(START, steps).Some?
    ensures var s := Run(START, steps).value;
            && s.transfers == Expected(steps)
            && (forall p: string :: SpeedControl.Holds(s.speeds, p, Total(Expected(steps), p)))
            && (Next(s, step).Some? ==> StepSafe(s, step))
  {
    RunIsExpected(steps);
    RunKeepsInv(START, steps);
    var s := Run(START, steps).value;
    if Next(s, step).Some? {
      StepKeepsInv(s, step);
    }
  }

  /** Once all transfers have ended, nothing is left in the map. */
  lemma EndedLeaveNothing(steps: seq<Step>)
    requires Run(START, steps).Some?
    requires forall i | 0 <= i < |Begun(steps)| :: End(i) in steps
    ensures Run(START, steps).value.speeds == map[]
  {
    RunIsExpected(steps);
    RunKeepsInv(START, steps);
    NoneLiveNoneLeft(Run(START, steps).value);
  }
}
