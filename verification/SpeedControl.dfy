/** Every run of transfers against the shared speed counter: `SpeedControl::Apply` and the
    destructor of src/ftp/speedcontrol.hpp.

    The counter's mutex makes each call one step.
 */
module SpeedControl {
  import opened Wrappers
  import opened SpeedCounter

  /** One transfer: its limit paths, whether it has a speed limit of its own, the figures it
      reported last, and whether it is still running. */
  datatype Transfer = Transfer(limits: seq<string>, ownLimit: bool, last: Option<SpeedInfo>, live: bool)

  datatype State = State(speeds: Speeds, transfers: seq<Transfer>)

  datatype Step =
    | Begin(limits: seq<string>, ownLimit: bool)
    | Apply(i: nat, current: SpeedInfo)
    | End(i: nat)

  /** The counter and the transfer after one report of `current`. */
  function Applied(speeds: Speeds, t: Transfer, current: SpeedInfo): (Speeds, Transfer) {
    if !t.ownLimit && t.limits == [] then (speeds, t)
    else (Update(speeds, t.last, current, t.limits, |t.limits|), t.(last := Some(current)))
  }

  function Ended(speeds: Speeds, t: Transfer): (Speeds, Transfer) {
    (if t.last.Some? then Clear(speeds, t.last.value, t.limits, |t.limits|) else speeds,
     t.(last := None, live := false))
  }

  function Next(s: State, step: Step): Option<State> {
    match step
    case Begin(limits, ownLimit) => Some(s.(transfers := s.transfers + [Transfer(limits, ownLimit, None, true)]))
    case Apply(i, current) =>
      if i < |s.transfers| && s.transfers[i].live && NonNegative(current) then
        var (speeds, t) := Applied(s.speeds, s.transfers[i], current);
        Some(State(speeds, s.transfers[i := t]))
      else None
    case End(i) =>
      if i < |s.transfers| && s.transfers[i].live then
        var (speeds, t) := Ended(s.speeds, s.transfers[i]);
        Some(State(speeds, s.transfers[i := t]))
      else None
  }

  /** The object that one transfer owns. */
  class Control {
    const globalLimits: seq<string>
    const ownLimit: bool
    const globalCounter: Counter
    var lastSpeedInfo: Option<SpeedInfo>
    var live: bool

    function View(): Transfer
      reads this
    {
      Transfer(globalLimits, ownLimit, lastSpeedInfo, live)
    }

    constructor (limits: seq<string>, ownLimit: bool, counter: Counter)
      ensures View() == Transfer(limits, ownLimit, None, true) && globalCounter == counter
    {
      globalLimits, this.ownLimit, globalCounter := limits, ownLimit, counter;
      lastSpeedInfo, live := None, true;
    }

    method Apply(current: SpeedInfo)
      requires UpdateSafe(globalCounter.speeds, lastSpeedInfo, current, globalLimits)
      modifies this, globalCounter
      ensures (globalCounter.speeds, View()) == Applied(old(globalCounter.speeds), old(View()), current)
    {
      if !ownLimit && globalLimits == [] {
        return;
      }
      if globalLimits != [] {
        globalCounter.UpdateSpeeds(lastSpeedInfo, current, globalLimits);
      }
      lastSpeedInfo := Some(current);
    }

    /** The destructor. */
    method Destroy()
      requires lastSpeedInfo.Some? ==> ClearSafe(globalCounter.speeds, lastSpeedInfo.value, globalLimits)
      modifies this, globalCounter
      ensures (globalCounter.speeds, View()) == Ended(old(globalCounter.speeds), old(View()))
    {
      globalCounter.ClearSpeeds(lastSpeedInfo, globalLimits);
      lastSpeedInfo, live := None, false;
    }
  }

  /** No assert of the counter fires in this step. */
  ghost predicate StepSafe(s: State, step: Step) {
    match step
    case Begin(_, _) => true
    case Apply(i, current) =>
      i < |s.transfers| ==> UpdateSafe(s.speeds, s.transfers[i].last, current, s.transfers[i].limits)
    case End(i) =>
      i < |s.transfers| && s.transfers[i].last.Some? ==>
        ClearSafe(s.speeds, s.transfers[i].last.value, s.transfers[i].limits)
  }

  // ----- What the map should hold -----

  function Sum(a: Entry, b: Entry): Entry {
    Entry(a.count + b.count, Plus(a.info, b.info))
  }

  function Difference(a: Entry, b: Entry): Entry {
    Entry(a.count - b.count, Minus(a.info, b.info))
  }

  predicate AtLeast(a: Entry, b: Entry) {
    a.count >= b.count && a.info.xfertime >= b.info.xfertime && a.info.bytes >= b.info.bytes
  }

  const ZERO := Entry(0, SpeedInfo(0, 0))

  /** One occurrence of a path whose transfer reported `info`. */
  function Once(info: Option<SpeedInfo>): Entry {
    match info
    case None => ZERO
    case Some(i) => Entry(1, i)
  }

  /** What the first `n` paths of a transfer add to `p`: once per occurrence. */
  function Share(limits: seq<string>, n: nat, info: Option<SpeedInfo>, p: string): Entry
    requires n <= |limits|
  {
    if n == 0 then ZERO
    else Sum(Share(limits, n - 1, info, p), if limits[n - 1] == p then Once(info) else ZERO)
  }

  function ShareOf(t: Transfer, p: string): Entry {
    Share(t.limits, |t.limits|, t.last, p)
  }

  /** What the first `n` transfers add to `p`. */
  function TotalOf(transfers: seq<Transfer>, n: nat, p: string): Entry
    requires n <= |transfers|
  {
    if n == 0 then ZERO else Sum(TotalOf(transfers, n - 1, p), ShareOf(transfers[n - 1], p))
  }

  function Total(transfers: seq<Transfer>, p: string): Entry {
    TotalOf(transfers, |transfers|, p)
  }

  /** The map has an entry for `p` exactly when a registered transfer uses it, and the entry
      holds the count and the sum of what these transfers reported last. */
  ghost predicate Holds(speeds: Speeds, p: string, total: Entry) {
    (p in speeds <==> total.count > 0) && (p in speeds ==> speeds[p] == total)
  }

  ghost predicate Reported(t: Transfer) {
    Proper(t.last) && (!t.live ==> t.last.None?)
  }

  ghost predicate Inv(s: State) {
    && (forall i | 0 <= i < |s.transfers| :: Reported(s.transfers[i]))
    && (forall p: string :: Holds(s.speeds, p, Total(s.transfers, p)))
  }

  // ----- Shares and totals -----

  predicate Proper(info: Option<SpeedInfo>) {
    info.Some? ==> NonNegative(info.value)
  }

  /** A share is not negative, and nothing is reported without being counted. */
  predicate Fair(e: Entry) {
    && e.count >= 0 && NonNegative(e.info)
    && (e.count == 0 ==> e.info.xfertime == 0 && e.info.bytes == 0)
  }

  lemma {:induction false} ShareIsFair(limits: seq<string>, n: nat, info: Option<SpeedInfo>, p: string)
    requires n <= |limits| && Proper(info)
    ensures Fair(Share(limits, n, info, p))
  {
    if n > 0 {
      ShareIsFair(limits, n - 1, info, p);
      FairSum(Share(limits, n - 1, info, p), if limits[n - 1] == p then Once(info) else ZERO);
    }
  }

  lemma FairSum(a: Entry, b: Entry)
    requires Fair(a) && Fair(b)
    ensures Fair(Sum(a, b))
  {
    var s := Sum(a, b);
    assert s.count == a.count + b.count;
    assert s.info.xfertime == a.info.xfertime + b.info.xfertime && s.info.bytes == a.info.bytes + b.info.bytes;
  }

  lemma Added(a: Entry, b: Entry, c: Entry)
    requires AtLeast(a, c) && AtLeast(b, ZERO)
    ensures AtLeast(Sum(a, b), c)
  {
  }

  lemma {:induction false} ShareGrows(limits: seq<string>, k: nat, n: nat, info: Option<SpeedInfo>, p: string)
    requires k <= n <= |limits| && Proper(info)
    ensures AtLeast(Share(limits, n, info, p), Share(limits, k, info, p))
  {
    if k < n {
      ShareGrows(limits, k, n - 1, info, p);
      Added(Share(limits, n - 1, info, p), if limits[n - 1] == p then Once(info) else ZERO, Share(limits, k, info, p));
    }
  }

  lemma {:induction false} NothingReported(limits: seq<string>, n: nat, p: string)
    requires n <= |limits|
    ensures Share(limits, n, None, p) == ZERO
  {
    if n > 0 {
      NothingReported(limits, n - 1, p);
    }
  }

  /** The number of occurrences does not depend on the figures. */
  lemma {:induction false} SameCount(limits: seq<string>, n: nat, a: SpeedInfo, b: SpeedInfo, p: string)
    requires n <= |limits|
    ensures Share(limits, n, Some(a), p).count == Share(limits, n, Some(b), p).count
  {
    if n > 0 {
      SameCount(limits, n - 1, a, b, p);
    }
  }

  lemma {:induction false} TotalIsFair(transfers: seq<Transfer>, n: nat, p: string)
    requires n <= |transfers| && forall i | 0 <= i < n :: Reported(transfers[i])
    ensures Fair(TotalOf(transfers, n, p))
  {
    if n > 0 {
      TotalIsFair(transfers, n - 1, p);
      var t := transfers[n - 1];
      ShareIsFair(t.limits, |t.limits|, t.last, p);
    }
  }

  /** The total less the share of transfer `i` is still fair. */
  lemma {:induction false} OthersAreFair(transfers: seq<Transfer>, n: nat, i: nat, p: string)
    requires i < n <= |transfers| && forall i | 0 <= i < n :: Reported(transfers[i])
    ensures Fair(Difference(TotalOf(transfers, n, p), ShareOf(transfers[i], p)))
  {
    if i < n - 1 {
      OthersAreFair(transfers, n - 1, i, p);
      var t := transfers[n - 1];
      ShareIsFair(t.limits, |t.limits|, t.last, p);
    } else {
      TotalIsFair(transfers, i, p);
    }
  }

  lemma {:induction false} TotalOfPrefix(a: seq<Transfer>, b: seq<Transfer>, n: nat, p: string)
    requires n <= |a| && n <= |b| && forall i | 0 <= i < n :: a[i] == b[i]
    ensures TotalOf(a, n, p) == TotalOf(b, n, p)
  {
    if n > 0 {
      TotalOfPrefix(a, b, n - 1, p);
    }
  }

  lemma {:induction false} TotalUpdate(transfers: seq<Transfer>, n: nat, i: nat, t: Transfer, p: string)
    requires i < n <= |transfers|
    ensures TotalOf(transfers[i := t], n, p) ==
            Sum(Difference(TotalOf(transfers, n, p), ShareOf(transfers[i], p)), ShareOf(t, p))
  {
    if i < n - 1 {
      TotalUpdate(transfers, n - 1, i, t, p);
    } else {
      TotalOfPrefix(transfers, transfers[i := t], i, p);
    }
  }

  // ----- In the middle of a call, after the first `k` paths -----

  /** The total once the first `k` paths of transfer `i` moved from `last` to `next`. */
  function Midway(transfers: seq<Transfer>, i: nat, next: Option<SpeedInfo>, k: nat, p: string): Entry
    requires i < |transfers| && k <= |transfers[i].limits|
  {
    var t := transfers[i];
    Sum(Difference(Total(transfers, p), Share(t.limits, k, t.last, p)), Share(t.limits, k, next, p))
  }

  /** What is left at path `k` holds at least this transfer's own last report. */
  lemma MidwayIsEnough(transfers: seq<Transfer>, i: nat, next: Option<SpeedInfo>, k: nat)
    requires i < |transfers| && k < |transfers[i].limits| && Proper(next)
    requires forall i | 0 <= i < |transfers| :: Reported(transfers[i])
    ensures var before := Midway(transfers, i, next, k, transfers[i].limits[k]);
            AtLeast(Difference(before, Once(transfers[i].last)), ZERO)
  {
    var t := transfers[i];
    var p := t.limits[k];
    var total, moved, more := Total(transfers, p), Share(t.limits, k, t.last, p), Share(t.limits, k, next, p);
    OthersAreFair(transfers, |transfers|, i, p);
    ShareGrows(t.limits, k + 1, |t.limits|, t.last, p);
    ShareIsFair(t.limits, k, next, p);
    assert ShareOf(t, p) == Share(t.limits, |t.limits|, t.last, p);
    assert Share(t.limits, k + 1, t.last, p) == Sum(moved, Once(t.last));
    LeavesEnough(total, ShareOf(t, p), moved, Once(t.last), more);
  }

  lemma LeavesEnough(total: Entry, own: Entry, moved: Entry, once: Entry, more: Entry)
    requires Fair(Difference(total, own)) && AtLeast(own, Sum(moved, once)) && Fair(more)
    ensures AtLeast(Difference(Sum(Difference(total, moved), more), once), ZERO)
  {
  }

  /** In a first report nothing is subtracted. */
  lemma FirstMidwayIsFair(transfers: seq<Transfer>, i: nat, next: Option<SpeedInfo>, k: nat, p: string)
    requires i < |transfers| && k <= |transfers[i].limits| && Proper(next) && transfers[i].last.None?
    requires forall i | 0 <= i < |transfers| :: Reported(transfers[i])
    ensures Fair(Midway(transfers, i, next, k, p))
  {
    var t := transfers[i];
    TotalIsFair(transfers, |transfers|, p);
    NothingReported(t.limits, k, p);
    ShareIsFair(t.limits, k, next, p);
  }

  lemma MidwayStep(transfers: seq<Transfer>, i: nat, next: Option<SpeedInfo>, k: nat, p: string)
    requires i < |transfers| && k < |transfers[i].limits|
    ensures var t := transfers[i];
            var before, after := Midway(transfers, i, next, k, p), Midway(transfers, i, next, k + 1, p);
            after == if t.limits[k] != p then before else Sum(Difference(before, Once(t.last)), Once(next))
  {
  }

  lemma {:induction false} UpdateMidway(s: State, i: nat, current: SpeedInfo, k: nat, p: string)
    requires Inv(s) && i < |s.transfers| && k <= |s.transfers[i].limits| && NonNegative(current)
    ensures var t := s.transfers[i];
            Holds(Update(s.speeds, t.last, current, t.limits, k), p, Midway(s.transfers, i, Some(current), k, p))
  {
    var t := s.transfers[i];
    if k == 0 {
      assert Holds(s.speeds, p, Total(s.transfers, p));
    } else {
      UpdateMidway(s, i, current, k - 1, p);
      MidwayStep(s.transfers, i, Some(current), k - 1, p);
      if t.limits[k - 1] == p {
        MidwayIsEnough(s.transfers, i, Some(current), k - 1);
        if t.last.None? {
          FirstMidwayIsFair(s.transfers, i, Some(current), k - 1, p);
        }
      }
    }
  }

  lemma UpdateIsSafe(s: State, i: nat, current: SpeedInfo)
    requires Inv(s) && i < |s.transfers| && NonNegative(current)
    ensures UpdateSafe(s.speeds, s.transfers[i].last, current, s.transfers[i].limits)
  {
    var t := s.transfers[i];
    forall k | 0 <= k < |t.limits|
      ensures UpdateOneSafe(Update(s.speeds, t.last, current, t.limits, k), t.last, t.limits[k])
    {
      UpdateMidway(s, i, current, k, t.limits[k]);
      MidwayIsEnough(s.transfers, i, Some(current), k);
    }
  }

  lemma {:induction false} ClearMidway(s: State, i: nat, k: nat, p: string)
    requires Inv(s) && i < |s.transfers| && s.transfers[i].last.Some? && k <= |s.transfers[i].limits|
    ensures var t := s.transfers[i];
            Holds(Clear(s.speeds, t.last.value, t.limits, k), p, Midway(s.transfers, i, None, k, p))
  {
    var t := s.transfers[i];
    if k == 0 {
      assert Holds(s.speeds, p, Total(s.transfers, p));
    } else {
      ClearMidway(s, i, k - 1, p);
      MidwayStep(s.transfers, i, None, k - 1, p);
      if t.limits[k - 1] == p {
        MidwayIsEnough(s.transfers, i, None, k - 1);
      }
    }
  }

  lemma ClearIsSafe(s: State, i: nat)
    requires Inv(s) && i < |s.transfers| && s.transfers[i].last.Some?
    ensures ClearSafe(s.speeds, s.transfers[i].last.value, s.transfers[i].limits)
  {
    var t := s.transfers[i];
    forall k | 0 <= k < |t.limits|
      ensures ClearOneSafe(Clear(s.speeds, t.last.value, t.limits, k), t.last.value, t.limits[k])
    {
      ClearMidway(s, i, k, t.limits[k]);
      MidwayIsEnough(s.transfers, i, None, k);
    }
  }

  // ----- Every run -----

  lemma BeginKeepsInv(s: State, t: Transfer)
    requires Inv(s) && t.last.None?
    ensures Inv(s.(transfers := s.transfers + [t]))
  {
    var transfers := s.transfers + [t];
    forall p: string
      ensures Holds(s.speeds, p, Total(transfers, p))
    {
      TotalOfPrefix(s.transfers, transfers, |s.transfers|, p);
      NothingReported(t.limits, |t.limits|, p);
      assert Total(transfers, p) == Sum(Total(s.transfers, p), ZERO);
      assert Holds(s.speeds, p, Total(s.transfers, p));
    }
  }

  lemma ApplyKeepsInv(s: State, i: nat, current: SpeedInfo)
    requires Inv(s) && i < |s.transfers| && s.transfers[i].live && NonNegative(current)
    ensures var t := s.transfers[i];
            Inv(State(Update(s.speeds, t.last, current, t.limits, |t.limits|), s.transfers[i := t.(last := Some(current))]))
  {
    var t := s.transfers[i];
    var n, transfers := |t.limits|, s.transfers[i := t.(last := Some(current))];
    forall p: string
      ensures Holds(Update(s.speeds, t.last, current, t.limits, n), p, Total(transfers, p))
    {
      UpdateMidway(s, i, current, n, p);
      TotalUpdate(s.transfers, |s.transfers|, i, t.(last := Some(current)), p);
    }
  }

  lemma EndKeepsInv(s: State, i: nat)
    requires Inv(s) && i < |s.transfers|
    ensures var t := s.transfers[i];
            Inv(State(if t.last.Some? then Clear(s.speeds, t.last.value, t.limits, |t.limits|) else s.speeds,
                      s.transfers[i := t.(last := None, live := false)]))
  {
    var t := s.transfers[i];
    var n, transfers := |t.limits|, s.transfers[i := t.(last := None, live := false)];
    forall p: string
      ensures Holds(if t.last.Some? then Clear(s.speeds, t.last.value, t.limits, n) else s.speeds, p, Total(transfers, p))
    {
      TotalUpdate(s.transfers, |s.transfers|, i, t.(last := None, live := false), p);
      if t.last.Some? {
        ClearMidway(s, i, n, p);
      } else {
        NothingReported(t.limits, n, p);
        assert Holds(s.speeds, p, Total(s.transfers, p));
      }
    }
  }

  lemma StepKeepsInv(s: State, step: Step)
    requires Inv(s) && Next(s, step).Some?
    ensures StepSafe(s, step) && Inv(Next(s, step).value)
  {
    match step {
      case Begin(limits, ownLimit) =>
        BeginKeepsInv(s, Transfer(limits, ownLimit, None, true));
      case Apply(i, current) =>
        assert s.transfers[i := s.transfers[i]] == s.transfers;
        UpdateIsSafe(s, i, current);
        ApplyKeepsInv(s, i, current);
      case End(i) =>
        EndKeepsInv(s, i);
        if s.transfers[i].last.Some? {
          ClearIsSafe(s, i);
        }
    }
  }

  function Run(s: State, steps: seq<Step>): Option<State>
    decreases |steps|
  {
    if steps == [] then Some(s)
    else
      match Next(s, steps[0])
      case None => None
      case Some(t) => Run(t, steps[1..])
  }

  lemma {:induction false} RunKeepsInv(s: State, steps: seq<Step>)
    requires Inv(s) && Run(s, steps).Some?
    ensures Inv(Run(s, steps).value)
    decreases |steps|
  {
    if steps != [] {
      StepKeepsInv(s, steps[0]);
      RunKeepsInv(Next(s, steps[0]).value, steps[1..]);
    }
  }

  lemma {:induction false} NoneLiveNoneLeft(s: State)
    requires Inv(s) && forall i | 0 <= i < |s.transfers| :: !s.transfers[i].live
    ensures s.speeds == map[]
  {
    forall p: string
      ensures p !in s.speeds
    {
      EndedTotal(s.transfers, |s.transfers|, p);
      assert Holds(s.speeds, p, Total(s.transfers, p));
    }
  }

  lemma {:induction false} EndedTotal(transfers: seq<Transfer>, n: nat, p: string)
    requires n <= |transfers| && forall i | 0 <= i < n :: transfers[i].last.None?
    ensures TotalOf(transfers, n, p) == ZERO
  {
    if n > 0 {
      EndedTotal(transfers, n - 1, p);
      NothingReported(transfers[n - 1].limits, |transfers[n - 1].limits|, p);
    }
  }
}
