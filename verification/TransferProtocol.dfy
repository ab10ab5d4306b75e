/** Simultaneous transfers: `Start`, then exactly one `Stop` from the scope guard of src/cmd/rfc/retr.cpp. */
module TransferProtocol {
  import opened Wrappers
  import opened Counters

  // Each call of the counter is one step, since it holds the counter's mutex throughout.

  datatype Transfer = Transfer(uid: int, exempt: bool, active: bool)

  datatype State = State(counts: Counts, transfers: seq<Transfer>)

  /** A transfer starts, or the guard of the `i`-th admitted one runs. */
  datatype Step = Start(uid: int, exempt: bool) | Guard(i: nat)

  /** Fixed limits: one per user, -1 for none, and the one on the server, -1 for none. */
  datatype Limits = Limits(personal: int -> int, maxGlobal: int)

  function Next(s: State, step: Step, limits: Limits): Option<State> {
    match step
    case Start(uid, exempt) =>
      if TransferResult(s.counts, uid, limits.personal(uid), exempt, limits.maxGlobal).Okay?
      then Some(State(Add(s.counts, uid, 1), s.transfers + [Transfer(uid, exempt, true)]))
      else Some(State(Touched(s.counts, uid), s.transfers))
    case Guard(i) =>
      if i < |s.transfers| && s.transfers[i].active
      then Some(State(Add(s.counts, s.transfers[i].uid, -1), s.transfers[i := s.transfers[i].(active := false)]))
      else None
  }

  datatype Who = Everyone | User(uid: int) | NonExempt

  predicate Counted(t: Transfer, who: Who) {
    t.active && (who.User? ==> t.uid == who.uid) && (who.NonExempt? ==> !t.exempt)
  }

  function Active(transfers: seq<Transfer>, who: Who): nat {
    if transfers == [] then 0
    else
      Active(transfers[..|transfers| - 1], who)
      + (if Counted(transfers[|transfers| - 1], who) then 1 else 0)
  }

  lemma ActiveAppend(transfers: seq<Transfer>, t: Transfer, who: Who)
    ensures Active(transfers + [t], who) == Active(transfers, who) + (if Counted(t, who) then 1 else 0)
  {
    assert (transfers + [t])[..|transfers|] == transfers;
  }

  lemma {:induction false} ActiveStop(transfers: seq<Transfer>, i: nat, who: Who)
    requires i < |transfers| && transfers[i].active
    ensures Active(transfers[i := transfers[i].(active := false)], who) ==
            Active(transfers, who) - (if Counted(transfers[i], who) then 1 else 0)
  {
    var n := |transfers| - 1;
    var t := transfers[i].(active := false);
    if i < n {
      ActiveStop(transfers[..n], i, who);
      assert transfers[i := t][..n] == transfers[..n][i := t];
    } else {
      assert transfers[i := t][..n] == transfers[..n];
    }
  }

  lemma {:induction false} NonExemptAtMostAll(transfers: seq<Transfer>)
    ensures Active(transfers, NonExempt) <= Active(transfers, Everyone)
  {
    if transfers != [] {
      NonExemptAtMostAll(transfers[..|transfers| - 1]);
    }
  }

  function AtLeastZero(n: int): nat {
    if n < 0 then 0 else n
  }

  ghost predicate Inv(s: State, limits: Limits) {
    && Balanced(s.counts)
    && s.counts.global == Active(s.transfers, Everyone)
    && (forall u :: Get(s.counts, u) == Active(s.transfers, User(u)))
    && (forall u | limits.personal(u) != -1 :: Get(s.counts, u) <= AtLeastZero(limits.personal(u)))
    && (limits.maxGlobal != -1 ==> Active(s.transfers, NonExempt) <= AtLeastZero(limits.maxGlobal))
  }

  lemma RefusalKeepsInv(s: State, uid: int, limits: Limits)
    requires Inv(s, limits)
    ensures Inv(s.(counts := Touched(s.counts, uid)), limits)
  {
    SumUpdate(s.counts, uid, 0);
    assert forall u :: Get(Touched(s.counts, uid), u) == Get(s.counts, u);
  }

  lemma AdmissionKeepsInv(s: State, uid: int, exempt: bool, limits: Limits)
    requires Inv(s, limits)
    requires TransferResult(s.counts, uid, limits.personal(uid), exempt, limits.maxGlobal).Okay?
    ensures Inv(State(Add(s.counts, uid, 1), s.transfers + [Transfer(uid, exempt, true)]), limits)
  {
    var t := Transfer(uid, exempt, true);
    var after := State(Add(s.counts, uid, 1), s.transfers + [t]);
    SumUpdate(s.counts, uid, 1);
    ActiveAppend(s.transfers, t, Everyone);
    ActiveAppend(s.transfers, t, NonExempt);
    NonExemptAtMostAll(s.transfers);
    forall u
      ensures Get(after.counts, u) == Active(after.transfers, User(u))
    {
      ActiveAppend(s.transfers, t, User(u));
    }
  }

  lemma StartKeepsInv(s: State, uid: int, exempt: bool, limits: Limits)
    requires Inv(s, limits)
    ensures Inv(Next(s, Start(uid, exempt), limits).value, limits)
  {
    if TransferResult(s.counts, uid, limits.personal(uid), exempt, limits.maxGlobal).Okay? {
      AdmissionKeepsInv(s, uid, exempt, limits);
    } else {
      RefusalKeepsInv(s, uid, limits);
    }
  }

  /** The guard stops a counter that is positive, so neither assert of `Stop` fires. */
  lemma GuardKeepsInv(s: State, i: nat, limits: Limits)
    requires Inv(s, limits) && i < |s.transfers| && s.transfers[i].active
    ensures Inv(Next(s, Guard(i), limits).value, limits)
    ensures Get(s.counts, s.transfers[i].uid) > 0 && s.counts.global > 0
  {
    var t := s.transfers[i];
    SumUpdate(s.counts, t.uid, -1);
    ActiveStop(s.transfers, i, Everyone);
    ActiveStop(s.transfers, i, NonExempt);
    forall u
      ensures Active(s.transfers[i := t.(active := false)], User(u)) ==
              Active(s.transfers, User(u)) - (if u == t.uid then 1 else 0)
    {
      ActiveStop(s.transfers, i, User(u));
    }
  }

  function Run(s: State, steps: seq<Step>, limits: Limits): Option<State>
    decreases |steps|
  {
    if steps == [] then Some(s)
    else
      match Next(s, steps[0], limits)
      case None => None
      case Some(t) => Run(t, steps[1..], limits)
  }

  lemma {:induction false} RunKeepsInv(s: State, steps: seq<Step>, limits: Limits)
    requires Inv(s, limits) && Run(s, steps, limits).Some?
    ensures Inv(Run(s, steps, limits).value, limits)
    decreases |steps|
  {
    if steps != [] {
      match steps[0] {
        case Start(uid, exempt) => StartKeepsInv(s, uid, exempt, limits);
        case Guard(i) => GuardKeepsInv(s, i, limits);
      }
      RunKeepsInv(Next(s, steps[0], limits).value, steps[1..], limits);
    }
  }

  /** After any interleaving: the total is the sum of the personal counts and counts the active
      transfers, no user is over a limit, and the transfers of users who are not exempt
      never exceed the server's maximum. */
  lemma EveryRun(steps: seq<Step>, limits: Limits)
    requires Run(State(EMPTY, []), steps, limits).Some?
    ensures var t := Run(State(EMPTY, []), steps, limits).value;
            && t.counts.global == Sum(t.counts.personal) == Active(t.transfers, Everyone)
            && (forall u | limits.personal(u) != -1 ::
                  Active(t.transfers, User(u)) <= AtLeastZero(limits.personal(u)))
            && (limits.maxGlobal != -1 ==> Active(t.transfers, NonExempt) <= AtLeastZero(limits.maxGlobal))
  {
    RunKeepsInv(State(EMPTY, []), steps, limits);
  }

  /** After any interleaving a transfer is refused because of the user's own limit exactly if as many transfers of
      this user are active as it allows, and otherwise because of the server's maximum exactly if the user is not
      exempt and as many transfers are active as that allows. Only admitted ones become active. */
  lemma Admission(steps: seq<Step>, uid: int, exempt: bool, limits: Limits)
    requires Run(State(EMPTY, []), steps, limits).Some?
    ensures var s := Run(State(EMPTY, []), steps, limits).value;
            var limit := limits.personal(uid);
            var own := limit != -1 && Active(s.transfers, User(uid)) >= limit;
            var all := !exempt && limits.maxGlobal != -1 && Active(s.transfers, Everyone) >= limits.maxGlobal;
            var result := TransferResult(s.counts, uid, limit, exempt, limits.maxGlobal);
            && (result.PersonalFail? <==> own) && (result.GlobalFail? <==> !own && all)
            && Next(s, Start(uid, exempt), limits).value.transfers ==
               s.transfers + if own || all then [] else [Transfer(uid, exempt, true)]
  {
    RunKeepsInv(State(EMPTY, []), steps, limits);
  }

  lemma {:induction false} RunOneMore(s: State, steps: seq<Step>, step: Step, limits: Limits)
    requires Run(s, steps, limits).Some?
    ensures Run(s, steps + [step], limits) == Next(Run(s, steps, limits).value, step, limits)
    decreases |steps|
  {
    if steps == [] {
      assert steps + [step] == [step] && [step][1..] == [];
    } else {
      assert (steps + [step])[1..] == steps[1..] + [step];
      RunOneMore(Next(s, steps[0], limits).value, steps[1..], step, limits);
    }
  }

  /** Transfers of one user, as many as the limits allow. */
  lemma {:induction false} StartTimes(uid: int, exempt: bool, n: nat, limits: Limits) returns (steps: seq<Step>)
    requires limits.personal(uid) == -1 || n <= limits.personal(uid) || n == 0
    requires exempt || limits.maxGlobal == -1 || n <= limits.maxGlobal || n == 0
    ensures Run(State(EMPTY, []), steps, limits).Some?
    ensures var s := Run(State(EMPTY, []), steps, limits).value;
            Active(s.transfers, User(uid)) == Active(s.transfers, Everyone) == n &&
            Active(s.transfers, NonExempt) == if exempt then 0 else n
  {
    if n == 0 {
      steps := [];
    } else {
      steps := StartTimes(uid, exempt, n - 1, limits);
      var s := Run(State(EMPTY, []), steps, limits).value;
      Admission(steps, uid, exempt, limits);
      RunOneMore(State(EMPTY, []), steps, Start(uid, exempt), limits);
      var t := Transfer(uid, exempt, true);
      ActiveAppend(s.transfers, t, User(uid));
      ActiveAppend(s.transfers, t, Everyone);
      ActiveAppend(s.transfers, t, NonExempt);
      steps := steps + [Start(uid, exempt)];
    }
  }

  ghost predicate Reaches(limits: Limits, who: Who, n: nat) {
    exists steps: seq<Step> ::
      Run(State(EMPTY, []), steps, limits).Some? && Active(Run(State(EMPTY, []), steps, limits).value.transfers, who) == n
  }

  /** A user's limit is exactly the largest number of transfers the user has in some run. */
  lemma PersonalLimitIsReached(limits: Limits, uid: int, n: nat)
    ensures Reaches(limits, User(uid), n) <==> limits.personal(uid) == -1 || n <= AtLeastZero(limits.personal(uid))
  {
    if limits.personal(uid) == -1 || n <= AtLeastZero(limits.personal(uid)) {
      var steps := StartTimes(uid, true, n, limits);
    }
    forall steps: seq<Step> | Run(State(EMPTY, []), steps, limits).Some?
      ensures limits.personal(uid) != -1 ==>
                Active(Run(State(EMPTY, []), steps, limits).value.transfers, User(uid)) <= AtLeastZero(limits.personal(uid))
    {
      EveryRun(steps, limits);
    }
  }

  /** The server's maximum is exactly the largest number of transfers that are not exempt, as long as somebody's own
      limit does not come first. */
  lemma MaximumIsReached(limits: Limits, uid: int, n: nat)
    requires limits.personal(uid) == -1 || n <= limits.personal(uid)
    ensures Reaches(limits, NonExempt, n) <==> limits.maxGlobal == -1 || n <= AtLeastZero(limits.maxGlobal)
  {
    if limits.maxGlobal == -1 || n <= AtLeastZero(limits.maxGlobal) {
      var steps := StartTimes(uid, false, n, limits);
    }
    forall steps: seq<Step> | Run(State(EMPTY, []), steps, limits).Some?
      ensures limits.maxGlobal != -1 ==>
                Active(Run(State(EMPTY, []), steps, limits).value.transfers, NonExempt) <= AtLeastZero(limits.maxGlobal)
    {
      EveryRun(steps, limits);
    }
  }

  /** Exempt transfers may push the total past the maximum. */
  lemma ExemptExceedMaximum()
    ensures var limits := Limits(u => -1, 1);
            var steps := [Start(1, false), Start(2, true)];
            var t := Run(State(EMPTY, []), steps, limits);
            t.Some? && t.value.counts.global > limits.maxGlobal
  {
    var limits := Limits(u => -1, 1);
    var steps := [Start(1, false), Start(2, true)];
    assert steps[1..] == [Start(2, true)];
    assert steps[1..][1..] == [];
  }
}
