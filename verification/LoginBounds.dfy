/** Which bounds on the number of logins hold in every run of the login protocol, and which are reached. */
module LoginBounds {
  import opened Sequences
  import opened Wrappers
  import opened Counters
  import opened LoginProtocol

  // ----- Runs that log in -----

  /** A client whose password has just been accepted, and one that is logged in. */
  function Entered(uid: int, kick: bool): Client {
    Client(WaitingPassword, false, uid, kick, InPass, 0, 0, 0, 0)
  }

  function HasLoggedIn(uid: int): Client {
    Client(LoggedIn, true, uid, false, Ready, 0, 0, 1, 0)
  }

  /** The run `steps` leads to `s`. */
  ghost predicate Leads(steps: seq<(nat, Act)>, s: State, limits: int -> int) {
    Run(Init(), steps, limits) == Some(s)
  }

  lemma Enter(steps: seq<(nat, Act)>, s: State, uid: int, kick: bool, limits: int -> int)
      returns (more: seq<(nat, Act)>, t: State)
    requires Leads(steps, s, limits)
    ensures Leads(more, t, limits) && t == s.(clients := s.clients + [Entered(uid, kick)])
  {
    var i := |s.clients|;
    Extend(Init(), steps, i, Arrive, limits);
    more := steps + [(i, Arrive)];
    Extend(Init(), more, i, CheckUser, limits);
    more := more + [(i, CheckUser)];
    Extend(Init(), more, i, SetWaitingPassword(uid, kick), limits);
    more := more + [(i, SetWaitingPassword(uid, kick))];
    Extend(Init(), more, i, CheckPass, limits);
    more := more + [(i, CheckPass)];
    t := Run(Init(), more, limits).value;
  }

  /** A new client comes and logs in, without a kick. */
  lemma LogIn(steps: seq<(nat, Act)>, s: State, uid: int, limits: int -> int)
      returns (more: seq<(nat, Act)>, t: State)
    requires Leads(steps, s, limits) && LoginAllowed(s.counts, uid, limits(uid), false)
    ensures Leads(more, t, limits)
    ensures t == s.(counts := Add(s.counts, uid, 1), clients := s.clients + [HasLoggedIn(uid)])
  {
    var i := |s.clients|;
    more, t := Enter(steps, s, uid, false, limits);
    more, t := Admitted(more, t, i, uid, limits);
    assert t.clients == s.clients + [HasLoggedIn(uid)];
  }

  lemma Admitted(steps: seq<(nat, Act)>, s: State, i: nat, uid: int, limits: int -> int)
      returns (more: seq<(nat, Act)>, t: State)
    requires Leads(steps, s, limits) && LoginAllowed(s.counts, uid, limits(uid), false)
    requires i < |s.clients| && s.clients[i] == Entered(uid, false)
    ensures Leads(more, t, limits)
    ensures t == s.(counts := Add(s.counts, uid, 1), clients := s.clients[i := HasLoggedIn(uid)])
  {
    Extend(Init(), steps, i, AskForKick, limits);
    more := steps + [(i, AskForKick)];
    Extend(Init(), more, i, StartLogin, limits);
    more := more + [(i, StartLogin)];
    t := Run(Init(), more, limits).value;
    more, t := Settled(more, t, i, uid, limits);
  }

  lemma Settled(steps: seq<(nat, Act)>, s: State, i: nat, uid: int, limits: int -> int)
      returns (more: seq<(nat, Act)>, t: State)
    requires Leads(steps, s, limits) && i < |s.clients|
    requires s.clients[i] == Entered(uid, false).(pc := Started, starts := 1)
    ensures Leads(more, t, limits) && t == s.(clients := s.clients[i := HasLoggedIn(uid)])
  {
    Extend(Init(), steps, i, SetGuard, limits);
    more := steps + [(i, SetGuard)];
    Extend(Init(), more, i, SetLoggedIn, limits);
    more := more + [(i, SetLoggedIn)];
    t := Run(Init(), more, limits).value;
  }

  /** The counts differ by `n` logins of one user. */
  ghost predicate CountedOn(c: Counts, d: Counts, uid: int, n: int) {
    && d.global == c.global + n && Get(d, uid) == Get(c, uid) + n
    && forall u | u != uid :: Get(d, u) == Get(c, u)
  }

  lemma {:induction false} LogInTimes(steps: seq<(nat, Act)>, s: State, uid: int, n: nat, limits: int -> int)
      returns (more: seq<(nat, Act)>, t: State)
    requires Leads(steps, s, limits)
    requires limits(uid) == -1 || Get(s.counts, uid) + n <= limits(uid)
    ensures Leads(more, t, limits) && CountedOn(s.counts, t.counts, uid, n)
    ensures s.clients <= t.clients
    ensures n > 0 ==> |s.clients| < |t.clients| && t.clients[|s.clients|] == HasLoggedIn(uid)
    decreases n
  {
    if n == 0 {
      more, t := steps, s;
    } else {
      var u;
      more, u := LogIn(steps, s, uid, limits);
      more, t := LogInTimes(more, u, uid, n - 1, limits);
      assert u.clients[|s.clients|] == HasLoggedIn(uid);
    }
  }

  // ----- A kick -----

  /** Client `i` kicks client `j`, which is logged out before the kick is over. */
  lemma Kick(steps: seq<(nat, Act)>, s: State, i: nat, j: nat, uid: int, limits: int -> int)
      returns (more: seq<(nat, Act)>, t: State)
    requires Leads(steps, s, limits) && i < |s.clients| && j < |s.clients|
    requires s.clients[i] == Entered(uid, true) && s.clients[j] == HasLoggedIn(uid)
    requires AllUsed(s.counts, uid, limits(uid))
    ensures Leads(more, t, limits) && CountedOn(s.counts, t.counts, uid, -1)
    ensures i < |t.clients| && t.clients[i] == Entered(uid, true).(pc := Decided(true))
  {
    more, t := Interrupted(steps, s, i, j, uid, limits);
    Extend(Init(), more, j, Stop, limits);
    more := more + [(j, Stop)];
    Extend(Init(), more, j, ClearGuard, limits);
    more := more + [(j, ClearGuard)];
    Extend(Init(), more, i, KickDone, limits);
    more := more + [(i, KickDone)];
    t := Run(Init(), more, limits).value;
  }

  lemma Interrupted(steps: seq<(nat, Act)>, s: State, i: nat, j: nat, uid: int, limits: int -> int)
      returns (more: seq<(nat, Act)>, t: State)
    requires Leads(steps, s, limits) && i < |s.clients| && j < |s.clients|
    requires s.clients[i] == Entered(uid, true) && s.clients[j] == HasLoggedIn(uid)
    requires AllUsed(s.counts, uid, limits(uid))
    ensures Leads(more, t, limits) && CountedOn(s.counts, t.counts, uid, 0) && i < |t.clients| && j < |t.clients|
    ensures t.clients[i] == Entered(uid, true).(pc := LoggingOut(j)) && t.clients[j] == Finish(HasLoggedIn(uid))
  {
    Extend(Init(), steps, i, AskForKick, limits);
    more := steps + [(i, AskForKick)];
    Extend(Init(), more, i, See(j), limits);
    more := more + [(i, See(j))];
    Extend(Init(), more, i, Interrupt, limits);
    more := more + [(i, Interrupt)];
    t := Run(Init(), more, limits).value;
  }

  // ----- One user -----

  /** All logins are used; one of them is kicked, somebody else takes its place, and then the one who asked for the
      kick logs in as well. */
  lemma OverLimit(steps: seq<(nat, Act)>, s: State, uid: int, limits: int -> int)
      returns (more: seq<(nat, Act)>, t: State)
    requires Leads(steps, s, limits) && limits(uid) > 0 && Get(s.counts, uid) == 0
    ensures Leads(more, t, limits) && CountedOn(s.counts, t.counts, uid, limits(uid) + 1)
  {
    var j := |s.clients|;
    more, t := LogInTimes(steps, s, uid, limits(uid), limits);
    var i := |t.clients|;
    more, t := Enter(more, t, uid, true, limits);
    more, t := Kick(more, t, i, j, uid, limits);
    more, t := LogIn(more, t, uid, limits);
    Extend(Init(), more, i, StartLogin, limits);
    more := more + [(i, StartLogin)];
    t := Run(Init(), more, limits).value;
  }

  /** A user who may log in at all can exceed the limit, by the one login of somebody who kicked. */
  lemma KickExceedsLimit(limits: int -> int, uid: int)
    requires limits(uid) > 0
    ensures exists steps: seq<(nat, Act)> ::
              Run(Init(), steps, limits).Some? && Get(Run(Init(), steps, limits).value.counts, uid) == limits(uid) + 1
  {
    var steps, t := OverLimit([], Init(), uid, limits);
  }

  /** A user with limit 0 never has a login, kick or no kick: there is nobody to kick. */
  lemma DisallowedStaysOut(limits: int -> int, uid: int, steps: seq<(nat, Act)>)
    requires limits(uid) <= 0 && limits(uid) != -1 && Run(Init(), steps, limits).Some?
    ensures var t := Run(Init(), steps, limits).value;
            Get(t.counts, uid) == 0 && forall i | 0 <= i < |t.clients| && t.clients[i].uid == uid :: !Holds(t.clients[i])
  {
    RunKeepsInv(Init(), steps, limits);
    var t := Run(Init(), steps, limits).value;
    assert Held(t.clients, Some(uid)) == 0;
    forall i | 0 <= i < |t.clients| && t.clients[i].uid == uid
      ensures !Holds(t.clients[i])
    {
      if Holds(t.clients[i]) {
        HeldWitness(t.clients, i, Some(uid));
      }
    }
  }

  // ----- All users -----

  function Total(limits: int -> int, users: seq<int>): nat {
    if users == [] then 0
    else Total(limits, users[..|users| - 1]) + Most(limits(users[|users| - 1]), true)
  }

  /** Everybody has a limit, and all limits, those above 0 with the login a kick adds, stay within `most`
      together. */
  ghost predicate Implied(limits: int -> int, most: int) {
    (forall u :: limits(u) != -1) && forall users :: Distinct(users) ==> Total(limits, users) <= most
  }

  ghost predicate NeverAbove(limits: int -> int, most: int) {
    forall steps: seq<(nat, Act)> :: Run(Init(), steps, limits).Some? ==> Run(Init(), steps, limits).value.counts.global <= most
  }

  /** The test against a maximum of users has no effect: a user without a limit can exceed any. */
  lemma NoMaximum(limits: int -> int, uid: int, most: nat)
    requires limits(uid) == -1
    ensures !NeverAbove(limits, most)
  {
    var steps, t := LogInTimes([], Init(), uid, most + 1, limits);
    assert Run(Init(), steps, limits).value.counts.global > most;
  }

  /** All users take up all their logins, and one more each. */
  lemma {:induction false} LogInAll(limits: int -> int, users: seq<int>)
      returns (steps: seq<(nat, Act)>, t: State)
    requires Distinct(users) && forall u :: limits(u) != -1
    ensures Leads(steps, t, limits) && t.counts.global == Total(limits, users)
    ensures forall u | u !in users :: Get(t.counts, u) == 0
  {
    if users == [] {
      steps, t := [], Init();
    } else {
      var front, uid := users[..|users| - 1], users[|users| - 1];
      steps, t := LogInAll(limits, front);
      assert uid !in front;
      if limits(uid) > 0 {
        steps, t := OverLimit(steps, t, uid, limits);
      }
      assert users == front + [uid];
    }
  }

  lemma {:induction false} SumWithin(m: map<int, int>, limits: int -> int) returns (users: seq<int>)
    requires forall u | u in m :: m[u] <= Most(limits(u), true)
    ensures Distinct(users) && (forall u :: u in users <==> u in m) && Sum(m) <= Total(limits, users)
    decreases |m|
  {
    if m == map[] {
      users := [];
    } else {
      var uid := SomeKey(m);
      var rest := SumWithin(m - {uid}, limits);
      users := rest + [uid];
      assert users[..|rest|] == rest;
    }
  }

  /** No run ever has more than `most` logins if and only if the users' own limits imply it. */
  lemma OnlyPersonalLimits(limits: int -> int, most: int)
    ensures NeverAbove(limits, most) <==> Implied(limits, most)
  {
    if Implied(limits, most) {
      forall steps: seq<(nat, Act)> | Run(Init(), steps, limits).Some?
        ensures Run(Init(), steps, limits).value.counts.global <= most
      {
        var counts := Run(Init(), steps, limits).value.counts;
        EveryRun(steps, limits);
        forall u | u in counts.personal
          ensures counts.personal[u] <= Most(limits(u), true)
        {
          assert limits(u) != -1 && Get(counts, u) == counts.personal[u];
        }
        var users := SumWithin(counts.personal, limits);
      }
    } else if u :| limits(u) == -1 {
      NoMaximum(limits, u, if most < 0 then 0 else most);
      assert NeverAbove(limits, most) ==> NeverAbove(limits, if most < 0 then 0 else most);
    } else {
      var users :| Distinct(users) && Total(limits, users) > most;
      var steps, t := LogInAll(limits, users);
      assert Run(Init(), steps, limits).value.counts.global > most;
    }
  }
}
