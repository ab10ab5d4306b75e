/** Logging in and out of src/ftp/clientimpl.cpp and src/cmd/rfc/pass.cpp, with any number of clients. */
module LoginProtocol {
  import opened Wrappers
  import opened Counters

  // `SetState(Finished)` may come from any thread. Each critical section is one step, and so is
  // each statement that other threads can see.

  datatype ClientState = LoggedOut | WaitingPassword | LoggedIn | Finished

  /** Where the client's own thread is. While it waits for a kick, the server's thread acts for it. */
  datatype Pc =
    | Ready                       // between commands
    | InUser                      // USER, past the check that nobody is logged in
    | InPass                      // PASS, past the check that a password is expected
    | Kicking                     // all logins were used: the server looks for one to kick
    | Seen(victim: nat)           // it found a client logged in, and is about to interrupt it
    | LoggingOut(victim: nat)     // it still found it logged in, and has to log it out first
    | Decided(kicked: bool)       // about to call `Start`
    | Started                     // `Start` returned Okay, `loggedIn` is not set yet
    | Guarded                     // `loggedIn` is set, the state is not yet LoggedIn
    | Exited                      // past `SetState(Finished)` at the end of `Run`
    | Destroyed

  /** `stopping` threads have decided to log out and not called `Stop` yet; `clearing` ones
      have, and not cleared `loggedIn` yet. `starts` and `stops` count the calls made. */
  datatype Client = Client(
    state: ClientState, loggedIn: bool, uid: int, kickLogin: bool, pc: Pc,
    stopping: nat, clearing: nat, starts: nat, stops: nat)

  datatype State = State(counts: Counts, clients: seq<Client>, kicks: set<int>)

  datatype Act =
    | Arrive
    | CheckUser | SetWaitingPassword(uid: int, kickLogin: bool)
    | CheckPass | PassFails
    | AskForKick             // nothing but the call of `LoginsUsed`, and that only if a kick was asked for
    | SeeNobody | See(victim: nat) | Interrupt | KickDone
    | StartLogin | SetGuard | SetLoggedIn
    | SetFinished            // from any thread, the client's own one included
    | Stop | ClearGuard      // the two halves of `Logout`
    | Exit | Destroy

  const NEW_CLIENT := Client(LoggedOut, false, -1, false, Ready, 0, 0, 0, 0)

  /** `SetState(Finished)`: whoever finds the client logged in has to log it out. */
  function Finish(c: Client): Client {
    c.(state := Finished, stopping := if c.state.LoggedIn? then c.stopping + 1 else c.stopping)
  }

  /** What a step does to the client it is about; `answer` is what the counter would say. */
  function ClientNext(c: Client, act: Act, answer: bool): Option<Client> {
    match act
    case Arrive => None
    case CheckUser => if c.pc.Ready? && c.state.LoggedOut? then Some(c.(pc := InUser)) else None
    case SetWaitingPassword(uid, kick) =>
      if c.pc.InUser? then Some(c.(state := WaitingPassword, uid := uid, kickLogin := kick, pc := Ready)) else None
    case CheckPass => if c.pc.Ready? && c.state.WaitingPassword? then Some(c.(pc := InPass)) else None
    case PassFails => if c.pc.InPass? then Some(c.(state := LoggedOut, pc := Ready)) else None
    case AskForKick =>
      if c.pc.InPass? then Some(c.(pc := if c.kickLogin && answer then Kicking else Decided(false))) else None
    case SeeNobody => if c.pc.Kicking? then Some(c.(pc := Decided(false))) else None
    case See(victim) => if c.pc.Kicking? then Some(c.(pc := Seen(victim))) else None
    case Interrupt =>
      if c.pc.Seen? then Some(c.(pc := if answer then LoggingOut(c.pc.victim) else Decided(true))) else None
    case KickDone => if c.pc.LoggingOut? then Some(c.(pc := Decided(true))) else None
    case StartLogin =>
      if !c.pc.Decided? then None
      else if answer then Some(c.(pc := Started, starts := c.starts + 1))
      else Some(Finish(c).(pc := Ready))
    case SetGuard => if c.pc.Started? then Some(c.(loggedIn := true, pc := Guarded)) else None
    case SetLoggedIn => if c.pc.Guarded? then Some(c.(state := LoggedIn, pc := Ready)) else None
    case SetFinished => if c.pc.Destroyed? then None else Some(Finish(c))
    case Stop =>
      if c.stopping > 0 then Some(c.(stopping := c.stopping - 1, clearing := c.clearing + 1, stops := c.stops + 1))
      else None
    case ClearGuard =>
      if c.clearing > 0 then Some(c.(clearing := c.clearing - 1, loggedIn := false)) else None
    case Exit =>
      if c.pc.Ready? || c.pc.InUser? || c.pc.InPass? || c.pc.Guarded? then Some(Finish(c).(pc := Exited)) else None
    case Destroy =>
      if c.pc.Exited? && c.stopping == 0 && c.clearing == 0
      then Some(c.(pc := Destroyed, loggedIn := false, stops := if c.loggedIn then c.stops + 1 else c.stops))
      else None
  }

  predicate Stops(c: Client, act: Act) {
    act.Stop? || (act.Destroy? && c.loggedIn)
  }

  /** What the counter says, or, for an interruption, whether the victim is still logged in. */
  function Answer(s: State, i: nat, act: Act, limits: int -> int): bool
    requires i < |s.clients|
  {
    var c := s.clients[i];
    match act
    case AskForKick => AllUsed(s.counts, c.uid, limits(c.uid))
    case StartLogin => c.pc.Decided? && LoginAllowed(s.counts, c.uid, limits(c.uid), c.pc.kicked)
    case Interrupt => c.pc.Seen? && c.pc.victim < |s.clients| && s.clients[c.pc.victim].state.LoggedIn?
    case _ => false
  }

  /** What a step on behalf of a kick needs of the victim. The search looks at one client after the other, so
      that it may also miss one; what the server logs out itself it has logged out when it is done. */
  predicate VictimAllows(s: State, i: nat, act: Act)
    requires i < |s.clients|
  {
    var c := s.clients[i];
    match act
    case See(j) => j < |s.clients| && s.clients[j].state.LoggedIn? && s.clients[j].uid == c.uid
    case Interrupt => c.pc.Seen? && c.pc.victim < |s.clients| && c.pc.victim != i
    case KickDone =>
      c.pc.LoggingOut? && c.pc.victim < |s.clients| &&
      s.clients[c.pc.victim].stopping == 0 && s.clients[c.pc.victim].clearing == 0
    case _ => true
  }

  function NextCounts(counts: Counts, c: Client, act: Act, answer: bool, limit: int): Counts {
    if act.StartLogin? then (if answer then Add(counts, c.uid, 1) else Touched(counts, c.uid))
    else if act.AskForKick? then (if c.kickLogin && limit != -1 then Touched(counts, c.uid) else counts)
    else if Stops(c, act) then Add(counts, c.uid, -1)
    else counts
  }

  /** An interruption changes the victim before it changes the client that asked for it. */
  function NextClients(clients: seq<Client>, i: nat, act: Act): seq<Client>
    requires i < |clients|
  {
    if act.Interrupt? && clients[i].pc.Seen? && clients[i].pc.victim < |clients|
    then clients[clients[i].pc.victim := Finish(clients[clients[i].pc.victim])] else clients
  }

  /** Limits are fixed per user. */
  function Next(s: State, i: nat, act: Act, limits: int -> int): Option<State> {
    if act.Arrive? then Some(s.(clients := s.clients + [NEW_CLIENT]))
    else if i >= |s.clients| || !VictimAllows(s, i, act) then None
    else
      var c, answer := s.clients[i], Answer(s, i, act, limits);
      match ClientNext(c, act, answer)
      case None => None
      case Some(d) =>
        Some(State(NextCounts(s.counts, c, act, answer, limits(c.uid)),
                   NextClients(s.clients, i, act)[i := d],
                   if c.pc.Seen? && act.Interrupt? then s.kicks + {c.uid} else s.kicks))
  }

  // ----- One client -----

  predicate Holds(c: Client) {
    c.starts > c.stops
  }

  predicate AsksForKick(pc: Pc) {
    pc.Kicking? || pc.Seen? || pc.LoggingOut?
  }

  /** A client logs in at most once, and is logged out at most once: the guard, the state and
      the threads on their way to log it out always agree on which of these is still to come. */
  ghost predicate ClientOk(c: Client) {
    && c.stops <= c.starts <= 1
    && (c.pc.InUser? || c.pc.InPass? || AsksForKick(c.pc) || c.pc.Decided? ==> c.starts == 0)
    && (c.pc.Started? ==> c.starts == 1 && c.stops == 0 && !c.loggedIn)
    && (c.pc.Guarded? ==> c.starts == 1 && c.stops == 0 && c.loggedIn)
    && (c.pc.Started? || c.pc.Guarded? ==> !c.state.LoggedIn? && c.stopping == 0)
    && (c.starts == 0 ==> !c.loggedIn && !c.state.LoggedIn? && c.stopping == 0)
    && (c.starts == 1 && c.pc.Ready? ==> c.state.LoggedIn? || c.state.Finished?)
    && (c.state.LoggedIn? ==> c.pc.Ready? && c.stops == 0 && c.stopping == 0)
    && (c.pc.Ready? && c.starts == 1 && c.stops == 0 && c.state.Finished? ==> c.stopping == 1)
    && (c.stops == 0 && !c.pc.Started? ==> (c.loggedIn <==> c.starts == 1) && c.stopping <= 1 && c.clearing == 0)
    && (c.stops == 0 ==> c.clearing == 0)
    && (c.stops == 1 ==> c.stopping == 0 && c.clearing <= 1 && (c.loggedIn <==> c.clearing == 1))
    && (c.pc.Exited? ==> c.state.Finished?)
    && (c.pc.Destroyed? ==> c.starts == c.stops && c.stopping == 0 && c.clearing == 0)
  }

  lemma ClientKeepsOk(c: Client, act: Act, answer: bool)
    requires ClientOk(c) && ClientNext(c, act, answer).Some?
    ensures var d := ClientNext(c, act, answer).value;
            && ClientOk(d)
            && (Stops(c, act) ==> Holds(c) && !Holds(d))
            && (act.StartLogin? && answer ==> !Holds(c) && Holds(d))
            && (!Stops(c, act) && !(act.StartLogin? && answer) ==> Holds(d) == Holds(c))
            && (d.uid != c.uid ==> !Holds(c) && !Holds(d))
  {
  }

  lemma FinishKeepsOk(c: Client)
    requires ClientOk(c)
    ensures ClientOk(Finish(c)) && Holds(Finish(c)) == Holds(c)
  {
  }

  // ----- All clients -----

  /** How many clients hold a login: all of them, or one user's. */
  predicate HoldsFor(c: Client, who: Option<int>) {
    Holds(c) && (who.Some? ==> c.uid == who.value)
  }

  function Held(clients: seq<Client>, who: Option<int>): nat {
    if clients == [] then 0
    else Held(clients[..|clients| - 1], who) + (if HoldsFor(clients[|clients| - 1], who) then 1 else 0)
  }

  lemma {:induction false} HeldUpdate(clients: seq<Client>, i: nat, d: Client, who: Option<int>)
    requires i < |clients|
    ensures Held(clients[i := d], who) ==
            Held(clients, who) - (if HoldsFor(clients[i], who) then 1 else 0) + (if HoldsFor(d, who) then 1 else 0)
  {
    var n := |clients| - 1;
    if i < n {
      HeldUpdate(clients[..n], i, d, who);
      assert clients[i := d][..n] == clients[..n][i := d];
    } else {
      assert clients[i := d][..n] == clients[..n];
    }
  }

  lemma {:induction false} HeldWitness(clients: seq<Client>, i: nat, who: Option<int>)
    requires i < |clients| && HoldsFor(clients[i], who)
    ensures Held(clients, who) > 0
  {
    if i < |clients| - 1 {
      HeldWitness(clients[..|clients| - 1], i, who);
    }
  }

  /** The counter counts the logins held: in total, as the sum over the users, and per user. */
  ghost predicate Accounted(s: State) {
    && Balanced(s.counts)
    && s.counts.global == Held(s.clients, None)
    && (forall u :: Get(s.counts, u) == Held(s.clients, Some(u)))
  }

  /** The most logins under a limit other than -1. A user who may not log in at all never has a login that
      could be kicked. */
  function Most(limit: int, kicked: bool): nat {
    if limit <= 0 then 0 else limit + (if kicked then 1 else 0)
  }

  /** No user exceeds a limit, except by the one login a kick makes room for in advance. */
  ghost predicate Limited(s: State, limits: int -> int) {
    forall u | limits(u) != -1 :: Held(s.clients, Some(u)) <= Most(limits(u), u in s.kicks)
  }

  /** Only somebody who may log in is kicked, and every kick is remembered. */
  ghost predicate KickOk(c: Client, kicks: set<int>, limit: int) {
    && (c.pc.Seen? || c.pc.LoggingOut? || c.pc == Decided(true) ==> limit == -1 || limit > 0)
    && (c.pc.LoggingOut? || c.pc == Decided(true) ==> c.uid in kicks)
  }

  ghost predicate Inv(s: State, limits: int -> int) {
    && (forall i | 0 <= i < |s.clients| :: ClientOk(s.clients[i]))
    && (forall i | 0 <= i < |s.clients| :: KickOk(s.clients[i], s.kicks, limits(s.clients[i].uid)))
    && Accounted(s)
    && Limited(s, limits)
  }

  function Init(): State {
    State(EMPTY, [], {})
  }

  /** Where a counter is stopped its asserts hold: both counts are positive. */
  lemma StopNeverUnderflows(s: State, i: nat, limits: int -> int)
    requires Inv(s, limits) && i < |s.clients| && Holds(s.clients[i])
    ensures Get(s.counts, s.clients[i].uid) > 0 && s.counts.global > 0
  {
    HeldWitness(s.clients, i, None);
    HeldWitness(s.clients, i, Some(s.clients[i].uid));
  }

  lemma ArriveKeepsInv(s: State, limits: int -> int)
    requires Inv(s, limits)
    ensures Inv(s.(clients := s.clients + [NEW_CLIENT]), limits)
  {
    var t := s.clients + [NEW_CLIENT];
    assert t[..|s.clients|] == s.clients;
    assert forall who :: Held(t, who) == Held(s.clients, who);
  }

  /** The counts follow a client that takes up a login, gives it up, or neither. */
  lemma CountsFollow(s: State, i: nat, d: Client, counts: Counts, n: int)
    requires Accounted(s) && i < |s.clients|
    requires var c := s.clients[i];
             && (n == 0 ==> Holds(d) == Holds(c)) && (n == 1 ==> !Holds(c) && Holds(d)) && (n == -1 ==> Holds(c) && !Holds(d))
             && -1 <= n <= 1 && (d.uid != c.uid ==> !Holds(c) && !Holds(d))
    requires counts == (if n != 0 then Add(s.counts, s.clients[i].uid, n) else s.counts)
             || (n == 0 && counts == Touched(s.counts, s.clients[i].uid))
    ensures Accounted(s.(counts := counts, clients := s.clients[i := d]))
  {
    var uid := s.clients[i].uid;
    SumUpdate(s.counts, uid, n);
    HeldUpdate(s.clients, i, d, None);
    forall u
      ensures Get(counts, u) == Held(s.clients[i := d], Some(u))
    {
      HeldUpdate(s.clients, i, d, Some(u));
    }
  }

  /** Interrupting a client leaves all accounts as they are: only `Stop` changes them. */
  lemma FinishKeepsInv(s: State, j: nat, limits: int -> int)
    requires Inv(s, limits) && j < |s.clients|
    ensures Inv(s.(clients := s.clients[j := Finish(s.clients[j])]), limits)
  {
    var d := Finish(s.clients[j]);
    FinishKeepsOk(s.clients[j]);
    CountsFollow(s, j, d, s.counts, 0);
    forall u
      ensures Held(s.clients[j := d], Some(u)) == Held(s.clients, Some(u))
    {
      HeldUpdate(s.clients, j, d, Some(u));
    }
  }

  /** Whoever has a login to kick may log in. */
  lemma VictimMayLogIn(s: State, j: nat, limits: int -> int)
    requires Inv(s, limits) && j < |s.clients| && s.clients[j].state.LoggedIn?
    ensures var limit := limits(s.clients[j].uid); limit == -1 || limit > 0
  {
    HeldWitness(s.clients, j, Some(s.clients[j].uid));
  }

  /** The step of the client itself, in a state `s` in which its victim has already been interrupted. */
  lemma OwnStepKeepsInv(s: State, i: nat, act: Act, answer: bool, limits: int -> int)
    requires Inv(s, limits) && i < |s.clients| && ClientNext(s.clients[i], act, answer).Some?
    requires var c := s.clients[i];
             && (act.StartLogin? ==> answer == (c.pc.Decided? && LoginAllowed(s.counts, c.uid, limits(c.uid), c.pc.kicked)))
             && (act.See? ==> limits(c.uid) == -1 || limits(c.uid) > 0)
             && (act.Interrupt? ==> c.uid in s.kicks)
    ensures var c := s.clients[i];
            Inv(s.(counts := NextCounts(s.counts, c, act, answer, limits(c.uid)),
                   clients := s.clients[i := ClientNext(c, act, answer).value]), limits)
    ensures Stops(s.clients[i], act) ==> Get(s.counts, s.clients[i].uid) > 0 && s.counts.global > 0
  {
    var c := s.clients[i];
    var d := ClientNext(c, act, answer).value;
    ClientKeepsOk(c, act, answer);
    if Stops(c, act) {
      StopNeverUnderflows(s, i, limits);
    }
    CountsFollow(s, i, d, NextCounts(s.counts, c, act, answer, limits(c.uid)),
                 if Stops(c, act) then -1 else if act.StartLogin? && answer then 1 else 0);
    OwnStepKeepsKickOk(c, act, answer, s.kicks, limits);
    OwnStepKeepsLimited(s, i, act, answer, limits);
  }

  lemma OwnStepKeepsKickOk(c: Client, act: Act, answer: bool, kicks: set<int>, limits: int -> int)
    requires ClientNext(c, act, answer).Some? && KickOk(c, kicks, limits(c.uid))
    requires act.See? ==> limits(c.uid) == -1 || limits(c.uid) > 0
    requires act.Interrupt? ==> c.uid in kicks
    ensures var d := ClientNext(c, act, answer).value; KickOk(d, kicks, limits(d.uid))
  {
  }

  lemma OwnStepKeepsLimited(s: State, i: nat, act: Act, answer: bool, limits: int -> int)
    requires Inv(s, limits) && i < |s.clients| && ClientNext(s.clients[i], act, answer).Some?
    requires var c := s.clients[i];
             act.StartLogin? ==> answer == (c.pc.Decided? && LoginAllowed(s.counts, c.uid, limits(c.uid), c.pc.kicked))
    ensures Limited(s.(clients := s.clients[i := ClientNext(s.clients[i], act, answer).value]), limits)
  {
    var c := s.clients[i];
    var d := ClientNext(c, act, answer).value;
    ClientKeepsOk(c, act, answer);
    assert KickOk(c, s.kicks, limits(c.uid));
    forall u | limits(u) != -1
      ensures Held(s.clients[i := d], Some(u)) <= Most(limits(u), u in s.kicks)
    {
      HeldUpdate(s.clients, i, d, Some(u));
    }
  }

  lemma MoreKicks(s: State, uid: int, limits: int -> int)
    requires Inv(s, limits)
    ensures Inv(s.(kicks := s.kicks + {uid}), limits)
  {
  }

  lemma {:induction false} InterruptKeepsInv(s: State, i: nat, limits: int -> int)
    requires Inv(s, limits) && Next(s, i, Interrupt, limits).Some?
    ensures Inv(Next(s, i, Interrupt, limits).value, limits)
  {
    var c := s.clients[i];
    var j := c.pc.victim;
    FinishKeepsInv(s, j, limits);
    var t := s.(clients := s.clients[j := Finish(s.clients[j])]);
    MoreKicks(t, c.uid, limits);
    OwnStepKeepsInv(t.(kicks := t.kicks + {c.uid}), i, Interrupt, Answer(s, i, Interrupt, limits), limits);
  }

  lemma {:induction false} StepKeepsInv(s: State, i: nat, act: Act, limits: int -> int)
    requires Inv(s, limits) && Next(s, i, act, limits).Some?
    ensures Inv(Next(s, i, act, limits).value, limits)
    ensures !act.Arrive? && Stops(s.clients[i], act) ==>
              Get(s.counts, s.clients[i].uid) > 0 && s.counts.global > 0
  {
    if act.Arrive? {
      ArriveKeepsInv(s, limits);
    } else if act.Interrupt? {
      InterruptKeepsInv(s, i, limits);
    } else {
      if act.See? {
        VictimMayLogIn(s, act.victim, limits);
      }
      OwnStepKeepsInv(s, i, act, Answer(s, i, act, limits), limits);
    }
  }

  // ----- Every run -----

  function Run(s: State, steps: seq<(nat, Act)>, limits: int -> int): Option<State>
    decreases |steps|
  {
    if steps == [] then Some(s)
    else
      match Next(s, steps[0].0, steps[0].1, limits)
      case None => None
      case Some(t) => Run(t, steps[1..], limits)
  }

  lemma {:induction false} RunKeepsInv(s: State, steps: seq<(nat, Act)>, limits: int -> int)
    requires Inv(s, limits) && Run(s, steps, limits).Some?
    ensures Inv(Run(s, steps, limits).value, limits)
    decreases |steps|
  {
    if steps != [] {
      StepKeepsInv(s, steps[0].0, steps[0].1, limits);
      RunKeepsInv(Next(s, steps[0].0, steps[0].1, limits).value, steps[1..], limits);
    }
  }

  /** After any interleaving: logins are counted exactly, no user is over the limit by more
      than one, and by none without a kick, no client is logged out twice, and a destroyed
      client is logged out as often as it was logged in. */
  lemma EveryRun(steps: seq<(nat, Act)>, limits: int -> int)
    requires Run(Init(), steps, limits).Some?
    ensures var t := Run(Init(), steps, limits).value;
            && Accounted(t)
            && (forall u | limits(u) != -1 :: Get(t.counts, u) <= Most(limits(u), u in t.kicks))
            && (forall i | 0 <= i < |t.clients| :: t.clients[i].stops <= t.clients[i].starts <= 1)
            && (forall i | 0 <= i < |t.clients| && t.clients[i].pc.Destroyed? :: t.clients[i].starts == t.clients[i].stops)
            && (forall i | 0 <= i < |t.clients| && t.clients[i].stopping > 0 :: t.clients[i].loggedIn)
  {
    RunKeepsInv(Init(), steps, limits);
  }

  /** After any interleaving a kick is looked for exactly if it was asked for and as many logins of the user are
      held as the limit allows; and a login is refused exactly if they are as many even without the kicked one. */
  lemma Admission(steps: seq<(nat, Act)>, i: nat, limits: int -> int)
    requires Run(Init(), steps, limits).Some? && i < |Run(Init(), steps, limits).value.clients|
    ensures var s := Run(Init(), steps, limits).value;
            var c := s.clients[i];
            var limit, held := limits(c.uid), Held(s.clients, Some(c.uid));
            && (c.pc.InPass? ==>
                  var t := Next(s, i, AskForKick, limits);
                  t.Some? && (t.value.clients[i].pc.Kicking? <==> c.kickLogin && limit != -1 && held >= limit))
            && (c.pc.Decided? ==>
                  var t := Next(s, i, StartLogin, limits);
                  t.Some? && (t.value.clients[i].pc.Started? <==>
                              limit == -1 || held < limit || (c.pc.kicked && held == limit)))
  {
    RunKeepsInv(Init(), steps, limits);
  }

  lemma Extend(s: State, steps: seq<(nat, Act)>, i: nat, act: Act, limits: int -> int)
    requires Run(s, steps, limits).Some?
    ensures Run(s, steps + [(i, act)], limits) == Next(Run(s, steps, limits).value, i, act, limits)
  {
    RunAppend(s, steps, [(i, act)], limits);
  }

  lemma {:induction false} RunAppend(s: State, a: seq<(nat, Act)>, b: seq<(nat, Act)>, limits: int -> int)
    requires Run(s, a, limits).Some?
    ensures Run(s, a + b, limits) == Run(Run(s, a, limits).value, b, limits)
    decreases |a|
  {
    if a == [] {
      assert a + b == b;
    } else {
      assert (a + b)[1..] == a[1..] + b;
      RunAppend(Next(s, a[0].0, a[0].1, limits).value, a[1..], b, limits);
    }
  }
}
