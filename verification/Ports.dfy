/** The round-robin port allocator of src/ftp/portallocator.hpp and the retry loops of src/ftp/data.cpp. */
module Ports {
  import opened Sequences
  import opened Wrappers

  datatype Range = Range(from: int, to: int)

  const ANY_PORT := 0

  /** What the configuration accepts. */
  predicate Configurable(ranges: seq<Range>) {
    forall i :: 0 <= i < |ranges| ==> 1024 <= ranges[i].from <= ranges[i].to <= 65535
  }

  predicate Disjoint(ranges: seq<Range>) {
    forall i, j :: 0 <= i < j < |ranges| ==> ranges[i].to < ranges[j].from || ranges[j].to < ranges[i].from
  }

  function Size(r: Range): nat {
    if r.from <= r.to then r.to - r.from + 1 else 0
  }

  /** The number of ports in the first `n` ranges. */
  function Offset(ranges: seq<Range>, n: nat): nat
    requires n <= |ranges|
  {
    if n == 0 then 0 else Offset(ranges, n - 1) + Size(ranges[n - 1])
  }

  /** The ports of the first `n` ranges in order. */
  function PortsOf(ranges: seq<Range>, n: nat): (r: seq<int>)
    requires n <= |ranges|
    ensures |r| == Offset(ranges, n)
  {
    if n == 0 then []
    else PortsOf(ranges, n - 1) + seq(Size(ranges[n - 1]), d requires d >= 0 => ranges[n - 1].from + d)
  }

  function All(ranges: seq<Range>): seq<int> {
    PortsOf(ranges, |ranges|)
  }

  lemma {:induction false} PortAt(ranges: seq<Range>, n: nat, i: nat, d: nat)
    requires i < n <= |ranges| && d < Size(ranges[i])
    ensures Offset(ranges, i) + d < Offset(ranges, n)
    ensures PortsOf(ranges, n)[Offset(ranges, i) + d] == ranges[i].from + d
  {
    if i < n - 1 {
      PortAt(ranges, n - 1, i, d);
    }
  }

  /** The ports in the order in which they are handed out: without ranges, any port at all. */
  function Supply(ranges: seq<Range>): seq<int> {
    if ranges == [] then [ANY_PORT] else All(ranges)
  }

  /** `it` is one of the ranges. */
  predicate Inside(ranges: seq<Range>, it: nat) {
    Configurable(ranges) && (ranges != [] ==> it < |ranges|)
  }

  /** The next port is not below the current range. */
  predicate InOrder(ranges: seq<Range>, it: nat, nextPort: int) {
    Inside(ranges, it) && (ranges != [] ==> if nextPort == 0 then it == 0 else ranges[it].from <= nextPort)
  }

  /** Where the next port stands in the supply; the length of the supply stands for 0. */
  function PositionOf(ranges: seq<Range>, it: nat, nextPort: int): nat
    requires InOrder(ranges, it, nextPort)
  {
    if ranges == [] then 1
    else if nextPort == 0 then 0
    else Offset(ranges, it) + if nextPort <= ranges[it].to then nextPort - ranges[it].from else Size(ranges[it])
  }

  function Wrap(p: nat, n: nat): nat {
    if p == n then 0 else p
  }

  lemma Issues(ranges: seq<Range>, it: nat, nextPort: int)
    requires InOrder(ranges, it, nextPort) && ranges != [] && 0 < nextPort <= ranges[it].to
    ensures InOrder(ranges, it, nextPort + 1)
    ensures var p := PositionOf(ranges, it, nextPort);
            p < |All(ranges)| && All(ranges)[p] == nextPort && PositionOf(ranges, it, nextPort + 1) == p + 1
  {
    PortAt(ranges, |ranges|, it, nextPort - ranges[it].from);
  }

  lemma Advances(ranges: seq<Range>, it: nat, nextPort: int)
    requires InOrder(ranges, it, nextPort) && ranges != [] && nextPort > ranges[it].to
    ensures var next := Wrap(it + 1, |ranges|);
            && InOrder(ranges, next, ranges[next].from)
            && Wrap(PositionOf(ranges, next, ranges[next].from), |All(ranges)|)
               == Wrap(PositionOf(ranges, it, nextPort), |All(ranges)|)
  {
    var next := Wrap(it + 1, |ranges|);
    PortAt(ranges, |ranges|, next, 0);
    assert Offset(ranges, it + 1) == Offset(ranges, it) + Size(ranges[it]);
  }

  /** One draw, whatever the next port: the port, and where the allocator stands then. */
  function Draw(ranges: seq<Range>, it: nat, nextPort: int): (int, nat, int)
    requires Inside(ranges, it)
  {
    if ranges == [] then (ANY_PORT, it, nextPort)
    else if nextPort == 0 then (ranges[it].from, it, ranges[it].from + 1)
    else if nextPort <= ranges[it].to then (nextPort, it, nextPort + 1)
    else
      var next := Wrap(it + 1, |ranges|);
      (ranges[next].from, next, ranges[next].from + 1)
  }

  class PortAllocator {
    var ranges: seq<Range>
    var it: nat
    var nextPort: int

    /** What always holds. */
    ghost predicate Usable()
      reads this
    {
      Inside(ranges, it) && nextPort >= 0
    }

    /** The next port stands somewhere among the configured ones. */
    ghost predicate Valid()
      reads this
    {
      Usable() && InOrder(ranges, it, nextPort)
    }

    ghost function Position(): nat
      requires Valid()
      reads this
    {
      PositionOf(ranges, it, nextPort)
    }

    constructor ()
      ensures Valid() && ranges == [] && nextPort == 0
    {
      ranges, it, nextPort := [], 0, 0;
    }

    /** Keeps the next port of the old configuration. */
    method SetPorts(ranges: seq<Range>)
      requires Usable() && Configurable(ranges)
      modifies this
      ensures Usable() && this.ranges == ranges && it == 0 && nextPort == old(nextPort)
    {
      this.ranges := ranges;
      it := 0;
    }

    method NextPort() returns (port: int)
      requires Usable()
      modifies this
      ensures Usable() && ranges == old(ranges)
      ensures (port, it, nextPort) == Draw(ranges, old(it), old(nextPort))
      ensures old(Valid()) ==>
                var p := Wrap(old(Position()), |Supply(ranges)|);
                Valid() && p < |Supply(ranges)| && port == Supply(ranges)[p] && Position() == p + 1
    {
      if ranges == [] {
        return ANY_PORT;
      }
      ghost var was := (it, nextPort);
      if nextPort == 0 {
        nextPort := ranges[it].from;
        nextPort := nextPort + 1;
        DrawsInOrder(ranges, was.0, was.1);
        return nextPort - 1;
      }
      while nextPort > ranges[it].to
        invariant Usable() && ranges == old(ranges) != [] && nextPort != 0
        invariant if nextPort > ranges[it].to then (it, nextPort) == was
                  else Draw(ranges, was.0, was.1) == (nextPort, it, nextPort + 1)
        decreases nextPort > ranges[it].to
      {
        it := it + 1;
        if it == |ranges| {
          it := 0;
        }
        nextPort := ranges[it].from;
      }
      nextPort := nextPort + 1;
      DrawsInOrder(ranges, was.0, was.1);
      return nextPort - 1;
    }
  }

  /** A draw in order returns the port at its position and moves on by one, cyclically. */
  lemma DrawsInOrder(ranges: seq<Range>, it: nat, nextPort: int)
    requires Inside(ranges, it)
    ensures InOrder(ranges, it, nextPort) ==>
              var (port, it', nextPort') := Draw(ranges, it, nextPort);
              var all := Supply(ranges);
              var p := Wrap(PositionOf(ranges, it, nextPort), |all|);
              && InOrder(ranges, it', nextPort')
              && p < |all| && port == all[p] && PositionOf(ranges, it', nextPort') == p + 1
  {
    if InOrder(ranges, it, nextPort) && ranges != [] {
      if nextPort == 0 {
        Issues(ranges, it, ranges[it].from);
      } else if nextPort <= ranges[it].to {
        Issues(ranges, it, nextPort);
      } else {
        var next := Wrap(it + 1, |ranges|);
        Advances(ranges, it, nextPort);
        Issues(ranges, next, ranges[next].from);
      }
    }
  }

  // ----- Many draws -----

  /** Where the allocator stands after `k` draws. */
  function Moved(ranges: seq<Range>, it: nat, nextPort: int, k: nat): (r: (nat, int))
    requires Inside(ranges, it)
    ensures Inside(ranges, r.0)
  {
    if k == 0 then (it, nextPort)
    else
      var (it', nextPort') := Moved(ranges, it, nextPort, k - 1);
      var (_, next, port) := Draw(ranges, it', nextPort');
      (next, port)
  }

  /** Draw number `k`, from 0. */
  function NthDraw(ranges: seq<Range>, it: nat, nextPort: int, k: nat): int
    requires Inside(ranges, it)
  {
    var (it', nextPort') := Moved(ranges, it, nextPort, k);
    Draw(ranges, it', nextPort').0
  }

  // ----- Going round -----

  /** The position after `k` calls from position `p` of `n`. */
  function After(p: nat, n: nat, k: nat): (q: nat)
    requires p <= n && n > 0
    ensures q <= n
  {
    if k == 0 then p else Wrap(After(p, n, k - 1), n) + 1
  }

  /** The ports that `k` calls from position `p` return. */
  function Handed(all: seq<int>, p: nat, k: nat): (r: seq<int>)
    requires p <= |all| && all != []
    ensures |r| == k
  {
    if k == 0 then [] else Handed(all, p, k - 1) + [all[Wrap(After(p, |all|, k - 1), |all|)]]
  }

  function Rotated<T>(s: seq<T>, p: nat): (r: seq<T>)
    requires p <= |s|
    ensures |r| == |s|
  {
    s[p..] + s[..p]
  }

  lemma {:induction false} AfterIs(p: nat, n: nat, k: nat)
    requires p <= n && k <= n && n > 0
    ensures After(p, n, k) == if p + k <= n then p + k else p + k - n
  {
    if k > 0 {
      AfterIs(p, n, k - 1);
    }
  }

  lemma {:induction false} HandedAt(all: seq<int>, p: nat, k: nat, i: nat)
    requires p <= |all| && all != [] && i < k <= |all|
    ensures Handed(all, p, k)[i] == Rotated(all, p)[i]
  {
    if i < k - 1 {
      HandedAt(all, p, k - 1, i);
    } else {
      AfterIs(p, |all|, i);
    }
  }

  lemma FullRound(all: seq<int>, p: nat)
    requires p <= |all| && all != []
    ensures Handed(all, p, |all|) == Rotated(all, p)
  {
    forall i | 0 <= i < |all|
      ensures Handed(all, p, |all|)[i] == Rotated(all, p)[i]
    {
      HandedAt(all, p, |all|, i);
    }
  }

  lemma RotatedSame(s: seq<int>, p: nat)
    requires p <= |s|
    ensures multiset(Rotated(s, p)) == multiset(s)
  {
    assert s == s[..p] + s[p..];
  }

  /** From any position, as many calls as there are ports return each port as often as it is
      configured, and the next call starts over. */
  lemma EachOnce(all: seq<int>, p: nat)
    requires p <= |all| && all != []
    ensures multiset(Handed(all, p, |all|)) == multiset(all)
    ensures Handed(all, p, |all| + 1)[|all|] == Handed(all, p, |all|)[0]
  {
    FullRound(all, p);
    RotatedSame(all, p);
    AfterIs(p, |all|, |all|);
  }

  lemma {:induction false} HandedPrefix(all: seq<int>, p: nat, k: nat, m: nat)
    requires p <= |all| && all != [] && k <= m
    ensures Handed(all, p, m)[..k] == Handed(all, p, k)
  {
    if k < m {
      HandedPrefix(all, p, k, m - 1);
    }
  }

  lemma {:induction false} OwnRange(ranges: seq<Range>, n: nat, k: nat) returns (i: nat, d: nat)
    requires n <= |ranges| && k < Offset(ranges, n)
    ensures i < n && d < Size(ranges[i]) && k == Offset(ranges, i) + d
  {
    if k < Offset(ranges, n - 1) {
      i, d := OwnRange(ranges, n - 1, k);
    } else {
      i, d := n - 1, k - Offset(ranges, n - 1);
    }
  }

  /** No port is configured twice exactly when the ranges are disjoint. */
  lemma DisjointRanges(ranges: seq<Range>)
    requires Configurable(ranges)
    ensures Disjoint(ranges) <==> Distinct(All(ranges))
  {
    var all := All(ranges);
    if Disjoint(ranges) {
      forall k, m | 0 <= k < m < |all|
        ensures all[k] != all[m]
      {
        DifferentPorts(ranges, k, m);
      }
    } else {
      SharedPort(ranges);
    }
  }

  lemma ApartRanges(ranges: seq<Range>, i: nat, j: nat)
    requires Disjoint(ranges) && i < |ranges| && j < |ranges|
    ensures i == j || ranges[i].to < ranges[j].from || ranges[j].to < ranges[i].from
  {
  }

  lemma DifferentPorts(ranges: seq<Range>, k: nat, m: nat)
    requires Disjoint(ranges) && k < m < |All(ranges)|
    ensures All(ranges)[k] != All(ranges)[m]
  {
    var i, d := OwnRange(ranges, |ranges|, k);
    var j, e := OwnRange(ranges, |ranges|, m);
    PortAt(ranges, |ranges|, i, d);
    PortAt(ranges, |ranges|, j, e);
    ApartRanges(ranges, i, j);
  }

  lemma SharedPort(ranges: seq<Range>)
    requires Configurable(ranges) && !Disjoint(ranges)
    ensures !Distinct(All(ranges))
  {
    var i, j :| 0 <= i < j < |ranges| && !(ranges[i].to < ranges[j].from || ranges[j].to < ranges[i].from);
    var port := if ranges[i].from <= ranges[j].from then ranges[j].from else ranges[i].from;
    var d: nat, e: nat := port - ranges[i].from, port - ranges[j].from;
    PortAt(ranges, |ranges|, i, d);
    PortAt(ranges, |ranges|, j, e);
    PortAt(ranges, j, i, d);
    var k, m := Offset(ranges, i) + d, Offset(ranges, j) + e;
    assert k < m && All(ranges)[k] == All(ranges)[m];
  }

  // ----- The retry loop -----

  /** What trying a port leads to: only EADDRINUSE makes the loop go on. */
  datatype Attempt = Bound | InUse | Failed

  datatype Outcome = Ready(port: int) | Exhausted | Error

  /** Draw number `k` ends the loop: it is the first port again, or trying it does not lead to EADDRINUSE. */
  ghost predicate EndsAt(ranges: seq<Range>, it: nat, nextPort: int, attempt: (nat, int) -> Attempt, k: nat)
    requires Inside(ranges, it)
  {
    || (k > 0 && NthDraw(ranges, it, nextPort, k) == NthDraw(ranges, it, nextPort, 0))
    || attempt(k, NthDraw(ranges, it, nextPort, k)) != InUse
  }

  /** Without such a draw the loop goes on for ever. */
  ghost predicate Ends(ranges: seq<Range>, it: nat, nextPort: int, attempt: (nat, int) -> Attempt)
    requires Inside(ranges, it)
  {
    exists k: nat :: EndsAt(ranges, it, nextPort, attempt, k)
  }

  /** The first draws, none of which ended the loop. */
  ghost predicate TriedSoFar(ranges: seq<Range>, it: nat, nextPort: int, attempt: (nat, int) -> Attempt, tried: seq<int>)
    requires Inside(ranges, it)
  {
    forall i: nat :: i < |tried| ==>
      tried[i] == NthDraw(ranges, it, nextPort, i) && !EndsAt(ranges, it, nextPort, attempt, i)
  }

  /** Tries `attempt(i, port)` as its try number `i`. */
  method BindPort(allocator: PortAllocator, attempt: (nat, int) -> Attempt) returns (outcome: Outcome, tried: seq<int>)
    requires allocator.Usable() && Ends(allocator.ranges, allocator.it, allocator.nextPort, attempt)
    modifies allocator
    ensures allocator.Usable() && allocator.ranges == old(allocator.ranges)
    ensures tried != [] && Concluded(allocator.ranges, old(allocator.it), old(allocator.nextPort), attempt, tried, outcome)
    ensures (allocator.it, allocator.nextPort)
            == Moved(allocator.ranges, old(allocator.it), old(allocator.nextPort), |tried| + if outcome == Exhausted then 1 else 0)
  {
    ghost var ranges, it, nextPort := allocator.ranges, allocator.it, allocator.nextPort;
    ghost var last: nat :| EndsAt(ranges, it, nextPort, attempt, last);
    var firstPort: Option<int> := None;
    tried := [];
    while true
      invariant allocator.Usable() && allocator.ranges == ranges
      invariant (allocator.it, allocator.nextPort) == Moved(ranges, it, nextPort, |tried|)
      invariant TriedSoFar(ranges, it, nextPort, attempt, tried)
      invariant firstPort == if tried == [] then None else Some(tried[0])
      invariant |tried| <= last
      decreases last - |tried|
    {
      var port := allocator.NextPort();
      if firstPort == None {
        firstPort := Some(port);
      } else if port == firstPort.value {
        FirstAgain(ranges, it, nextPort, attempt, tried);
        return Exhausted, tried;
      }
      OneMoreTry(ranges, it, nextPort, attempt, tried, port);
      var result := attempt(|tried|, port);
      tried := tried + [port];
      if result == InUse {
        NotYetAtTheEnd(ranges, it, nextPort, attempt, tried, last);
      } else {
        return if result == Bound then Ready(port) else Error, tried;
      }
    }
  }

  lemma NotYetAtTheEnd(ranges: seq<Range>, it: nat, nextPort: int, attempt: (nat, int) -> Attempt, tried: seq<int>, last: nat)
    requires Inside(ranges, it) && TriedSoFar(ranges, it, nextPort, attempt, tried) && EndsAt(ranges, it, nextPort, attempt, last)
    ensures |tried| <= last
  {
  }

  lemma FirstAgain(ranges: seq<Range>, it: nat, nextPort: int, attempt: (nat, int) -> Attempt, tried: seq<int>)
    requires Inside(ranges, it) && tried != [] && TriedSoFar(ranges, it, nextPort, attempt, tried)
    requires NthDraw(ranges, it, nextPort, |tried|) == tried[0]
    ensures Concluded(ranges, it, nextPort, attempt, tried, Exhausted)
  {
    var n := |tried| - 1;
    assert !EndsAt(ranges, it, nextPort, attempt, n) && tried[n] == NthDraw(ranges, it, nextPort, n);
    assert tried[0] == NthDraw(ranges, it, nextPort, 0);
  }

  lemma OneMoreTry(ranges: seq<Range>, it: nat, nextPort: int, attempt: (nat, int) -> Attempt, tried: seq<int>, port: int)
    requires Inside(ranges, it) && TriedSoFar(ranges, it, nextPort, attempt, tried)
    requires port == NthDraw(ranges, it, nextPort, |tried|) && (tried != [] ==> port != tried[0])
    ensures attempt(|tried|, port) == InUse ==> TriedSoFar(ranges, it, nextPort, attempt, tried + [port])
    ensures attempt(|tried|, port) == Bound ==> Concluded(ranges, it, nextPort, attempt, tried + [port], Ready(port))
    ensures attempt(|tried|, port) == Failed ==> Concluded(ranges, it, nextPort, attempt, tried + [port], Error)
  {
    assert (tried + [port])[..|tried|] == tried;
    assert tried != [] ==> tried[0] == NthDraw(ranges, it, nextPort, 0);
  }

  /** What was tried and what came of it: all but the last draw left the loop going. */
  ghost predicate Concluded(ranges: seq<Range>, it: nat, nextPort: int, attempt: (nat, int) -> Attempt,
                            tried: seq<int>, outcome: Outcome)
    requires Inside(ranges, it) && tried != []
  {
    var n := |tried| - 1;
    && TriedSoFar(ranges, it, nextPort, attempt, tried[..n])
    && tried[n] == NthDraw(ranges, it, nextPort, n)
    && (n > 0 ==> tried[n] != tried[0])
    && match attempt(n, tried[n])
       case Bound => outcome == Ready(tried[n])
       case Failed => outcome == Error
       case InUse => outcome == Exhausted && NthDraw(ranges, it, nextPort, n + 1) == tried[0]
  }

  /** The tries are successive ports from position `p`, and end only where the first port would come again. */
  ghost predicate TriedFrom(all: seq<int>, p: nat, tried: seq<int>, outcome: Outcome)
    requires p <= |all| && all != []
  {
    && tried == Handed(all, p, |tried|)
    && (outcome == Exhausted ==> tried != [] && Handed(all, p, |tried| + 1)[|tried|] == tried[0])
  }

  predicate FirstOnlyOnce(ports: seq<int>) {
    forall i :: 0 < i < |ports| ==> ports[i] != ports[0]
  }

  // ----- The loop on an allocator in order -----

  lemma PositionInside(ranges: seq<Range>, it: nat, nextPort: int)
    requires InOrder(ranges, it, nextPort)
    ensures Supply(ranges) != [] && PositionOf(ranges, it, nextPort) <= |Supply(ranges)|
  {
    if ranges != [] {
      PortAt(ranges, |ranges|, it, Size(ranges[it]) - 1);
    }
  }

  lemma {:induction false} MovedInOrder(ranges: seq<Range>, it: nat, nextPort: int, k: nat)
    requires InOrder(ranges, it, nextPort)
    ensures var (it', nextPort') := Moved(ranges, it, nextPort, k);
            && InOrder(ranges, it', nextPort')
            && Supply(ranges) != [] && PositionOf(ranges, it, nextPort) <= |Supply(ranges)|
            && PositionOf(ranges, it', nextPort') == After(PositionOf(ranges, it, nextPort), |Supply(ranges)|, k)
  {
    PositionInside(ranges, it, nextPort);
    if k > 0 {
      MovedInOrder(ranges, it, nextPort, k - 1);
      var (it', nextPort') := Moved(ranges, it, nextPort, k - 1);
      DrawsInOrder(ranges, it', nextPort');
    }
  }

  /** In order the draws are the ports from the position on. */
  lemma {:induction false} DrawsAreHanded(ranges: seq<Range>, it: nat, nextPort: int, k: nat, i: nat)
    requires InOrder(ranges, it, nextPort) && i < k
    ensures Supply(ranges) != [] && PositionOf(ranges, it, nextPort) <= |Supply(ranges)|
    ensures Handed(Supply(ranges), PositionOf(ranges, it, nextPort), k)[i] == NthDraw(ranges, it, nextPort, i)
    decreases k
  {
    if i < k - 1 {
      DrawsAreHanded(ranges, it, nextPort, k - 1, i);
    } else {
      MovedInOrder(ranges, it, nextPort, i);
      var (it', nextPort') := Moved(ranges, it, nextPort, i);
      DrawsInOrder(ranges, it', nextPort');
    }
  }

  /** In order the first port comes again after a round. */
  lemma RoundReturns(ranges: seq<Range>, it: nat, nextPort: int)
    requires InOrder(ranges, it, nextPort)
    ensures NthDraw(ranges, it, nextPort, |Supply(ranges)|) == NthDraw(ranges, it, nextPort, 0)
  {
    var n := |Supply(ranges)|;
    PositionInside(ranges, it, nextPort);
    DrawsAreHanded(ranges, it, nextPort, n, 0);
    DrawsAreHanded(ranges, it, nextPort, n + 1, n);
    EachOnce(Supply(ranges), PositionOf(ranges, it, nextPort));
  }

  /** Hence the loop always has an end. */
  lemma InOrderEnds(ranges: seq<Range>, it: nat, nextPort: int, attempt: (nat, int) -> Attempt)
    requires InOrder(ranges, it, nextPort)
    ensures Ends(ranges, it, nextPort, attempt)
  {
    PositionInside(ranges, it, nextPort);
    RoundReturns(ranges, it, nextPort);
    assert EndsAt(ranges, it, nextPort, attempt, |Supply(ranges)|);
  }

  /** And it tries successive ports of the supply, at most one round of them. */
  lemma InOrderTries(ranges: seq<Range>, it: nat, nextPort: int, attempt: (nat, int) -> Attempt, tried: seq<int>, outcome: Outcome)
    requires InOrder(ranges, it, nextPort) && tried != [] && Concluded(ranges, it, nextPort, attempt, tried, outcome)
    ensures var all, p := Supply(ranges), PositionOf(ranges, it, nextPort);
            && all != [] && p <= |all| && |tried| <= |all|
            && TriedFrom(all, p, tried, outcome) && FirstOnlyOnce(tried)
  {
    var all, p, n := Supply(ranges), PositionOf(ranges, it, nextPort), |tried|;
    PositionInside(ranges, it, nextPort);
    RoundReturns(ranges, it, nextPort);
    forall i | 0 <= i < n
      ensures tried[i] == NthDraw(ranges, it, nextPort, i) && tried[i] == Handed(all, p, n)[i]
      ensures i > 0 ==> tried[i] != tried[0]
    {
      DrawsAreHanded(ranges, it, nextPort, n, i);
      if i < n - 1 {
        assert tried[..n - 1][i] == tried[i];
      }
    }
    DrawsAreHanded(ranges, it, nextPort, n + 1, n);
    NoLaterThanTheEnd(ranges, it, nextPort, attempt, tried, outcome, |all|);
  }

  lemma NoLaterThanTheEnd(ranges: seq<Range>, it: nat, nextPort: int, attempt: (nat, int) -> Attempt,
                          tried: seq<int>, outcome: Outcome, k: nat)
    requires Inside(ranges, it) && tried != [] && Concluded(ranges, it, nextPort, attempt, tried, outcome)
    requires 0 < k && NthDraw(ranges, it, nextPort, k) == NthDraw(ranges, it, nextPort, 0)
    ensures |tried| <= k
  {
    assert EndsAt(ranges, it, nextPort, attempt, k);
    assert |tried| > 1 ==> tried[..|tried| - 1][0] == tried[0];
  }

  lemma RotatedDistinct(s: seq<int>, p: nat)
    requires p <= |s| && Distinct(s)
    ensures Distinct(Rotated(s, p))
  {
    var r := Rotated(s, p);
    forall i, j | 0 <= i < j < |r|
      ensures r[i] != r[j]
    {
      assert r[i] == s[if i < |s| - p then p + i else i - (|s| - p)];
      assert r[j] == s[if j < |s| - p then p + j else j - (|s| - p)];
    }
  }

  /** With disjoint ranges the loop gives up only after trying every configured port once. */
  lemma ExhaustedAfterAll(ranges: seq<Range>, p: nat, tried: seq<int>)
    requires Configurable(ranges) && Disjoint(ranges) && 0 < |tried| <= |All(ranges)| && p <= |All(ranges)|
    requires TriedFrom(All(ranges), p, tried, Exhausted)
    ensures multiset(tried) == multiset(All(ranges))
    ensures Distinct(tried)
  {
    var all := All(ranges);
    DisjointRanges(ranges);
    AfterIs(p, |all|, |tried|);
    HandedPrefix(all, p, 1, |tried|);
    assert tried[0] == all[Wrap(p, |all|)];
    assert tried[0] == all[Wrap(After(p, |all|, |tried|), |all|)];
    assert |tried| == |all|;
    EachOnce(all, p);
    FullRound(all, p);
    assert tried == Rotated(all, p);
    RotatedDistinct(all, p);
  }

  /** With overlapping ranges it can give up while a configured port was never tried. */
  lemma OverlapGivesUpEarly()
    ensures var ranges, tried := [Range(1024, 1024), Range(1024, 1025)], [1024];
            && Configurable(ranges) && !Disjoint(ranges)
            && All(ranges) == [1024, 1024, 1025]
            && TriedFrom(All(ranges), 0, tried, Exhausted) && 1025 !in tried
  {
    var ranges := [Range(1024, 1024), Range(1024, 1025)];
    assert ranges[0].to == ranges[1].from;
    assert PortsOf(ranges, 1) == [1024];
    assert PortsOf(ranges, 2) == [1024, 1024, 1025];
    var all := All(ranges);
    assert After(0, 3, 1) == 1;
    assert Handed(all, 0, 1) == [1024];
    assert Handed(all, 0, 2) == [1024, 1024];
  }
}
