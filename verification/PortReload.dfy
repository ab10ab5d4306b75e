/** Which ports src/ftp/portallocator.hpp hands out after a change of configuration. */
module PortReload {
  // `SetPorts` keeps the next port of the old one. The retry loops of src/ftp/data.cpp need not have an end then.

  import opened Sequences
  import opened Ports

  /** Every port ever drawn is a configured one. */
  ghost predicate AlwaysConfigured(ranges: seq<Range>, it: nat, nextPort: int)
    requires Inside(ranges, it)
  {
    forall k: nat :: NthDraw(ranges, it, nextPort, k) in All(ranges)
  }

  lemma InOrderDraws(ranges: seq<Range>, it: nat, nextPort: int, k: nat)
    requires InOrder(ranges, it, nextPort) && ranges != []
    ensures NthDraw(ranges, it, nextPort, k) in All(ranges)
  {
    MovedInOrder(ranges, it, nextPort, k);
    var (it', nextPort') := Moved(ranges, it, nextPort, k);
    DrawsInOrder(ranges, it', nextPort');
  }

  /** Draws on top of draws. */
  lemma {:induction false} MovedOn(ranges: seq<Range>, it: nat, nextPort: int, d: nat, k: nat)
    requires Inside(ranges, it)
    ensures var (it', nextPort') := Moved(ranges, it, nextPort, d);
            Moved(ranges, it, nextPort, d + k) == Moved(ranges, it', nextPort', k)
    decreases k
  {
    if k > 0 {
      MovedOn(ranges, it, nextPort, d, k - 1);
    }
  }

  /** A next port below the first range goes up to it one by one. */
  lemma {:induction false} Gap(ranges: seq<Range>, nextPort: int, d: nat)
    requires Inside(ranges, 0) && ranges != [] && 0 < nextPort && nextPort + d <= ranges[0].from
    ensures Moved(ranges, 0, nextPort, d) == (0, nextPort + d)
    decreases d
  {
    if d > 0 {
      Gap(ranges, nextPort, d - 1);
    }
  }

  /** Every draw is one of the gap below the first range or of an allocator in order. */
  lemma AnyDraw(ranges: seq<Range>, nextPort: int, k: nat)
    requires Inside(ranges, 0) && ranges != [] && nextPort >= 0
    ensures var port := NthDraw(ranges, 0, nextPort, k);
            || port in All(ranges)
            || (0 < nextPort && port == nextPort + k < ranges[0].from)
  {
    if nextPort == 0 || ranges[0].from <= nextPort {
      InOrderDraws(ranges, 0, nextPort, k);
    } else if nextPort + k < ranges[0].from {
      Gap(ranges, nextPort, k);
    } else {
      var d := ranges[0].from - nextPort;
      Gap(ranges, nextPort, d);
      MovedOn(ranges, 0, nextPort, d, k - d);
      InOrderDraws(ranges, 0, ranges[0].from, k - d);
    }
  }

  /** After a new configuration every port ever drawn is a configured one if and only if no port was drawn
      before, or all ports from the one left over up to the first new range are configured. */
  lemma OnlyConfigured(ranges: seq<Range>, nextPort: int)
    requires Inside(ranges, 0) && ranges != [] && nextPort >= 0
    ensures AlwaysConfigured(ranges, 0, nextPort) <==>
            nextPort == 0 || forall port :: nextPort <= port < ranges[0].from ==> port in All(ranges)
  {
    if nextPort == 0 || forall port :: nextPort <= port < ranges[0].from ==> port in All(ranges) {
      forall k: nat
        ensures NthDraw(ranges, 0, nextPort, k) in All(ranges)
      {
        AnyDraw(ranges, nextPort, k);
      }
    } else {
      var port :| nextPort <= port < ranges[0].from && port !in All(ranges);
      Gap(ranges, nextPort, port - nextPort);
      assert NthDraw(ranges, 0, nextPort, port - nextPort) == port;
    }
  }

  /** A port that is in no configured range. */
  method LeftOverPort() returns (port: int)
    ensures port == 2001 && port !in All([Range(5000, 5010)])
  {
    var allocator := new PortAllocator();
    allocator.SetPorts([Range(2000, 2000)]);
    port := allocator.NextPort();
    allocator.SetPorts([Range(5000, 5010)]);
    port := allocator.NextPort();
    assert PortsOf([Range(5000, 5010)], 0) == [];
  }

  // ----- Whether the retry loop has an end -----

  /** Every port drawn is in use. */
  function AllBusy(): (nat, int) -> Attempt {
    (i, port) => InUse
  }

  /** From the first range on, every configured port is drawn sooner or later. */
  lemma DrawnAgain(ranges: seq<Range>, nextPort: int, port: int) returns (i: nat)
    requires InOrder(ranges, 0, nextPort) && ranges != [] && port in All(ranges)
    ensures 0 < i && NthDraw(ranges, 0, nextPort, i) == port
  {
    var m :| 0 <= m < |All(ranges)| && All(ranges)[m] == port;
    var n, p := |All(ranges)|, PositionOf(ranges, 0, nextPort);
    PositionInside(ranges, 0, nextPort);
    i := if m > p then m - p else if m + n > p then m + n - p else n;
    AfterIs(p, n, i);
    MovedInOrder(ranges, 0, nextPort, i);
    var (it', nextPort') := Moved(ranges, 0, nextPort, i);
    DrawsInOrder(ranges, it', nextPort');
  }

  lemma FirstComesAgain(ranges: seq<Range>, nextPort: int) returns (k: nat)
    requires Inside(ranges, 0) && ranges != [] && nextPort >= 0
    requires NthDraw(ranges, 0, nextPort, 0) in All(ranges)
    ensures 0 < k && NthDraw(ranges, 0, nextPort, k) == NthDraw(ranges, 0, nextPort, 0)
  {
    var first := NthDraw(ranges, 0, nextPort, 0);
    if nextPort == 0 || ranges[0].from <= nextPort {
      k := DrawnAgain(ranges, nextPort, first);
    } else {
      var d := ranges[0].from - nextPort;
      var i := DrawnAgain(ranges, ranges[0].from, first);
      Gap(ranges, nextPort, d);
      MovedOn(ranges, 0, nextPort, d, i);
      k := d + i;
    }
  }

  /** With all ports in use the retry loop has an end if and only if its first port is a configured one. */
  lemma FirstPortReturns(ranges: seq<Range>, nextPort: int)
    requires Inside(ranges, 0) && ranges != [] && nextPort >= 0
    ensures Ends(ranges, 0, nextPort, AllBusy()) <==> NthDraw(ranges, 0, nextPort, 0) in All(ranges)
  {
    if NthDraw(ranges, 0, nextPort, 0) in All(ranges) {
      var k := FirstComesAgain(ranges, nextPort);
      assert EndsAt(ranges, 0, nextPort, AllBusy(), k);
    } else {
      AnyDraw(ranges, nextPort, 0);
      forall k: nat
        ensures !EndsAt(ranges, 0, nextPort, AllBusy(), k)
      {
        AnyDraw(ranges, nextPort, k);
      }
    }
  }

  /** If the first port is configured the loop has an end whatever trying the ports leads to. */
  lemma ConfiguredFirstEnds(ranges: seq<Range>, nextPort: int, attempt: (nat, int) -> Attempt)
    requires Inside(ranges, 0) && ranges != [] && nextPort >= 0 && NthDraw(ranges, 0, nextPort, 0) in All(ranges)
    ensures Ends(ranges, 0, nextPort, attempt)
  {
    var k := FirstComesAgain(ranges, nextPort);
    assert EndsAt(ranges, 0, nextPort, attempt, k);
  }
}
