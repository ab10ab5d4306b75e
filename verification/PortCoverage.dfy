/** When the retry loops of src/ftp/data.cpp try every port before they give up, from wherever they start. */
module PortCoverage {
  import opened Sequences
  import opened Ports
  import opened PortRounds

  /** Whatever the position, the loop gives up only after trying every port exactly as often as it is
      configured, if and only if the ranges are disjoint. */
  lemma TriesEachOnceIff(ranges: seq<Range>)
    requires Configurable(ranges)
    ensures Disjoint(ranges) <==>
            forall p: nat, tried :: GivesUp(All(ranges), p, tried) ==> multiset(tried) == multiset(All(ranges))
  {
    var all := All(ranges);
    if Disjoint(ranges) {
      forall p: nat, tried | GivesUp(all, p, tried)
        ensures multiset(tried) == multiset(all)
      {
        ExhaustedAfterAll(ranges, p, tried);
      }
    } else {
      SharedPort(ranges);
      var i, j :| 0 <= i < j < |all| && all[i] == all[j];
      var r := Rotated(all, i);
      RotatedAt(all, i, 0);
      RotatedAt(all, i, j - i);
      var k := FirstReturn(r, j - i);
      GivesUpOnReturn(all, i, r[..k]);
      assert |multiset(r[..k])| == k && |multiset(all)| == |all|;
      assert GivesUp(all, i, r[..k]) && multiset(r[..k]) != multiset(all);
    }
  }

  /** Whatever the position, the loop gives up only after trying every configured port, if and only if the
      list of ports is one round of different ports, repeated. */
  lemma TriesAllIff(ranges: seq<Range>)
    requires Configurable(ranges)
    ensures TriesAll(All(ranges)) <==> Repeating(All(ranges))
  {
    var all := All(ranges);
    if Repeating(all) {
      forall p: nat, tried | GivesUp(all, p, tried)
        ensures Elements(tried) == Elements(all)
      {
        GivesUpOnReturn(all, p, tried);
        RepeatingTriesAll(all, p, |tried|);
      }
    }
    if TriesAll(all) {
      if all == [] {
        assert Elements(all) == {};
      } else {
        TryingAllRepeats(all);
      }
    }
  }

  /** Disjoint ranges make up such a list. */
  lemma DisjointRepeats(ranges: seq<Range>)
    requires Configurable(ranges) && Disjoint(ranges)
    ensures Repeating(All(ranges))
  {
    DisjointRanges(ranges);
    FewerElements(All(ranges));
  }
}
