/** The ports between two occurrences of one port, going round the list of all configured ports.

    The retry loops of src/ftp/data.cpp give up where their first port comes again. These lemmas say when that is, and
    when all ports have been tried by then: always, whatever the position of the allocator, exactly for a
    list that is one round of different ports, repeated.
 */
module PortRounds {
  import opened Sequences
  import opened Ports

  // ----- Giving up, on one round of the ports -----

  /** In the round `r` the first port comes again after `k` tries, and not before. */
  ghost predicate Returns(r: seq<int>, k: nat) {
    && 0 < k <= |r|
    && (forall i :: 0 < i < k ==> r[i] != r[0])
    && (k < |r| ==> r[k] == r[0])
  }

  /** The tries after which the loop gives up, all ports being in use. */
  ghost predicate GivesUp(all: seq<int>, p: nat, tried: seq<int>) {
    && p <= |all| && 0 < |tried| <= |all|
    && TriedFrom(all, p, tried, Exhausted) && FirstOnlyOnce(tried)
  }

  lemma OnlyOnceInFront(r: seq<int>, k: nat)
    requires 0 < k <= |r|
    ensures FirstOnlyOnce(r[..k]) <==> forall i :: 0 < i < k ==> r[i] != r[0]
  {
    assert forall i :: 0 <= i < k ==> r[..k][i] == r[i];
  }

  lemma GivesUpOnReturn(all: seq<int>, p: nat, tried: seq<int>)
    requires p <= |all| && 0 < |tried| <= |all|
    ensures GivesUp(all, p, tried) <==>
            tried == Rotated(all, p)[..|tried|] && Returns(Rotated(all, p), |tried|)
  {
    var r, k := Rotated(all, p), |tried|;
    FullRound(all, p);
    OnlyOnceInFront(r, k);
    HandedPrefix(all, p, k, |all|);
    assert Handed(all, p, k) == r[..k];
    if k < |all| {
      HandedPrefix(all, p, k + 1, |all|);
      assert Handed(all, p, k + 1)[k] == r[k];
    } else {
      EachOnce(all, p);
    }
  }

  lemma {:induction false} FirstReturn(r: seq<int>, k: nat) returns (m: nat)
    requires 0 < k <= |r| && (k < |r| ==> r[k] == r[0])
    ensures m <= k && Returns(r, m)
  {
    m := k;
    if i :| 0 < i < k && r[i] == r[0] {
      m := FirstReturn(r, i);
    }
  }

  lemma RotatedAt(s: seq<int>, p: nat, i: nat)
    requires p <= |s| && i < |s|
    ensures Rotated(s, p)[i] == s[if p + i < |s| then p + i else p + i - |s|]
  {
  }

  lemma RotatedElements(s: seq<int>, p: nat)
    requires p <= |s|
    ensures Elements(Rotated(s, p)) == Elements(s)
  {
    assert s == s[..p] + s[p..];
    assert forall x :: x in Rotated(s, p) <==> x in s;
  }

  // ----- Lists of ports that repeat themselves -----

  /** The list of ports repeats itself after as many ports as there are different ones. */
  ghost predicate Repeating(all: seq<int>) {
    |Elements(all)| <= |all| && Rotated(all, |Elements(all)|) == all
  }

  lemma {:induction false} FewerElements(s: seq<int>)
    ensures |Elements(s)| <= |s|
    ensures |Elements(s)| == |s| <==> Distinct(s)
  {
    if s != [] {
      var front, last := s[..|s| - 1], s[|s| - 1];
      FewerElements(front);
      assert s == front + [last];
      assert Elements(s) == Elements(front) + {last};
      if last in front {
        var i :| 0 <= i < |front| && front[i] == last;
        assert s[i] == s[|s| - 1];
      }
    }
  }

  lemma RepeatingRotated(all: seq<int>, p: nat, i: nat)
    requires Repeating(all) && p <= |all| && i + |Elements(all)| < |all|
    ensures Rotated(all, p)[i + |Elements(all)|] == Rotated(all, p)[i]
  {
    var d, x := |Elements(all)|, if p + i < |all| then p + i else p + i - |all|;
    RotatedAt(all, p, i);
    RotatedAt(all, p, i + d);
    RotatedAt(all, d, x);
  }

  lemma {:induction false} InWindow(r: seq<int>, d: nat, i: nat)
    requires 0 < d <= |r| && i < |r| && forall j: nat :: j + d < |r| ==> r[j + d] == r[j]
    ensures r[i] in r[..d]
    decreases i
  {
    if i < d {
      assert r[..d][i] == r[i];
    } else {
      InWindow(r, d, i - d);
      assert r[i - d + d] == r[i - d];
    }
  }

  lemma ElementsWithin(a: seq<int>, b: seq<int>)
    requires forall i :: 0 <= i < |a| ==> a[i] in b
    ensures Elements(a) <= Elements(b)
  {
  }

  lemma WindowElements(r: seq<int>, d: nat)
    requires 0 < d <= |r| && forall j: nat :: j + d < |r| ==> r[j + d] == r[j]
    ensures Elements(r[..d]) == Elements(r)
  {
    forall i | 0 <= i < |r|
      ensures r[i] in r[..d]
    {
      InWindow(r, d, i);
    }
    ElementsWithin(r, r[..d]);
    ElementsWithin(r[..d], r);
  }

  /** No port comes again before all different ones were there. */
  lemma ReturnsLate(r: seq<int>, k: nat)
    requires Returns(r, k) && |Elements(r)| <= |r| && Elements(r[..|Elements(r)|]) == Elements(r)
    ensures k >= |Elements(r)|
  {
    var window := r[..|Elements(r)|];
    FewerElements(window);
    if k < |window| {
      EarlyRepeat(r, k, |window|);
    }
  }

  lemma EarlyRepeat(r: seq<int>, k: nat, d: nat)
    requires Returns(r, k) && k < d <= |r|
    ensures !Distinct(r[..d])
  {
    assert r[..d][k] == r[..d][0];
  }

  lemma MoreElements(r: seq<int>, d: nat, k: nat)
    requires d <= k <= |r| && Elements(r[..d]) == Elements(r)
    ensures Elements(r[..k]) == Elements(r)
  {
    assert r[..d] == r[..k][..d];
    ElementsWithin(r[..d], r[..k]);
    ElementsWithin(r[..k], r);
  }

  lemma RepeatingTriesAll(all: seq<int>, p: nat, k: nat)
    requires Repeating(all) && p <= |all| && Returns(Rotated(all, p), k)
    ensures Elements(Rotated(all, p)[..k]) == Elements(all)
  {
    var r, d := Rotated(all, p), |Elements(all)|;
    RotatedElements(all, p);
    assert all[0] in Elements(all);
    forall j: nat | j + d < |r|
      ensures r[j + d] == r[j]
    {
      RepeatingRotated(all, p, j);
    }
    WindowElements(r, d);
    ReturnsLate(r, k);
    MoreElements(r, d, k);
  }

  ghost predicate TriesAll(all: seq<int>) {
    forall p: nat, tried :: GivesUp(all, p, tried) ==> Elements(tried) == Elements(all)
  }

  /** If all ports are tried, no other port can be tried twice meanwhile: a loop that started with that
      one would miss the first. */
  lemma NoRepeatBefore(all: seq<int>, p: nat, k: nat, i: nat, j: nat)
    requires TriesAll(all) && p <= |all| && Returns(Rotated(all, p), k) && 0 < i < j < k
    ensures Rotated(all, p)[i] != Rotated(all, p)[j]
  {
    var r := Rotated(all, p);
    if r[i] == r[j] {
      var q := if p + i < |all| then p + i else p + i - |all|;
      var r' := Rotated(all, q);
      forall x: nat | x <= j - i
        ensures r'[x] == r[i + x]
      {
        RotatedAt(all, q, x);
        RotatedAt(all, p, i + x);
      }
      assert r'[0] == r[i + 0] && r'[j - i] == r[i + (j - i)];
      var m := FirstReturn(r', j - i);
      RotatedElements(all, p);
      assert r[0] in Elements(r);
      MissesFirst(r, k, i, r'[..m]);
      GivesUpOnReturn(all, q, r'[..m]);
    }
  }

  lemma MissesFirst(r: seq<int>, k: nat, i: nat, tried: seq<int>)
    requires Returns(r, k) && 0 < i && i + |tried| <= k && forall x: nat :: x < |tried| ==> tried[x] == r[i + x]
    ensures r[0] !in Elements(tried)
  {
  }

  lemma ReturnAfterAll(all: seq<int>, p: nat, k: nat)
    requires TriesAll(all) && p <= |all| && Returns(Rotated(all, p), k)
    ensures k == |Elements(all)|
  {
    var tried := Rotated(all, p)[..k];
    GivesUpOnReturn(all, p, tried);
    forall i, j | 0 <= i < j < k
      ensures tried[i] != tried[j]
    {
      if i > 0 {
        NoRepeatBefore(all, p, k, i, j);
      }
    }
    FewerElements(tried);
  }

  lemma TryingAllRepeats(all: seq<int>)
    requires TriesAll(all) && all != []
    ensures Repeating(all)
  {
    var d := |Elements(all)|;
    FewerElements(all);
    if d < |all| {
      forall p | 0 <= p < |all|
        ensures Rotated(all, d)[p] == all[p]
      {
        var k := FirstReturn(Rotated(all, p), |all|);
        ReturnAfterAll(all, p, k);
        RotatedAt(all, p, 0);
        RotatedAt(all, p, d);
        RotatedAt(all, d, p);
      }
    }
  }
}
