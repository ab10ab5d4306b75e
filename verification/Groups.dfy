/** The group memberships of a user of src/acl/user.cpp, with the rollback of util/util/scopeguard.hpp. */
module Groups {
  import opened Sequences

  /** No primary group. */
  const NONE := -1

  datatype Gids = Gids(primary: int, secondary: seq<int>, gadmin: set<int>)

  function Members(g: Gids): set<int> {
    Elements(g.secondary) + if g.primary == NONE then {} else {g.primary}
  }

  predicate Consistent(g: Gids) {
    && Distinct(g.secondary) && g.primary !in g.secondary && NONE !in g.secondary
    && (g.primary == NONE ==> g.secondary == [])
    && g.gadmin <= Members(g)
  }

  // ----- What the operations compute -----

  /** The elements of `s` that are not in `out`, in order. */
  function Except(s: seq<int>, out: seq<int>): (r: seq<int>)
    ensures forall x :: x in r <==> x in s && x !in out
  {
    if s == [] then []
    else if s[0] in out then Except(s[1..], out)
    else [s[0]] + Except(s[1..], out)
  }

  /** `s` followed by those of the first `n` of `gids` that are new each time. */
  function Extended(primary: int, s: seq<int>, gids: seq<int>, n: nat): seq<int>
    requires n <= |gids|
  {
    if n == 0 then s
    else
      var front := Extended(primary, s, gids, n - 1);
      if gids[n - 1] in front || gids[n - 1] == primary then front else front + [gids[n - 1]]
  }

  function Cleaned(g: Gids): Gids {
    g.(gadmin := set x | x in g.gadmin && (x == g.primary || x in g.secondary))
  }

  function Split(gids: seq<int>, gadmin: set<int>): Gids {
    if gids == [] then Gids(NONE, [], gadmin) else Gids(gids[0], gids[1..], gadmin)
  }

  function Joined(g: Gids): seq<int> {
    (if g.primary == NONE then [] else [g.primary]) + g.secondary
  }

  function RemoveFirst(s: seq<int>, x: int): seq<int> {
    if s == [] then [] else if s[0] == x then s[1..] else [s[0]] + RemoveFirst(s[1..], x)
  }

  function WithPrimary(g: Gids, gid: int): Gids {
    if g.primary == gid then g else Gids(gid, RemoveFirst(Joined(g), gid), g.gadmin)
  }

  function Added(g: Gids, gids: seq<int>): Gids {
    if gids == [] then g
    else if g.primary == NONE then g.(primary := gids[0], secondary := Extended(gids[0], g.secondary, gids[1..], |gids| - 1))
    else g.(secondary := Extended(g.primary, g.secondary, gids, |gids|))
  }

  function Deleted(g: Gids, gids: seq<int>): Gids {
    var rest := Except(g.secondary, gids);
    Cleaned(if g.primary in gids then Split(rest, g.gadmin) else g.(secondary := rest))
  }

  function Replaced(g: Gids, gids: seq<int>): Gids {
    Cleaned(Split(gids, g.gadmin))
  }

  function Difference(g: Gids, gids: seq<int>): seq<int> {
    Except(Joined(g), gids) + Except(gids, Joined(g))
  }

  function Toggled(g: Gids, gids: seq<int>): Gids {
    Cleaned(Split(Difference(g, gids), g.gadmin))
  }

  /** `saved` says whether `SaveGIDs` succeeds; a result of false stands for its exception. */
  class User {
    var primaryGid: int
    var secondaryGids: seq<int>
    var gadminGids: set<int>

    function View(): Gids
      reads this
    {
      Gids(primaryGid, secondaryGids, gadminGids)
    }

    constructor ()
      ensures View() == Gids(NONE, [], {})
    {
      primaryGid, secondaryGids, gadminGids := NONE, [], {};
    }

    method SetPrimaryGID(gid: int, saved: bool) returns (ok: bool)
      modifies this
      ensures View() == if ok then WithPrimary(old(View()), gid) else old(View())
      ensures ok <==> saved || gid == old(primaryGid)
    {
      if primaryGid == gid {
        return true;
      }
      var oldPrimary, oldSecondary := primaryGid, secondaryGids;
      if primaryGid != NONE {
        secondaryGids := [primaryGid] + secondaryGids;
      }
      secondaryGids := RemoveFirst(secondaryGids, gid);
      primaryGid := gid;
      if !saved {
        primaryGid, secondaryGids := oldPrimary, oldSecondary;
      }
      assert [] + old(secondaryGids) == old(secondaryGids);
      return saved;
    }

    method AddGIDs(gids: seq<int>, saved: bool) returns (ok: bool)
      modifies this
      ensures View() == if ok then Added(old(View()), gids) else old(View())
      ensures ok <==> saved || gids == []
    {
      if gids == [] {
        return true;
      }
      var oldPrimary, oldSecondary := primaryGid, secondaryGids;
      var offset := 0;
      if primaryGid == NONE {
        primaryGid := gids[0];
        offset := 1;
      }
      var i := offset;
      ghost var rest := gids[offset..];
      while i < |gids|
        invariant offset <= i <= |gids|
        invariant secondaryGids == Extended(primaryGid, oldSecondary, rest, i - offset)
        invariant primaryGid == (if offset == 1 then gids[0] else oldPrimary) && gadminGids == old(gadminGids)
      {
        assert rest[i - offset] == gids[i];
        if gids[i] !in secondaryGids && gids[i] != primaryGid {
          secondaryGids := secondaryGids + [gids[i]];
        }
        i := i + 1;
      }
      assert gids[0..] == gids;
      if !saved {
        primaryGid, secondaryGids := oldPrimary, oldSecondary;
      }
      return saved;
    }

    method CleanGadminGIDs()
      modifies this`gadminGids
      ensures View() == Cleaned(old(View()))
    {
      var rest := gadminGids;
      while rest != {}
        invariant rest <= gadminGids <= old(gadminGids)
        invariant forall x :: x in old(gadminGids) && x !in rest ==>
                    (x in gadminGids <==> x == primaryGid || x in secondaryGids)
        invariant primaryGid == old(primaryGid) && secondaryGids == old(secondaryGids)
        decreases |rest|
      {
        SomeElement(rest);
        var gid :| gid in rest;
        rest := rest - {gid};
        if gid != primaryGid && gid !in secondaryGids {
          gadminGids := gadminGids - {gid};
        }
      }
      assert gadminGids == Cleaned(old(View())).gadmin by {
        assert forall x :: x in gadminGids <==> x in Cleaned(old(View())).gadmin;
      }
    }

    method DelGIDs(gids: seq<int>, saved: bool) returns (ok: bool)
      modifies this
      ensures View() == if ok then Deleted(old(View()), gids) else old(View())
      ensures ok == saved
    {
      var oldPrimary, oldSecondary, oldGadmin := primaryGid, secondaryGids, gadminGids;
      secondaryGids := Except(secondaryGids, gids);
      if primaryGid in gids {
        if secondaryGids == [] {
          primaryGid := NONE;
        } else {
          primaryGid := secondaryGids[0];
          secondaryGids := secondaryGids[1..];
        }
      }
      CleanGadminGIDs();
      if !saved {
        primaryGid, secondaryGids, gadminGids := oldPrimary, oldSecondary, oldGadmin;
      }
      return saved;
    }

    method SetGIDs(gids: seq<int>, saved: bool) returns (ok: bool)
      modifies this
      ensures View() == if ok then Replaced(old(View()), gids) else old(View())
      ensures ok == saved
    {
      var oldPrimary, oldSecondary, oldGadmin := primaryGid, secondaryGids, gadminGids;
      primaryGid, secondaryGids := NONE, [];
      if gids != [] {
        primaryGid, secondaryGids := gids[0], gids[1..];
      }
      CleanGadminGIDs();
      if !saved {
        primaryGid, secondaryGids, gadminGids := oldPrimary, oldSecondary, oldGadmin;
      }
      return saved;
    }

    method ToggleGIDs(gids: seq<int>, saved: bool) returns (ok: bool)
      modifies this
      ensures View() == if ok then Toggled(old(View()), gids) else old(View())
      ensures ok == saved
    {
      var oldPrimary, oldSecondary, oldGadmin := primaryGid, secondaryGids, gadminGids;
      if primaryGid != NONE {
        secondaryGids := [primaryGid] + secondaryGids;
      }
      assert secondaryGids == Joined(old(View()));
      var diffGids := Except(secondaryGids, gids);
      diffGids := diffGids + Except(gids, secondaryGids);
      if diffGids == [] {
        primaryGid, secondaryGids := NONE, [];
      } else {
        primaryGid, secondaryGids := diffGids[0], diffGids[1..];
      }
      CleanGadminGIDs();
      if !saved {
        primaryGid, secondaryGids, gadminGids := oldPrimary, oldSecondary, oldGadmin;
      }
      return saved;
    }
  }

  // ----- Distinctness -----

  lemma {:induction false} ExceptDistinct(s: seq<int>, out: seq<int>)
    requires Distinct(s)
    ensures Distinct(Except(s, out))
  {
    if s != [] {
      ExceptDistinct(s[1..], out);
    }
  }

  /** What is appended is new, and all of `gids` is there in the end. */
  lemma {:induction false} ExtendedIs(primary: int, s: seq<int>, gids: seq<int>, n: nat)
    requires n <= |gids| && Distinct(s) && primary !in s
    ensures var r := Extended(primary, s, gids, n);
            && Distinct(r) && primary !in r
            && forall x :: x in r <==> x in s || (x in gids[..n] && x != primary)
  {
    if n > 0 {
      ExtendedIs(primary, s, gids, n - 1);
      assert gids[..n] == gids[..n - 1] + [gids[n - 1]];
    }
    assert gids[..0] == [];
  }

  lemma {:induction false} RemoveFirstIs(s: seq<int>, x: int)
    requires Distinct(s)
    ensures var r := RemoveFirst(s, x);
            Distinct(r) && forall y :: y in r <==> y in s && y != x
  {
    if s != [] {
      var rest := s[1..];
      RemoveFirstIs(rest, x);
      assert forall y :: y in s <==> y == s[0] || y in rest;
      assert s[0] !in rest;
      if s[0] != x {
        var r := RemoveFirst(rest, x);
        assert forall i :: 0 < i < |r| + 1 ==> ([s[0]] + r)[i] == r[i - 1];
        assert s[0] !in r;
      }
    }
  }

  lemma JoinedIs(g: Gids)
    requires Consistent(g)
    ensures Distinct(Joined(g)) && Elements(Joined(g)) == Members(g) && NONE !in Joined(g)
    ensures Split(Joined(g), g.gadmin) == g
  {
    if g.primary == NONE {
      assert Joined(g) == [];
    } else {
      assert Joined(g)[1..] == g.secondary;
      assert forall i :: 0 < i < |Joined(g)| ==> Joined(g)[i] == g.secondary[i - 1];
    }
  }

  lemma SomeElement(s: set<int>)
    requires s != {}
    ensures exists x :: x in s
  {
    if forall x :: x !in s {
      assert false;
    }
  }

  lemma DistinctCons(x: int, rest: seq<int>)
    ensures Distinct([x] + rest) <==> Distinct(rest) && x !in rest
  {
    var s := [x] + rest;
    assert forall i :: 0 < i < |s| ==> s[i] == rest[i - 1];
    assert forall i :: 0 <= i < |rest| ==> rest[i] == s[i + 1];
    if x in rest {
      var i :| 0 <= i < |rest| && rest[i] == x;
      assert s[0] == s[i + 1];
    } else if Distinct(s) {
      forall i, j | 0 <= i < j < |rest|
        ensures rest[i] != rest[j]
      {
        assert s[i + 1] != s[j + 1];
      }
    }
  }

  /** Which lists make a consistent user. */
  lemma SplitIs(gids: seq<int>, gadmin: set<int>)
    requires NONE !in gadmin
    ensures var g := Cleaned(Split(gids, gadmin));
            && (Consistent(g) <==> gids == [NONE] || (Distinct(gids) && NONE !in gids))
            && (NONE !in gids ==> Members(g) == Elements(gids) && g.gadmin == gadmin * Elements(gids))
  {
    if gids != [] {
      var rest := gids[1..];
      assert gids == [gids[0]] + rest;
      DistinctCons(gids[0], rest);
      assert forall y :: y in gids <==> y == gids[0] || y in rest;
    }
  }

  // ----- Each operation on a consistent user -----

  lemma PrimaryIs(g: Gids, gid: int)
    requires Consistent(g)
    ensures Consistent(WithPrimary(g, gid)) <==> gid != NONE || g.primary == NONE
    ensures gid != NONE ==> Members(WithPrimary(g, gid)) == Members(g) + {gid}
    ensures gid != NONE ==> Joined(WithPrimary(g, gid)) == [gid] + Except(Joined(g), [gid])
    ensures WithPrimary(g, gid).gadmin == g.gadmin
  {
    JoinedIs(g);
    RemoveFirstIs(Joined(g), gid);
    FirstMoved(g, gid);
    if g.primary != gid {
      var r := WithPrimary(g, gid);
      if gid == NONE {
        assert g.primary in Members(g) && g.primary in r.secondary;
      } else {
        assert forall x :: x in Members(r) <==> x in Members(g) || x == gid;
      }
    }
  }

  lemma {:induction false} RemoveFirstExcept(s: seq<int>, x: int)
    requires Distinct(s)
    ensures RemoveFirst(s, x) == Except(s, [x])
  {
    if s != [] {
      var first, rest := s[0], s[1..];
      assert s == [first] + rest;
      DistinctCons(first, rest);
      RemoveFirstExcept(rest, x);
      if first == x {
        ExceptNothing(rest, [x]);
      }
    }
  }

  /** The new primary group comes first, and the others keep their order. */
  lemma FirstMoved(g: Gids, gid: int)
    requires Consistent(g)
    ensures gid != NONE ==> Joined(WithPrimary(g, gid)) == [gid] + Except(Joined(g), [gid])
  {
    JoinedIs(g);
    if g.primary == gid {
      ExceptNothing(g.secondary, [gid]);
      ExceptAppend([gid], g.secondary, [gid]);
      assert Except([gid], [gid]) == [];
    } else {
      RemoveFirstExcept(Joined(g), gid);
    }
  }

  lemma JoinedSplit(gids: seq<int>, gadmin: set<int>)
    requires NONE !in gids
    ensures Joined(Split(gids, gadmin)) == gids
  {
    if gids != [] {
      assert gids == [gids[0]] + gids[1..];
      assert gids[0] in gids;
    }
  }

  /** The elements of `gids` that are not in `seen`, each where it occurs first. */
  function Firsts(gids: seq<int>, seen: seq<int>): seq<int> {
    if gids == [] then []
    else
      var front, last := Firsts(gids[..|gids| - 1], seen), gids[|gids| - 1];
      if last in seen || last in front then front else front + [last]
  }

  lemma {:induction false} FirstsCons(x: int, rest: seq<int>, seen: seq<int>)
    requires x !in seen
    ensures Firsts([x] + rest, seen) == [x] + Firsts(rest, seen + [x])
  {
    var gids := [x] + rest;
    if rest == [] {
      assert gids[..0] == [];
    } else {
      FirstsCons(x, rest[..|rest| - 1], seen);
      assert gids[..|gids| - 1] == [x] + rest[..|rest| - 1];
    }
  }

  lemma {:induction false} ExtendedByFirsts(primary: int, s: seq<int>, gids: seq<int>, n: nat)
    requires n <= |gids|
    ensures Extended(primary, s, gids, n) == s + Firsts(gids[..n], [primary] + s)
  {
    if n > 0 {
      ExtendedByFirsts(primary, s, gids, n - 1);
      assert gids[..n][..n - 1] == gids[..n - 1];
    }
  }

  /** The new groups come last, in the order of their first occurrences. */
  lemma AddedInOrder(g: Gids, gids: seq<int>)
    requires Consistent(g) && NONE !in gids
    ensures Joined(Added(g, gids)) == Joined(g) + Firsts(gids, Joined(g))
  {
    if gids == [] {
    } else if g.primary == NONE {
      var first, rest := gids[0], gids[1..];
      assert gids == [first] + rest && first in gids;
      ExtendedByFirsts(first, [], rest, |rest|);
      assert rest[..|rest|] == rest && [first] + [] == [] + [first];
      FirstsCons(first, rest, []);
    } else {
      ExtendedByFirsts(g.primary, g.secondary, gids, |gids|);
      assert gids[..|gids|] == gids;
    }
  }

  lemma AddIs(g: Gids, gids: seq<int>)
    requires Consistent(g)
    ensures Consistent(Added(g, gids)) <==> NONE !in gids || (g.primary == NONE && Elements(gids) == {NONE})
    ensures NONE !in gids ==> Members(Added(g, gids)) == Members(g) + Elements(gids)
    ensures NONE !in gids ==> Joined(Added(g, gids)) == Joined(g) + Firsts(gids, Joined(g))
    ensures Added(g, gids).gadmin == g.gadmin
  {
    var r := Added(g, gids);
    if NONE !in gids {
      AddedInOrder(g, gids);
    }
    if gids == [] {
    } else if g.primary == NONE {
      AddToNone(gids);
      assert r.secondary == Extended(gids[0], [], gids[1..], |gids| - 1);
      if gids[0] == NONE && r.secondary != [] {
        assert r.secondary[0] in r.secondary;
      }
      assert gids[0] in Elements(gids);
    } else {
      assert gids[..|gids|] == gids;
      ExtendedIs(g.primary, g.secondary, gids, |gids|);
    }
    if NONE !in gids {
      assert forall x :: x in Members(r) <==> x in Members(g) || x in gids;
    }
  }

  lemma AddToNone(gids: seq<int>)
    requires gids != []
    ensures var s := Extended(gids[0], [], gids[1..], |gids| - 1);
            && Distinct(s) && (forall x :: x in s <==> x in gids && x != gids[0])
            && (s == [] <==> Elements(gids) == {gids[0]})
  {
    var first, rest := gids[0], gids[1..];
    assert gids == [first] + rest && rest[..|rest|] == rest;
    ExtendedIs(first, [], rest, |rest|);
    NothingNew(Extended(first, [], rest, |rest|), first, gids);
  }

  lemma NothingNew(s: seq<int>, first: int, gids: seq<int>)
    requires first in gids && forall x :: x in s <==> x in gids && x != first
    ensures s == [] <==> Elements(gids) == {first}
  {
    if s == [] {
      forall x | x in gids
        ensures x == first
      {
        assert x != first ==> x in s;
      }
      assert Elements(gids) == {first};
    } else {
      var x := s[0];
      assert x in s;
      assert x in Elements(gids);
    }
  }

  lemma DeleteIs(g: Gids, gids: seq<int>)
    requires Consistent(g)
    ensures Consistent(Deleted(g, gids))
    ensures Members(Deleted(g, gids)) == Members(g) - Elements(gids)
    ensures Joined(Deleted(g, gids)) == Except(Joined(g), gids)
    ensures Deleted(g, gids).gadmin == g.gadmin * Members(Deleted(g, gids))
  {
    DeletedInOrder(g, gids);
    var rest := Except(g.secondary, gids);
    var r := Deleted(g, gids);
    ExceptDistinct(g.secondary, gids);
    if g.primary in gids {
      SplitIs(rest, g.gadmin);
    } else {
      assert Members(r.(gadmin := {})) == Elements(rest) + if g.primary == NONE then {} else {g.primary};
    }
    assert forall x :: x in Members(r) <==> x in Members(g) && x !in gids;
  }

  /** The remaining groups keep their order, so that the first of them becomes the primary one. */
  lemma DeletedInOrder(g: Gids, gids: seq<int>)
    requires Consistent(g)
    ensures Joined(Deleted(g, gids)) == Except(Joined(g), gids)
  {
    var rest := Except(g.secondary, gids);
    if g.primary != NONE {
      ExceptAppend([g.primary], g.secondary, gids);
      assert Except([g.primary], gids) == if g.primary in gids then [] else [g.primary];
    }
    JoinedSplit(rest, g.gadmin);
  }

  lemma ReplaceIs(g: Gids, gids: seq<int>)
    requires Consistent(g)
    ensures Consistent(Replaced(g, gids)) <==> gids == [NONE] || (Distinct(gids) && NONE !in gids)
    ensures NONE !in gids ==> Members(Replaced(g, gids)) == Elements(gids) && Joined(Replaced(g, gids)) == gids
    ensures NONE !in gids ==> Replaced(g, gids).gadmin == g.gadmin * Elements(gids)
  {
    if NONE !in gids {
      JoinedSplit(gids, g.gadmin);
    }
    SplitIs(gids, g.gadmin);
  }

  lemma DistinctConcat(a: seq<int>, b: seq<int>)
    requires Distinct(a) && forall x :: x in a ==> x !in b
    ensures Distinct(a + b) <==> Distinct(b)
  {
    var s := a + b;
    if Distinct(b) {
      forall i, j | 0 <= i < j < |s|
        ensures s[i] != s[j]
      {
        if i < |a| <= j {
          assert s[i] == a[i] && s[j] == b[j - |a|];
          assert a[i] in a && b[j - |a|] in b;
        }
      }
    }
    if Distinct(a + b) {
      forall i, j | 0 <= i < j < |b|
        ensures b[i] != b[j]
      {
        assert (a + b)[|a| + i] != (a + b)[|a| + j];
      }
    }
  }

  /** Only those of `gids` that were not members may not repeat. */
  lemma {:induction false} ToggleIs(g: Gids, gids: seq<int>)
    requires Consistent(g)
    ensures Consistent(Toggled(g, gids)) <==>
            (Members(g) <= Elements(gids) && Except(gids, Joined(g)) == [NONE]) ||
            (NONE !in gids && Distinct(Except(gids, Joined(g))))
    ensures NONE !in gids ==>
              Members(Toggled(g, gids)) == (Members(g) - Elements(gids)) + (Elements(gids) - Members(g))
    ensures NONE !in gids ==>
              && Joined(Toggled(g, gids)) == Except(Joined(g), gids) + Except(gids, Joined(g))
              && Toggled(g, gids).gadmin == g.gadmin * Members(Toggled(g, gids))
  {
    var s := Difference(g, gids);
    DifferenceIs(g, gids);
    SplitIs(s, g.gadmin);
    if NONE !in gids {
      SymmetricDifference(s, Members(g), gids);
      JoinedSplit(s, g.gadmin);
    }
  }

  lemma SymmetricDifference(s: seq<int>, m: set<int>, gids: seq<int>)
    requires forall x :: x in s <==> (x in m && x !in gids) || (x in gids && x !in m)
    ensures Elements(s) == (m - Elements(gids)) + (Elements(gids) - m)
  {
    assert forall x :: x in Elements(s) <==> x in (m - Elements(gids)) + (Elements(gids) - m);
  }

  lemma DifferenceIs(g: Gids, gids: seq<int>)
    requires Consistent(g)
    ensures var s := Difference(g, gids);
            && (Distinct(s) <==> Distinct(Except(gids, Joined(g))))
            && (NONE in s <==> NONE in gids)
            && (s == [NONE] <==> Members(g) <= Elements(gids) && Except(gids, Joined(g)) == [NONE])
            && forall x :: x in s <==> (x in Members(g) && x !in gids) || (x in gids && x !in Members(g))
  {
    JoinedIs(g);
    var joined := Joined(g);
    var kept, added := Except(joined, gids), Except(gids, joined);
    ExceptDistinct(joined, gids);
    DistinctConcat(kept, added);
    assert forall x :: x in joined <==> x in Members(g);
    NothingKept(g, gids);
  }

  lemma NothingKept(g: Gids, gids: seq<int>)
    requires Consistent(g)
    ensures Except(Joined(g), gids) == [] <==> Members(g) <= Elements(gids)
  {
    JoinedIs(g);
    var kept := Except(Joined(g), gids);
    assert forall x :: x in Joined(g) <==> x in Members(g);
    if kept != [] {
      assert kept[0] in kept;
    }
  }

  // ----- What one operation undoes -----

  lemma {:induction false} ExceptNothing(s: seq<int>, out: seq<int>)
    requires forall x :: x in s ==> x !in out
    ensures Except(s, out) == s
  {
    if s != [] {
      var first, rest := s[0], s[1..];
      assert s == [first] + rest && first in s;
      assert forall x :: x in rest ==> x in s;
      ExceptNothing(rest, out);
      assert first !in out;
    }
  }

  lemma {:induction false} ExceptAppend(a: seq<int>, b: seq<int>, out: seq<int>)
    ensures Except(a + b, out) == Except(a, out) + Except(b, out)
  {
    if a == [] {
      assert a + b == b;
    } else {
      assert (a + b)[1..] == a[1..] + b;
      ExceptAppend(a[1..], b, out);
    }
  }

  lemma {:induction false} ExtendedUndone(primary: int, s: seq<int>, gids: seq<int>, n: nat, out: seq<int>)
    requires n <= |gids| && (forall x :: x in gids ==> x in out) && forall x :: x in s ==> x !in out
    ensures Except(Extended(primary, s, gids, n), out) == s
  {
    if n == 0 {
      ExceptNothing(s, out);
    } else {
      ExtendedUndone(primary, s, gids, n - 1, out);
      ExceptAppend(Extended(primary, s, gids, n - 1), [gids[n - 1]], out);
      assert Except([gids[n - 1]], out) == [];
    }
  }

  /** Deleting groups that were just added, and were all new, restores the exact state. */
  lemma DeleteUndoesAdd(g: Gids, gids: seq<int>)
    requires Consistent(g) && NONE !in gids && forall x :: x in gids ==> x !in Members(g)
    ensures Deleted(Added(g, gids), gids) == g
  {
    DeleteUndoesAddList(g, gids);
    var r := Added(g, gids);
    assert Cleaned(g) == g;
    assert r.gadmin == g.gadmin;
  }

  lemma DeleteUndoesAddList(g: Gids, gids: seq<int>)
    requires Consistent(g) && NONE !in gids && forall x :: x in gids ==> x !in Members(g)
    ensures Deleted(Added(g, gids), gids) == Cleaned(g)
  {
    if gids == [] {
      ExceptNothing(g.secondary, gids);
    } else if g.primary == NONE {
      assert gids == [gids[0]] + gids[1..];
      ExtendedUndone(gids[0], [], gids[1..], |gids| - 1, gids);
    } else {
      assert g.primary in Members(g);
      ExtendedUndone(g.primary, g.secondary, gids, |gids|, gids);
    }
  }

  /** Toggling twice restores the memberships. */
  lemma ToggleTwice(g: Gids, gids: seq<int>)
    requires Consistent(g) && Distinct(gids) && NONE !in gids
    ensures Consistent(Toggled(Toggled(g, gids), gids))
    ensures Members(Toggled(Toggled(g, gids), gids)) == Members(g)
  {
    ExceptDistinct(gids, Joined(g));
    ToggleIs(g, gids);
    ExceptDistinct(gids, Joined(Toggled(g, gids)));
    ToggleIs(Toggled(g, gids), gids);
    TwiceDifferent(Members(g), Elements(gids));
  }

  lemma TwiceDifferent(a: set<int>, b: set<int>)
    ensures var once := (a - b) + (b - a);
            (once - b) + (b - once) == a
  {
  }

  // ----- Runs -----

  datatype Op =
    | SetPrimary(gid: int)
    | Add(gids: seq<int>)
    | Del(gids: seq<int>)
    | Set(gids: seq<int>)
    | Toggle(gids: seq<int>)

  function Next(g: Gids, op: Op): Gids {
    match op
    case SetPrimary(gid) => WithPrimary(g, gid)
    case Add(gids) => Added(g, gids)
    case Del(gids) => Deleted(g, gids)
    case Set(gids) => Replaced(g, gids)
    case Toggle(gids) => Toggled(g, gids)
  }

  /** The groups of the next state, in order. */
  function NextOrder(order: seq<int>, op: Op): seq<int> {
    match op
    case SetPrimary(gid) => [gid] + Except(order, [gid])
    case Add(gids) => order + Firsts(gids, order)
    case Del(gids) => Except(order, gids)
    case Set(gids) => gids
    case Toggle(gids) => Except(order, gids) + Except(gids, order)
  }

  /** Arguments without -1, and without repetitions where these matter. */
  predicate Acceptable(op: Op) {
    match op
    case SetPrimary(gid) => gid != NONE
    case Add(gids) => NONE !in gids
    case Del(gids) => true
    case Set(gids) => Distinct(gids) && NONE !in gids
    case Toggle(gids) => Distinct(gids) && NONE !in gids
  }

  /** Each operation comes with whether its `SaveGIDs` succeeds; if it fails, nothing changes. */
  function Run(g: Gids, ops: seq<(Op, bool)>): Gids {
    if ops == [] then g
    else
      var h := Run(g, ops[..|ops| - 1]);
      var (op, saved) := ops[|ops| - 1];
      if saved then Next(h, op) else h
  }

  function RunOrder(order: seq<int>, ops: seq<(Op, bool)>): seq<int> {
    if ops == [] then order
    else
      var before := RunOrder(order, ops[..|ops| - 1]);
      var (op, saved) := ops[|ops| - 1];
      if saved then NextOrder(before, op) else before
  }

  lemma StepKeepsConsistent(g: Gids, op: Op)
    requires Consistent(g) && Acceptable(op)
    ensures Consistent(Next(g, op)) && Joined(Next(g, op)) == NextOrder(Joined(g), op)
    ensures Next(g, op).gadmin == g.gadmin * Elements(NextOrder(Joined(g), op))
  {
    match op {
      case SetPrimary(gid) => PrimaryIs(g, gid);
      case Add(gids) => AddIs(g, gids);
      case Del(gids) => DeleteIs(g, gids);
      case Set(gids) => ReplaceIs(g, gids);
      case Toggle(gids) =>
        ExceptDistinct(gids, Joined(g));
        ToggleIs(g, gids);
    }
    JoinedIs(Next(g, op));
    if op.SetPrimary? || op.Add? {
      assert g.gadmin <= Members(g) <= Members(Next(g, op));
    }
  }

  lemma {:induction false} RunKeepsConsistent(g: Gids, ops: seq<(Op, bool)>)
    requires Consistent(g) && forall i :: 0 <= i < |ops| ==> Acceptable(ops[i].0)
    ensures Consistent(Run(g, ops)) && Joined(Run(g, ops)) == RunOrder(Joined(g), ops)
  {
    if ops != [] {
      var n := |ops| - 1;
      RunKeepsConsistent(g, ops[..n]);
      StepKeepsConsistent(Run(g, ops[..n]), ops[n].0);
    }
  }

  /** A member all along. */
  ghost predicate Remained(order: seq<int>, ops: seq<(Op, bool)>, x: int) {
    forall n | 0 <= n <= |ops| :: x in RunOrder(order, ops[..n])
  }

  lemma RemainedOneMore(order: seq<int>, ops: seq<(Op, bool)>, x: int)
    requires ops != []
    ensures Remained(order, ops, x) <==> Remained(order, ops[..|ops| - 1], x) && x in RunOrder(order, ops)
  {
    var front := ops[..|ops| - 1];
    assert forall n | 0 <= n < |ops| :: front[..n] == ops[..n];
    assert ops[..|ops|] == ops;
    if Remained(order, ops, x) {
      forall n | 0 <= n <= |front|
        ensures x in RunOrder(order, front[..n])
      {
        assert front[..n] == ops[..n];
      }
    }
    if Remained(order, front, x) && x in RunOrder(order, ops) {
      forall n | 0 <= n <= |ops|
        ensures x in RunOrder(order, ops[..n])
      {
        assert n < |ops| ==> front[..n] == ops[..n];
      }
    }
  }

  /** After a run the user is gadmin of exactly those groups of the start that the user never left in between,
      joined again or not. */
  lemma {:induction false} GadminWhoRemain(g: Gids, ops: seq<(Op, bool)>, x: int)
    requires Consistent(g) && forall i :: 0 <= i < |ops| ==> Acceptable(ops[i].0)
    ensures x in Run(g, ops).gadmin <==> x in g.gadmin && Remained(Joined(g), ops, x)
  {
    if ops == [] {
      JoinedIs(g);
      assert ops[..0] == ops;
    } else {
      var front, last := ops[..|ops| - 1], ops[|ops| - 1];
      GadminWhoRemain(g, front, x);
      RemainedOneMore(Joined(g), ops, x);
      RunKeepsConsistent(g, front);
      StepKeepsConsistent(Run(g, front), last.0);
      if !last.1 {
        assert front[..|front|] == front;
      }
    }
  }
}
