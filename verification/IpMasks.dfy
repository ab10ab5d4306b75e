/** The list of IP masks of `acl::User` (src/acl/user.cpp). */
module IpMasks {
  import opened Wildcard

  /** The masks that `mask` does not match, in order. */
  function Unmatched(masks: seq<string>, mask: string): seq<string> {
    if masks == [] then []
    else
      var last := masks[|masks| - 1];
      Unmatched(masks[..|masks| - 1], mask) + (if Match(mask, last, true) then [] else [last])
  }

  function Matched(masks: seq<string>, mask: string): seq<string> {
    if masks == [] then []
    else
      var last := masks[|masks| - 1];
      Matched(masks[..|masks| - 1], mask) + (if Match(mask, last, true) then [last] else [])
  }

  /** Each mask is either kept or dropped, and by nothing but the match. */
  lemma {:induction false} Members(masks: seq<string>, mask: string)
    ensures forall m :: m in Unmatched(masks, mask) <==> m in masks && !Match(mask, m, true)
    ensures forall m :: m in Matched(masks, mask) <==> m in masks && Match(mask, m, true)
  {
    if masks != [] {
      Members(masks[..|masks| - 1], mask);
      assert masks == masks[..|masks| - 1] + [masks[|masks| - 1]];
    }
  }

  /** `r` is what `s` holds at the positions `at`, which increase. */
  ghost predicate Picks(s: seq<string>, at: seq<nat>, r: seq<string>) {
    && |at| == |r| && (forall i | 0 <= i < |at| :: at[i] < |s| && s[at[i]] == r[i])
    && forall i, j | 0 <= i < j < |at| :: at[i] < at[j]
  }

  lemma PicksNext(s: seq<string>, at: seq<nat>, r: seq<string>, last: string)
    requires Picks(s, at, r)
    ensures Picks(s + [last], at, r) && Picks(s + [last], at + [|s|], r + [last])
  {
  }

  /** The masks kept and those dropped both keep their order and how often they occur. */
  lemma {:induction false} InOrder(masks: seq<string>, mask: string) returns (kept: seq<nat>, dropped: seq<nat>)
    ensures Picks(masks, kept, Unmatched(masks, mask)) && Picks(masks, dropped, Matched(masks, mask))
    ensures forall i | 0 <= i < |masks| ::
              (i in kept <==> !Match(mask, masks[i], true)) && (i in dropped <==> Match(mask, masks[i], true))
  {
    kept, dropped := [], [];
    if masks != [] {
      var front, last := masks[..|masks| - 1], masks[|masks| - 1];
      kept, dropped := InOrder(front, mask);
      PicksNext(front, kept, Unmatched(front, mask), last);
      PicksNext(front, dropped, Matched(front, mask), last);
      assert masks == front + [last];
      if Match(mask, last, true) {
        dropped := dropped + [|front|];
      } else {
        kept := kept + [|front|];
      }
    }
  }

  lemma OneMore(masks: seq<string>, seen: nat, mask: string)
    requires seen < |masks|
    ensures Unmatched(masks[..seen + 1], mask) ==
            Unmatched(masks[..seen], mask) + (if Match(mask, masks[seen], true) then [] else [masks[seen]])
    ensures Matched(masks[..seen + 1], mask) ==
            Matched(masks[..seen], mask) + (if Match(mask, masks[seen], true) then [masks[seen]] else [])
  {
    assert masks[..seen + 1][..seen] == masks[..seen];
  }

  /** Erasing the element at the end of the part already gone through, or keeping it. */
  lemma EraseOrKeep(kept: seq<string>, masks: seq<string>, seen: nat)
    requires seen < |masks|
    ensures var v := kept + masks[seen..];
            && v[|kept|] == masks[seen]
            && v[..|kept|] + v[|kept| + 1..] == kept + masks[seen + 1..]
            && v == kept + [masks[seen]] + masks[seen + 1..]
  {
  }

  predicate Covered(masks: seq<string>, mask: string) {
    exists i :: 0 <= i < |masks| && Match(masks[i], mask, true)
  }

  function Add(masks: seq<string>, mask: string): seq<string> {
    if Covered(masks, mask) then masks else Unmatched(masks, mask) + [mask]
  }

  /** The list after the first `seen` of the masks were gone through: those kept, and those still to come. */
  ghost predicate Swept(now: seq<string>, kept: seq<string>, deleted: seq<string>, masks: seq<string>, seen: nat, mask: string) {
    && seen <= |masks| && now == kept + masks[seen..]
    && kept == Unmatched(masks[..seen], mask) && deleted == Matched(masks[..seen], mask)
  }

  lemma SweepStarts(masks: seq<string>, mask: string)
    ensures Swept(masks, [], [], masks, 0, mask)
  {
    assert masks[..0] == [] && [] + masks[0..] == masks;
  }

  lemma SweepOne(now: seq<string>, kept: seq<string>, deleted: seq<string>, masks: seq<string>, seen: nat, mask: string)
    requires Swept(now, kept, deleted, masks, seen, mask) && |kept| < |now|
    ensures seen < |masks|
    ensures var m := now[|kept|];
            if Match(mask, m, true) then
              Swept(now[..|kept|] + now[|kept| + 1..], kept, deleted + [m], masks, seen + 1, mask)
            else
              Swept(now, kept + [m], deleted, masks, seen + 1, mask)
  {
    OneMore(masks, seen, mask);
    EraseOrKeep(kept, masks, seen);
  }

  lemma SweepEnds(now: seq<string>, kept: seq<string>, deleted: seq<string>, masks: seq<string>, seen: nat, mask: string)
    requires Swept(now, kept, deleted, masks, seen, mask) && |kept| == |now|
    ensures now == Unmatched(masks, mask) && deleted == Matched(masks, mask)
  {
    assert masks[..seen] == masks;
    assert now == kept;
  }

  class User {
    var ipMasks: seq<string>

    method AddIPMask(ipMask: string) returns (added: bool, deleted: seq<string>)
      modifies this
      ensures ipMasks == Add(old(ipMasks), ipMask)
      ensures added <==> !Covered(old(ipMasks), ipMask)
      ensures deleted == if added then Matched(old(ipMasks), ipMask) else []
    {
      if Covered(ipMasks, ipMask) {
        return false, [];
      }

      deleted := [];
      ghost var masks, seen := ipMasks, 0;
      ghost var kept: seq<string> := [];
      var it := 0;
      SweepStarts(masks, ipMask);
      while it < |ipMasks|
        invariant it == |kept| && Swept(ipMasks, kept, deleted, masks, seen, ipMask)
        decreases |masks| - seen
      {
        SweepOne(ipMasks, kept, deleted, masks, seen, ipMask);
        if Match(ipMask, ipMasks[it], true) {
          deleted := deleted + [ipMasks[it]];
          ipMasks := ipMasks[..it] + ipMasks[it + 1..];
        } else {
          kept := kept + [ipMasks[it]];
          it := it + 1;
        }
        seen := seen + 1;
      }
      SweepEnds(ipMasks, kept, deleted, masks, seen, ipMask);

      ipMasks := ipMasks + [ipMask];
      added := true;
    }
  }

  // ----- Every run of AddIPMask calls -----

  function AddAll(masks: seq<string>, offered: seq<string>): seq<string> {
    if offered == [] then masks
    else Add(AddAll(masks, offered[..|offered| - 1]), offered[|offered| - 1])
  }

  ghost predicate Accepts(masks: seq<string>, address: string) {
    exists m :: m in masks && Match(m, address, true)
  }

  /** No mask matches another one. */
  ghost predicate Antichain(masks: seq<string>) {
    forall i, j | 0 <= i < |masks| && 0 <= j < |masks| && i != j :: !Match(masks[i], masks[j], true)
  }

  /** Dropping masks keeps them pairwise unrelated. */
  lemma {:induction false} UnmatchedAntichain(masks: seq<string>, mask: string)
    requires Antichain(masks)
    ensures Antichain(Unmatched(masks, mask))
  {
    if masks != [] {
      var front, last := masks[..|masks| - 1], masks[|masks| - 1];
      UnmatchedAntichain(front, mask);
      Members(front, mask);
      var kept := Unmatched(front, mask);
      forall i | 0 <= i < |kept|
        ensures !Match(kept[i], last, true) && !Match(last, kept[i], true)
      {
        assert kept[i] in front;
      }
    }
  }

  lemma AddAntichain(masks: seq<string>, mask: string)
    requires Antichain(masks)
    ensures Antichain(Add(masks, mask))
  {
    if !Covered(masks, mask) {
      UnmatchedAntichain(masks, mask);
      Members(masks, mask);
      var kept := Unmatched(masks, mask);
      forall i | 0 <= i < |kept|
        ensures !Match(kept[i], mask, true) && !Match(mask, kept[i], true)
      {
        assert kept[i] in masks;
      }
    }
  }

  /** After any run, whatever the masks, none of those kept matches another. */
  lemma {:induction false} RunAntichain(offered: seq<string>)
    ensures Antichain(AddAll([], offered))
  {
    if offered != [] {
      RunAntichain(offered[..|offered| - 1]);
      AddAntichain(AddAll([], offered[..|offered| - 1]), offered[|offered| - 1]);
    }
  }

  ghost predicate NoQuestionMarks(masks: seq<string>) {
    forall m | m in masks :: '?' !in m
  }

  /** Adding a mask accepts one more language and gives none up. */
  lemma AddAccepts(masks: seq<string>, mask: string, address: string)
    requires NoQuestionMarks(masks) && '?' !in mask
    ensures NoQuestionMarks(Add(masks, mask))
    ensures Accepts(Add(masks, mask), address) <==> Accepts(masks, address) || Match(mask, address, true)
  {
    Members(masks, mask);
    if Covered(masks, mask) {
      if Match(mask, address, true) {
        var i :| 0 <= i < |masks| && Match(masks[i], mask, true);
        MatchIsTransitive(masks[i], mask, address, true);
      }
    } else {
      assert mask in Add(masks, mask);
      if Accepts(masks, address) {
        var m :| m in masks && Match(m, address, true);
        if Match(mask, m, true) {
          MatchIsTransitive(mask, m, address, true);
        } else {
          assert m in Add(masks, mask);
        }
      }
    }
  }

  /** After any run of masks of literals and `*`, exactly the addresses some offered mask
      accepts are accepted: rejected and deleted masks are never missed. */
  lemma {:induction false} RunAccepts(offered: seq<string>, address: string)
    requires NoQuestionMarks(offered)
    ensures NoQuestionMarks(AddAll([], offered))
    ensures Accepts(AddAll([], offered), address) <==> Accepts(offered, address)
  {
    if offered != [] {
      var front, last := offered[..|offered| - 1], offered[|offered| - 1];
      RunAccepts(front, address);
      AddAccepts(AddAll([], front), last, address);
      assert forall m :: m in offered <==> m in front || m == last;
    }
  }

  /** Any mask can be offered after this one without an address getting lost if and only if
      this one has no `?`. */
  lemma LosslessMask(mask: string)
    ensures '?' !in mask <==>
            forall later: string, address: string | '?' !in later ::
              Accepts(AddAll([], [mask, later]), address) <==> Accepts([mask, later], address)
  {
    if '?' !in mask {
      forall later: string, address: string | '?' !in later
        ensures Accepts(AddAll([], [mask, later]), address) <==> Accepts([mask, later], address)
      {
        RunAccepts([mask, later], address);
      }
    } else {
      var later, address := Starve(mask), Literals(mask);
      MatchesStarved(mask, true);
      StarvedHasNoQuestionMarks(mask);
      if Match(mask, address, true) {
        MatchIsLongEnough(mask, address, true);
      }
      AddTwo(mask, later);
      assert [mask][0] == mask && Covered([mask], later);
      assert later in [mask, later] && Accepts([mask, later], address);
      assert !Accepts([mask], address);
    }
  }

  lemma {:induction false} StarvedHasNoQuestionMarks(p: string)
    ensures '?' !in Starve(p)
  {
    if p != [] {
      StarvedHasNoQuestionMarks(p[1..]);
    }
  }

  lemma AddTwo(first: string, second: string)
    ensures AddAll([], [first, second]) == Add([first], second)
  {
    assert [first, second][..1] == [first];
    assert [first][..0] == [];
    assert AddAll([], [first]) == Add(AddAll([], []), first);
    assert Unmatched([], first) == [];
  }
}
