/** When applying a mode of src/fs/mode.cpp twice is applying it once, copies included. */
module ModeIdempotence {
  import opened ModeChanges

  /** The bits of permission `p` in the three classes. */
  function Row(p: nat): Bits {
    {BitOf(0, p), BitOf(1, p), BitOf(2, p)}
  }

  lemma Rows()
    ensures Row(0) == EXECUTE && Row(1) == WRITE && Row(2) == READ
    ensures Row(0) + Row(1) + Row(2) == PERMISSIONS
  {
  }

  /** All bits of some of the classes. */
  function Classes(user: bool, group: bool, other: bool): Bits {
    (if user then USER else {}) + (if group then GROUP else {}) + (if other then OTHER else {})
  }

  /** Every class that has permission `p` in this mode, with all its bits. */
  function Widened(m: Bits, p: nat): Bits {
    Classes(BitOf(2, p) in m, BitOf(1, p) in m, BitOf(0, p) in m)
  }

  ghost predicate Within(changes: seq<Change>) {
    forall c | c in changes :: c.affected <= PERMISSIONS && c.value <= PERMISSIONS
  }

  ghost predicate IdempotentOn(m: Bits, umask: Bits, changes: seq<Change>) {
    ApplyAll(ApplyAll(m, umask, changes), umask, changes) == ApplyAll(m, umask, changes)
  }

  // ----- Each permission is on its own -----

  lemma SpreadRow(value: Bits, p: nat)
    requires p < 3
    ensures Spread(value) * Row(p) == if value * Row(p) != {} then Row(p) else {}
  {
    Rows();
    if p == 0 {
      assert READ * Row(0) == {} && WRITE * Row(0) == {};
    } else if p == 1 {
      assert READ * Row(1) == {} && EXECUTE * Row(1) == {};
    } else {
      assert WRITE * Row(2) == {} && EXECUTE * Row(2) == {};
    }
  }

  lemma OneIsLocal(m: Bits, n: Bits, umask: Bits, c: Change, p: nat)
    requires p < 3 && m * Row(p) == n * Row(p)
    ensures ApplyOne(m, umask, c) * Row(p) == ApplyOne(n, umask, c) * Row(p)
  {
    assert (c.value * m) * Row(p) == c.value * (m * Row(p)) == c.value * (n * Row(p)) == (c.value * n) * Row(p);
    SpreadRow(c.value * m, p);
    SpreadRow(c.value * n, p);
    var v, w := EffectiveValue(m, umask, c), EffectiveValue(n, umask, c);
    assert v * Row(p) == w * Row(p);
    RowOfEach(m, n, c.affected, v, w, Row(p));
  }

  lemma RowOfEach(m: Bits, n: Bits, affected: Bits, v: Bits, w: Bits, row: Bits)
    requires m * row == n * row && v * row == w * row
    ensures ((m - affected) + v) * row == ((n - affected) + w) * row
    ensures (m + v) * row == (n + w) * row && (m - v) * row == (n - w) * row
  {
    assert forall i :: i in row ==> (i in m <==> i in m * row) && (i in n <==> i in n * row);
    assert forall i :: i in row ==> (i in v <==> i in v * row) && (i in w <==> i in w * row);
  }

  /** What becomes of a permission depends on nothing but that permission, in all three classes. */
  lemma {:induction false} AllIsLocal(m: Bits, n: Bits, umask: Bits, changes: seq<Change>, p: nat)
    requires p < 3 && m * Row(p) == n * Row(p)
    ensures ApplyAll(m, umask, changes) * Row(p) == ApplyAll(n, umask, changes) * Row(p)
  {
    if changes != [] {
      var front, last := changes[..|changes| - 1], changes[|changes| - 1];
      AllIsLocal(m, n, umask, front, p);
      OneIsLocal(ApplyAll(m, umask, front), ApplyAll(n, umask, front), umask, last, p);
    }
  }

  lemma WidenedRow(m: Bits, p: nat)
    requires p < 3
    ensures Widened(m, p) * Row(p) == m * Row(p)
  {
  }

  lemma {:induction false} IdempotentRow(m: Bits, umask: Bits, changes: seq<Change>, p: nat)
    requires p < 3 && IdempotentOn(Widened(m, p), umask, changes)
    ensures ApplyAll(ApplyAll(m, umask, changes), umask, changes) * Row(p) == ApplyAll(m, umask, changes) * Row(p)
  {
    var w := Widened(m, p);
    WidenedRow(m, p);
    AllIsLocal(m, w, umask, changes, p);
    AllIsLocal(ApplyAll(m, umask, changes), ApplyAll(w, umask, changes), umask, changes, p);
  }

  /** Under a fixed umask, applying a mode twice is applying it once for every mode if and only if it is for the
      eight modes that give all permissions to some of the classes and none to the others. */
  lemma IdempotentIff(umask: Bits, changes: seq<Change>)
    requires Within(changes)
    ensures (forall m: Bits :: IdempotentOn(m, umask, changes)) <==>
            forall user: bool, group: bool, other: bool :: IdempotentOn(Classes(user, group, other), umask, changes)
  {
    if forall user: bool, group: bool, other: bool :: IdempotentOn(Classes(user, group, other), umask, changes) {
      forall m: Bits
        ensures IdempotentOn(m, umask, changes)
      {
        IdempotentRow(m, umask, changes, 0);
        IdempotentRow(m, umask, changes, 1);
        IdempotentRow(m, umask, changes, 2);
        var once := ApplyAll(m, umask, changes);
        KeepsHighBits(once, umask, changes);
        ByRows(ApplyAll(once, umask, changes), once);
      }
    }
  }

  lemma ByRows(a: Bits, b: Bits)
    requires a * Row(0) == b * Row(0) && a * Row(1) == b * Row(1) && a * Row(2) == b * Row(2)
    requires a - PERMISSIONS == b - PERMISSIONS
    ensures a == b
  {
    Rows();
    assert a == (a - PERMISSIONS) + a * Row(0) + a * Row(1) + a * Row(2);
    assert b == (b - PERMISSIONS) + b * Row(0) + b * Row(1) + b * Row(2);
  }

  // ----- A single change -----

  /** The bits a change may write. */
  predicate Scope(umask: Bits, c: Change, i: nat) {
    if c.affected != {} then i in c.affected else i !in umask
  }

  /** What a copy does to bit `i` of permission `p`. */
  lemma CopyBit(m: Bits, umask: Bits, c: Change, p: nat, i: nat)
    requires c.kind.Copy? && p < 3 && i in Row(p)
    ensures var granted := c.value * (m * Row(p)) != {} && Scope(umask, c, i);
            i in ApplyOne(m, umask, c) <==>
            match c.op
            case Equals => (i in m && i !in c.affected) || granted
            case Plus => i in m || granted
            case Minus => i in m && !granted
  {
    SpreadRow(c.value * m, p);
    assert (c.value * m) * Row(p) == c.value * (m * Row(p));
    assert i in Spread(c.value * m) <==> i in Spread(c.value * m) * Row(p);
  }

  lemma {:induction false} OneCopyRow(m: Bits, umask: Bits, c: Change, p: nat)
    requires c.kind.Copy? && p < 3
    ensures ApplyOne(ApplyOne(m, umask, c), umask, c) * Row(p) == ApplyOne(m, umask, c) * Row(p)
  {
    var once := ApplyOne(m, umask, c);
    forall i | i in Row(p)
      ensures i in ApplyOne(once, umask, c) <==> i in once
    {
      CopyBit(m, umask, c, p, i);
      CopyBit(once, umask, c, p, i);
      StillGranted(m, umask, c, p);
    }
  }

  /** A first application grants a permission to nobody new, and, unless it takes it away, to no fewer. */
  lemma StillGranted(m: Bits, umask: Bits, c: Change, p: nat)
    requires c.kind.Copy? && p < 3
    ensures var once := ApplyOne(m, umask, c);
            var before, after := c.value * (m * Row(p)), c.value * (once * Row(p));
            && (after != {} ==> before != {})
            && (!c.op.Minus? && before != {} ==> after != {})
  {
    var once := ApplyOne(m, umask, c);
    forall i | i in Row(p)
      ensures i in once ==> i in m || c.value * (m * Row(p)) != {}
    {
      CopyBit(m, umask, c, p, i);
    }
    if i :| i in c.value * (once * Row(p)) {
      assert i in m ==> i in c.value * (m * Row(p));
    }
    if i :| i in c.value * (m * Row(p)) {
      CopyBit(m, umask, c, p, i);
      assert i in once ==> i in c.value * (once * Row(p));
    }
  }

  /** A single change is idempotent, so that it takes two for a copy to move permissions along. */
  lemma OneChange(m: Bits, umask: Bits, c: Change)
    requires Within([c])
    ensures IdempotentOn(m, umask, [c])
  {
    assert [c][..0] == [];
    assert forall n :: ApplyAll(n, umask, [c]) == ApplyOne(n, umask, c);
    if c.kind.Normal? {
      Idempotent(m, umask, [c]);
    } else {
      var once := ApplyAll(m, umask, [c]);
      OneCopyRow(m, umask, c, 0);
      OneCopyRow(m, umask, c, 1);
      OneCopyRow(m, umask, c, 2);
      KeepsHighBits(once, umask, [c]);
      ByRows(ApplyAll(once, umask, [c]), once);
    }
  }
}
