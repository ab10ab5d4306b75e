/** chmod mode strings: `Apply` of src/fs/mode.cpp. */
module ModeChanges {
  // A mode is the set of the numbers of its one bits, so `a & b` is an intersection, `a | b` a union
  // and `a & ~b` a difference.

  type Bits = set<nat>

  datatype Operator = Plus | Minus | Equals
  datatype Kind = Normal | Copy
  datatype Change = Change(op: Operator, kind: Kind, affected: Bits, value: Bits)

  const USER: Bits := {6, 7, 8}      // S_IRWXU
  const GROUP: Bits := {3, 4, 5}     // S_IRWXG
  const OTHER: Bits := {0, 1, 2}     // S_IRWXO
  const READ: Bits := {2, 5, 8}      // S_IRUSR | S_IRGRP | S_IROTH
  const WRITE: Bits := {1, 4, 7}     // S_IWUSR | S_IWGRP | S_IWOTH
  const EXECUTE: Bits := {0, 3, 6}   // S_IXUSR | S_IXGRP | S_IXOTH
  const PERMISSIONS: Bits := USER + GROUP + OTHER

  /** A permission found in one class is granted to all three. */
  function Spread(value: Bits): Bits {
    value
    + (if value * READ != {} then READ else {})
    + (if value * WRITE != {} then WRITE else {})
    + (if value * EXECUTE != {} then EXECUTE else {})
  }

  function EffectiveValue(m: Bits, umask: Bits, c: Change): Bits {
    var value := if c.kind.Copy? then Spread(c.value * m) else c.value;
    if c.affected != {} then value * c.affected else value - umask
  }

  function ApplyOne(m: Bits, umask: Bits, c: Change): Bits {
    var value := EffectiveValue(m, umask, c);
    match c.op
    case Equals => (m - c.affected) + value
    case Plus => m + value
    case Minus => m - value
  }

  function ApplyAll(m: Bits, umask: Bits, changes: seq<Change>): Bits {
    if changes == [] then m
    else ApplyOne(ApplyAll(m, umask, changes[..|changes| - 1]), umask, changes[|changes| - 1])
  }

  method Apply(changes: seq<Change>, oldMode: Bits, umask: Bits) returns (newMode: Bits)
    ensures newMode == ApplyAll(oldMode, umask, changes)
  {
    newMode := oldMode;
    var i := 0;
    while i < |changes|
      invariant i <= |changes| && newMode == ApplyAll(oldMode, umask, changes[..i])
    {
      assert changes[..i + 1][..i] == changes[..i];
      var c := changes[i];
      var value := c.value;
      if c.kind.Copy? {
        value := value * newMode;
        value := Spread(value);
      }
      if c.affected != {} {
        value := value * c.affected;
      } else {
        value := value - umask;
      }
      match c.op {
        case Equals => newMode := (newMode - c.affected) + value;
        case Plus => newMode := newMode + value;
        case Minus => newMode := newMode - value;
      }
      i := i + 1;
    }
    assert changes[..i] == changes;
  }

  // ----- Without copies, a whole list is one set dropped and one set added -----

  datatype Masks = Masks(drop: Bits, add: Bits)

  function MaskOne(f: Masks, umask: Bits, c: Change): Masks {
    var value := if c.affected != {} then c.value * c.affected else c.value - umask;
    match c.op
    case Equals => Masks(f.drop + c.affected, (f.add - c.affected) + value)
    case Plus => Masks(f.drop, f.add + value)
    case Minus => Masks(f.drop + value, f.add - value)
  }

  function MaskAll(umask: Bits, changes: seq<Change>): Masks {
    if changes == [] then Masks({}, {})
    else MaskOne(MaskAll(umask, changes[..|changes| - 1]), umask, changes[|changes| - 1])
  }

  ghost predicate NoCopies(changes: seq<Change>) {
    forall c | c in changes :: c.kind.Normal?
  }

  /** The list acts as one `(m & keep) | set`, whatever the old mode. */
  lemma {:induction false} Collapses(m: Bits, umask: Bits, changes: seq<Change>)
    requires NoCopies(changes)
    ensures ApplyAll(m, umask, changes) == (m - MaskAll(umask, changes).drop) + MaskAll(umask, changes).add
  {
    if changes != [] {
      Collapses(m, umask, changes[..|changes| - 1]);
    }
  }

  /** Applying a mode without copies twice is applying it once. */
  lemma Idempotent(m: Bits, umask: Bits, changes: seq<Change>)
    requires NoCopies(changes)
    ensures ApplyAll(ApplyAll(m, umask, changes), umask, changes) == ApplyAll(m, umask, changes)
  {
    Collapses(m, umask, changes);
    Collapses(ApplyAll(m, umask, changes), umask, changes);
  }

  /** With copies it need not be: `u=g,g=o` moves the permissions along. */
  lemma CopiesMoveOn()
    ensures var changes := [Change(Equals, Copy, USER, GROUP), Change(Equals, Copy, GROUP, OTHER)];
            var once := ApplyAll({5}, {}, changes);
            once == {8} && ApplyAll(once, {}, changes) == {}
  {
    var u, g := Change(Equals, Copy, USER, GROUP), Change(Equals, Copy, GROUP, OTHER);
    assert [u, g][..1] == [u] && [u][..0] == [];
    assert GROUP * {5} == {5} && GROUP * {8} == {} && OTHER * {5, 8} == {} && OTHER * {} == {};
    assert {5} * READ == {5} && {5} * WRITE == {} && {5} * EXECUTE == {};
    assert Spread({5}) == READ && Spread({}) == {};
    assert READ * USER == {8};
    assert ApplyOne({5}, {}, u) == {5, 8};
    assert ApplyOne({5, 8}, {}, g) == {8};
    assert ApplyOne({8}, {}, u) == {};
    assert ApplyOne({}, {}, g) == {};
    assert ApplyAll({5}, {}, [u]) == {5, 8};
    assert ApplyAll({8}, {}, [u]) == {};
  }

  /** The bit of permission `p` (0 for execute, 1 for write, 2 for read) of a class (0 for others,
      1 for the group, 2 for the owner). */
  function BitOf(class_: nat, p: nat): nat {
    3 * class_ + p
  }

  function ClassOf(class_: nat): Bits {
    {BitOf(class_, 0), BitOf(class_, 1), BitOf(class_, 2)}
  }

  lemma SpreadBits(value: Bits, b: nat, a: nat, p: nat)
    requires b < 3 && a < 3 && p < 3 && value <= ClassOf(b)
    ensures BitOf(a, p) in Spread(value) <==> BitOf(b, p) in value
  {
    var all := if p == 0 then EXECUTE else if p == 1 then WRITE else READ;
    assert BitOf(a, p) in all && BitOf(b, p) in all;
    assert value * all <= {BitOf(b, p)};
    assert value * all != {} <==> BitOf(b, p) in value * all;
  }

  /** A copy gives an affected class, permission by permission, what the class copied from has. */
  lemma CopyCopies(m: Bits, umask: Bits, op: Operator, affected: Bits, b: nat, a: nat, p: nat)
    requires a < 3 && b < 3 && p < 3 && BitOf(a, p) in affected
    ensures var granted := BitOf(b, p) in m;
            BitOf(a, p) in ApplyOne(m, umask, Change(op, Copy, affected, ClassOf(b))) <==>
            match op
            case Equals => granted
            case Plus => BitOf(a, p) in m || granted
            case Minus => BitOf(a, p) in m && !granted
  {
    SpreadBits(ClassOf(b) * m, b, a, p);
    assert BitOf(b, p) in ClassOf(b);
  }

  /** Without a class `=` never drops anything: it acts as `+`. */
  lemma EqualsWithoutClass(m: Bits, umask: Bits, c: Change)
    requires c.op.Equals? && c.affected == {}
    ensures ApplyOne(m, umask, c) == ApplyOne(m, umask, c.(op := Plus))
    ensures m <= ApplyOne(m, umask, c)
  {
  }

  // ----- Bits no change may touch, copies included -----

  lemma {:induction false} KeepsHighBits(m: Bits, umask: Bits, changes: seq<Change>)
    requires forall c | c in changes :: c.affected <= PERMISSIONS && c.value <= PERMISSIONS
    ensures ApplyAll(m, umask, changes) - PERMISSIONS == m - PERMISSIONS
  {
    if changes != [] {
      KeepsHighBits(m, umask, changes[..|changes| - 1]);
    }
  }

  function AffectedUnion(changes: seq<Change>): Bits {
    if changes == [] then {} else AffectedUnion(changes[..|changes| - 1]) + changes[|changes| - 1].affected
  }

  /** If every change names a class, no bit outside the named classes changes. */
  lemma {:induction false} StaysInClasses(m: Bits, umask: Bits, changes: seq<Change>)
    requires forall c | c in changes :: c.affected != {}
    ensures ApplyAll(m, umask, changes) - AffectedUnion(changes) == m - AffectedUnion(changes)
  {
    if changes != [] {
      var front, last := changes[..|changes| - 1], changes[|changes| - 1];
      StaysInClasses(m, umask, front);
      var before, after := ApplyAll(m, umask, front), ApplyAll(m, umask, changes);
      assert after - last.affected == before - last.affected;
      assert after - AffectedUnion(changes) == (after - last.affected) - AffectedUnion(front);
      assert m - AffectedUnion(changes) == (m - AffectedUnion(front)) - last.affected;
    }
  }
}
