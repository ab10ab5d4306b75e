/** The compiler of chmod mode strings of src/fs/mode.cpp. */
module ModeCompiler {
  import opened Strings
  import opened Wrappers
  import opened ModeChanges
  import opened ModeGrammar

  // ----- Numeric modes -----

  predicate IsOctal(c: char) { '0' <= c <= '7' }

  function Digit(c: char): nat
    requires IsOctal(c)
  {
    (c - '0') as nat
  }

  function Octal(s: string): nat
    requires forall i | 0 <= i < |s| :: IsOctal(s[i])
  {
    if s == [] then 0 else 8 * Octal(s[..|s| - 1]) + Digit(s[|s| - 1])
  }

  predicate NumericAllowed(s: string) {
    && (1 <= |s| <= 3 || (|s| == 4 && s[0] == '0'))
    && forall i | 0 <= i < |s| :: IsOctal(s[i])
  }

  function ParseNumeric(s: string): Option<nat> {
    if NumericAllowed(s) then Some(Octal(s)) else None
  }

  function Pow8(n: nat): nat {
    if n == 0 then 1 else 8 * Pow8(n - 1)
  }

  predicate AllOctal(s: string) {
    forall i | 0 <= i < |s| :: IsOctal(s[i])
  }

  lemma Weigh(d: nat, p: nat, rest: nat, last: nat)
    ensures 8 * (d * p + rest) + last == d * (8 * p) + (8 * rest + last)
  {
  }

  /** A leading digit weighs a power of eight. */
  lemma {:induction false} OctalLeading(c: char, s: string)
    requires IsOctal(c) && AllOctal(s)
    ensures AllOctal([c] + s) && Octal([c] + s) == Digit(c) * Pow8(|s|) + Octal(s)
  {
    var t := [c] + s;
    if s == [] {
      assert t[..0] == [];
    } else {
      var front, last := s[..|s| - 1], s[|s| - 1];
      OctalLeading(c, front);
      assert t[..|t| - 1] == [c] + front && t[|t| - 1] == last;
      Weigh(Digit(c), Pow8(|front|), Octal(front), Digit(last));
    }
  }

  /** One turn of the loop over the digits, from the right. */
  lemma OneMoreDigit(str: string, i: nat, sum: nat, factor: nat)
    requires 0 < i <= |str| && IsOctal(str[i - 1]) && AllOctal(str[i..])
    requires sum == Octal(str[i..]) && factor == Pow8(|str| - i)
    ensures AllOctal(str[i - 1..]) && Octal(str[i - 1..]) == sum + Digit(str[i - 1]) * factor
    ensures Pow8(|str| - i + 1) == factor * 8
  {
    assert [str[i - 1]] + str[i..] == str[i - 1..];
    OctalLeading(str[i - 1], str[i..]);
  }

  lemma NotNumeric(str: string, i: nat)
    requires i < |str| && !IsOctal(str[i])
    ensures ParseNumeric(str) == None
  {
  }

  lemma Numeric(str: string)
    requires AllOctal(str[0..]) && (1 <= |str| <= 3 || (|str| == 4 && str[0] == '0'))
    ensures AllOctal(str) && ParseNumeric(str) == Some(Octal(str[0..]))
  {
    assert str[0..] == str;
  }

  method NumericModeFromString(str: string) returns (value: Option<nat>)
    ensures value == ParseNumeric(str)
  {
    if |str| == 0 || (|str| > 3 && (|str| != 4 || str[0] != '0')) {
      return None;
    }
    assert str[|str|..] == [];
    var sum: nat, factor: nat := 0, 1;
    var i: nat := |str|;
    while i > 0
      invariant i <= |str| && factor == Pow8(|str| - i)
      invariant AllOctal(str[i..]) && sum == Octal(str[i..])
    {
      var c := str[i - 1];
      if c < '0' || c > '7' {
        NotNumeric(str, i - 1);
        return None;
      }
      OneMoreDigit(str, i, sum, factor);
      sum, factor := sum + Digit(c) * factor, factor * 8;
      i := i - 1;
    }
    Numeric(str);
    value := Some(sum);
  }

  /** The binary digits of a number. */
  function Bit(value: nat, i: nat): bool
    decreases i
  {
    if i == 0 then value % 2 == 1 else Bit(value / 2, i - 1)
  }

  /** The one bits of a 32-bit number. */
  function BitsOf(n: nat): Bits {
    set i: nat | i < 32 && Bit(n, i)
  }

  function Pow2(n: nat): nat {
    if n == 0 then 1 else 2 * Pow2(n - 1)
  }

  lemma {:induction false} BitBelow(n: nat, i: nat, k: nat)
    requires n < Pow2(k) && Bit(n, i)
    ensures i < k
    decreases i
  {
    if k == 0 {
      ZeroHasNoBits(i);
    } else if i > 0 {
      BitBelow(n / 2, i - 1, k - 1);
    }
  }

  lemma {:induction false} ZeroHasNoBits(i: nat)
    ensures !Bit(0, i)
    decreases i
  {
    if i > 0 {
      ZeroHasNoBits(i - 1);
    }
  }

  lemma {:induction false} OctalBelow(s: string)
    requires forall i | 0 <= i < |s| :: IsOctal(s[i])
    ensures Octal(s) < Pow8(|s|)
  {
    if s != [] {
      OctalBelow(s[..|s| - 1]);
    }
  }

  /** An accepted number is a permission set: at most 0777. */
  lemma NumericIsPermissions(s: string)
    requires NumericAllowed(s)
    ensures Octal(s) < 512 && BitsOf(Octal(s)) <= PERMISSIONS
  {
    if |s| == 4 {
      OctalLeading(s[0], s[1..]);
      OctalBelow(s[1..]);
      assert s == [s[0]] + s[1..];
    } else {
      OctalBelow(s);
    }
    assert Pow8(3) == 512 && Pow8(2) == 64 && Pow8(1) == 8;
    assert Pow2(9) == 512;
    forall i | i in BitsOf(Octal(s))
      ensures i in PERMISSIONS
    {
      BitBelow(Octal(s), i, 9);
    }
  }

  function NumericChange(value: nat): Change {
    Change(Equals, Normal, PERMISSIONS, BitsOf(value))
  }

  /** A numeric mode replaces the permission bits by its own, whatever the umask. */
  lemma NumericReplaces(s: string, m: Bits, umask: Bits)
    requires ParseNumeric(s).Some?
    ensures ApplyAll(m, umask, [NumericChange(ParseNumeric(s).value)]) ==
            (m - PERMISSIONS) + BitsOf(ParseNumeric(s).value)
  {
    NumericIsPermissions(s);
    var c := NumericChange(Octal(s));
    assert [c][..0] == [];
    assert 8 in PERMISSIONS;
  }

  // ----- The program -----

  function Compiled(s: string): Option<seq<Change>> {
    if s == [] then None
    else if IsDigit(s[0]) then
      match ParseNumeric(s)
      case None => None
      case Some(value) => Some([NumericChange(value)])
    else
      match ParseSymbolic(s)
      case None => None
      case Some(items) => Some(Meanings(items))
  }

  /** The loop over the class letters. */
  method ScanWho(str: string, start: nat) returns (affected: Bits, it: nat)
    requires start <= |str|
    ensures start <= it <= |str| && it == start + Span(str[start..], IsWho)
    ensures affected == Affected(str[start..it])
  {
    affected, it := {}, start;
    while it < |str| && IsWho(str[it])
      invariant start <= it <= |str|
      invariant forall i | start <= i < it :: IsWho(str[i])
      invariant affected == Affected(str[start..it])
    {
      assert str[start..it + 1] == str[start..it] + [str[it]];
      if str[it] == 'a' {
        affected := affected + PERMISSIONS;
      } else if str[it] == 'u' {
        affected := affected + USER;
      } else if str[it] == 'g' {
        affected := affected + GROUP;
      } else {
        affected := affected + OTHER;
      }
      it := it + 1;
    }
    SpanAll(str[start..it], str[it..], IsWho);
    assert str[start..] == str[start..it] + str[it..];
  }

  /** The loop over the permission letters. */
  method ScanLetters(str: string, start: nat) returns (value: Bits, it: nat)
    requires start <= |str|
    ensures start <= it <= |str| && it == start + Span(str[start..], IsLetter)
    ensures value == LettersValue(str[start..it])
  {
    value, it := {}, start;
    while it < |str| && IsLetter(str[it])
      invariant start <= it <= |str|
      invariant forall i | start <= i < it :: IsLetter(str[i])
      invariant value == LettersValue(str[start..it])
    {
      assert str[start..it + 1] == str[start..it] + [str[it]];
      if str[it] == 'r' {
        value := value + READ;
      } else if str[it] == 'w' {
        value := value + WRITE;
      } else {
        value := value + EXECUTE;
      }
      it := it + 1;
    }
    SpanAll(str[start..it], str[it..], IsLetter);
    assert str[start..] == str[start..it] + str[it..];
  }

  /** The kind and the bits that a permission stands for. */
  ghost predicate PermCompiled(perm: Perm, kind: Kind, value: Bits) {
    match perm
    case CopyOf(c) => kind == Copy && value == ClassBits(c)
    case Letters(rwx) => kind == Normal && value == LettersValue(rwx)
  }

  lemma ActionCompiled(who: string, op: char, perm: Perm, kind: Kind, value: Bits)
    requires PermCompiled(perm, kind, value)
    ensures Change(OperatorOf(op), kind, Affected(who), value) == Meaning(Item(who, Action(op, perm)))
  {
  }

  /** The permission after an operator. */
  method CompilePerm(str: string, start: nat) returns (kind: Kind, value: Bits, it: nat)
    requires start <= |str|
    ensures it == start + PermAt(str[start..]).1 <= |str|
    ensures PermCompiled(PermAt(str[start..]).0, kind, value)
  {
    kind, value, it := Copy, {}, start;
    if it == |str| {
      kind := Normal;
    } else if IsClass(str[it]) {
      value := ClassBits(str[it]);
      it := it + 1;
    } else {
      kind := Normal;
      value, it := ScanLetters(str, it);
      assert str[start..it] == str[start..][..it - start];
    }
  }

  lemma ActionAt(who: string, str: string, start: nat)
    requires start < |str| && IsOp(str[start])
    ensures var (perm, n) := PermAt(str[start + 1..]);
            ParseActions(who, str[start..]) ==
            Prepend([Item(who, Action(str[start], perm))], AfterAction(who, str[start + 1 + n..]))
  {
    var u := str[start..];
    assert u[1..] == str[start + 1..];
    var n := PermAt(u[1..]).1;
    assert u[1 + n..] == str[start + 1 + n..];
  }

  /** One operator and its permission. */
  method CompileAction(str: string, start: nat, affected: Bits, ghost who: string)
      returns (change: Change, it: nat, ghost item: Item)
    requires start < |str| && IsOp(str[start]) && affected == Affected(who)
    ensures start < it <= |str| && change == Meaning(item)
    ensures ParseActions(who, str[start..]) == Prepend([item], AfterAction(who, str[it..]))
  {
    var op := OperatorOf(str[start]);
    var kind, value;
    kind, value, it := CompilePerm(str, start + 1);
    ActionAt(who, str, start);
    ghost var perm := PermAt(str[start + 1..]).0;
    ActionCompiled(who, str[start], perm, kind, value);
    item := Item(who, Action(str[start], perm));
    change := Change(op, kind, affected, value);
  }

  /** The `do` loop: operators and permissions up to a comma or the end. */
  method CompileActions(str: string, start: nat, affected: Bits, ghost who: string, before: seq<Change>)
      returns (ok: bool, changes: seq<Change>, it: nat, ghost items: seq<Item>)
    requires start <= |str| && affected == Affected(who)
    ensures !ok ==> ParseActions(who, str[start..]).None?
    ensures ok ==> start < it <= |str| && (it < |str| ==> !IsOp(str[it]))
    ensures ok ==> changes == before + Meanings(items)
    ensures ok ==> ParseActions(who, str[start..]) == Prepend(items, AfterAction(who, str[it..]))
  {
    changes, it, items := before, start, [];
    var more := true;
    ghost var goal := ParseActions(who, str[start..]);
    PrependNothing(goal);
    while more
      invariant start <= it <= |str| && (!more ==> start < it)
      invariant changes == before + Meanings(items)
      invariant goal == Prepend(items, if more then ParseActions(who, str[it..]) else AfterAction(who, str[it..]))
      invariant !more && it < |str| ==> !IsOp(str[it])
      decreases |str| - it, more
    {
      if it == |str| || !IsOp(str[it]) {
        ok := false;
        return;
      }
      var change, next;
      ghost var item;
      change, next, item := CompileAction(str, it, affected, who);
      PrependMore(items, item, AfterAction(who, str[next..]));
      MeaningsAppend(before, items, [item]);
      assert Meanings([item]) == [change];
      changes := changes + [change];
      items := items + [item];
      it := next;
      more := it < |str| && IsOp(str[it]);
    }
    ok := true;
  }

  lemma PrependNothing(rest: Option<seq<Item>>)
    ensures Prepend([], rest) == rest
  {
    assert rest.Some? ==> [] + rest.value == rest.value;
  }

  lemma PrependToNothing(items: seq<Item>)
    ensures Prepend(items, Some([])) == Some(items)
  {
    assert items + [] == items;
  }

  lemma PrependMore(items: seq<Item>, item: Item, rest: Option<seq<Item>>)
    ensures Prepend(items, Prepend([item], rest)) == Prepend(items + [item], rest)
  {
    if rest.Some? {
      assert items + ([item] + rest.value) == items + [item] + rest.value;
    }
  }

  lemma PrependAll(a: seq<Item>, b: seq<Item>, rest: Option<seq<Item>>)
    ensures Prepend(a, Prepend(b, rest)) == Prepend(a + b, rest)
  {
    if rest.Some? {
      assert a + (b + rest.value) == a + b + rest.value;
    }
  }

  lemma MeaningsAppend(before: seq<Change>, a: seq<Item>, b: seq<Item>)
    ensures before + Meanings(a) + Meanings(b) == before + Meanings(a + b)
  {
  }

  lemma ClauseAt(str: string, it: nat, start: nat)
    requires it < |str| && start == it + Span(str[it..], IsWho)
    ensures ParseClauses(str[it..]) == ParseActions(str[it..start], str[start..])
  {
    var u, n := str[it..], start - it;
    assert u[..n] == str[it..start];
    assert u[n..] == str[start..];
  }

  /** What comes of the rest of the string after a clause that ends at `it`. */
  function AfterClause(str: string, it: nat): Option<seq<Item>>
    requires it <= |str|
  {
    if it == |str| then Some([]) else if str[it] == ',' then ParseClauses(str[it + 1..]) else None
  }

  lemma AfterActionAt(who: string, str: string, it: nat)
    requires it <= |str| && (it < |str| ==> !IsOp(str[it]))
    ensures AfterAction(who, str[it..]) == AfterClause(str, it)
  {
    assert it < |str| ==> str[it..][1..] == str[it + 1..];
  }

  /** The items read so far have been compiled onto `origin`, and `rest` is what is left. */
  ghost predicate Progress(origin: seq<Change>, goal: Option<seq<Item>>,
                           changes: seq<Change>, items: seq<Item>, rest: Option<seq<Item>>)
  {
    changes == origin + Meanings(items) && goal == Prepend(items, rest)
  }

  /** What is left from `it` on is still to be read. */
  ghost predicate Reading(str: string, it: nat, origin: seq<Change>, goal: Option<seq<Item>>, changes: seq<Change>, items: seq<Item>) {
    it <= |str| && Progress(origin, goal, changes, items, ParseClauses(str[it..]))
  }

  lemma Begun(str: string, origin: seq<Change>)
    ensures Reading(str, 0, origin, ParseClauses(str), origin, [])
  {
    assert str[0..] == str;
    PrependNothing(ParseClauses(str));
    assert origin + Meanings([]) == origin;
  }

  lemma Concluded(origin: seq<Change>, goal: Option<seq<Item>>, changes: seq<Change>, items: seq<Item>, rest: Option<seq<Item>>)
    requires Progress(origin, goal, changes, items, rest)
    ensures rest == None ==> goal == None
    ensures rest == Some([]) ==> goal == Some(items) && changes == origin + Meanings(goal.value)
  {
    PrependToNothing(items);
  }

  /** One pass of the outer loop, up to the comma. `items` is what was read so far. */
  method CompileClause(str: string, start: nat, before: seq<Change>,
                       ghost origin: seq<Change>, ghost goal: Option<seq<Item>>, ghost items: seq<Item>)
      returns (ok: bool, changes: seq<Change>, it: nat, ghost all: seq<Item>)
    requires start < |str| && Progress(origin, goal, before, items, ParseClauses(str[start..]))
    ensures !ok ==> goal.None?
    ensures ok ==> start < it <= |str| && Progress(origin, goal, changes, all, AfterClause(str, it))
  {
    var affected, first := ScanWho(str, start);
    ghost var who := str[start..first];
    ClauseAt(str, start, first);
    ghost var more;
    ok, changes, it, more := CompileActions(str, first, affected, who, before);
    all := items + more;
    if ok {
      AfterActionAt(who, str, it);
      MeaningsAppend(origin, items, more);
      PrependAll(items, more, AfterClause(str, it));
    }
  }

  /** The whole string has been read, with this result. */
  ghost predicate Done(origin: seq<Change>, goal: Option<seq<Item>>, ok: bool, changes: seq<Change>) {
    (ok <==> goal.Some?) && (ok ==> changes == origin + Meanings(goal.value))
  }

  lemma OneClauseRead(str: string, it: nat, origin: seq<Change>, goal: Option<seq<Item>>, changes: seq<Change>, items: seq<Item>)
    requires it <= |str| && Progress(origin, goal, changes, items, AfterClause(str, it))
    ensures it < |str| && str[it] == ',' ==> Reading(str, it + 1, origin, goal, changes, items)
    ensures it == |str| || str[it] != ',' ==> Done(origin, goal, it == |str|, changes)
  {
    Concluded(origin, goal, changes, items, AfterClause(str, it));
  }

  /** One clause and the comma after it; there are `more` only after a comma. */
  method CompileNext(str: string, start: nat, before: seq<Change>,
                     ghost origin: seq<Change>, ghost goal: Option<seq<Item>>, ghost items: seq<Item>)
      returns (ok: bool, changes: seq<Change>, it: nat, more: bool, ghost all: seq<Item>)
    requires start < |str| && Reading(str, start, origin, goal, before, items)
    ensures more ==> start < it && Reading(str, it, origin, goal, changes, all)
    ensures !more ==> Done(origin, goal, ok, changes)
  {
    ok, changes, it, all := CompileClause(str, start, before, origin, goal, items);
    more := ok && it < |str| && str[it] == ',';
    if ok {
      OneClauseRead(str, it, origin, goal, changes, all);
      ok := it == |str|;
      it := if more then it + 1 else it;
    }
  }

  lemma AllRead(str: string, origin: seq<Change>, goal: Option<seq<Item>>, changes: seq<Change>, items: seq<Item>)
    requires Reading(str, |str|, origin, goal, changes, items)
    ensures Done(origin, goal, true, changes)
  {
    assert str[|str|..] == [];
    Concluded(origin, goal, changes, items, Some([]));
  }

  /** The outer loop. */
  method CompileClauses(str: string, before: seq<Change>) returns (ok: bool, changes: seq<Change>)
    ensures Done(before, ParseClauses(str), ok, changes)
  {
    ghost var goal, items := ParseClauses(str), [];
    changes := before;
    var it := 0;
    var more: bool;
    Begun(str, before);
    while it < |str|
      invariant it <= |str| && Reading(str, it, before, goal, changes, items)
      decreases |str| - it
    {
      ok, changes, it, more, items := CompileNext(str, it, changes, before, goal, items);
      if !more {
        return;
      }
    }
    AllRead(str, before, goal, changes, items);
    ok := true;
  }

  class Mode {
    var changes: seq<Change>

    constructor ()
      ensures changes == []
    {
      changes := [];
    }

    /** `ok` is false where the original throws. */
    method CompileSymbolicMode(str: string) returns (ok: bool)
      modifies this
      ensures ok <==> ParseClauses(str).Some?
      ensures ok ==> changes == old(changes) + Meanings(ParseClauses(str).value)
    {
      ok, changes := CompileClauses(str, changes);
    }

    method Compile(str: string) returns (ok: bool)
      requires changes == []
      modifies this
      ensures ok <==> Compiled(str).Some?
      ensures ok ==> changes == Compiled(str).value
    {
      if str == [] {
        return false;
      }
      if IsDigit(str[0]) {
        var value := NumericModeFromString(str);
        if value.None? {
          return false;
        }
        changes := changes + [NumericChange(value.value)];
        ok := true;
      } else {
        ok := CompileSymbolicMode(str);
      }
    }

    method Apply(oldMode: Bits, umask: Bits) returns (newMode: Bits)
      ensures newMode == ApplyAll(oldMode, umask, changes)
    {
      newMode := ModeChanges.Apply(changes, oldMode, umask);
    }
  }
}
