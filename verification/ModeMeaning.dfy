/** What the mode strings of src/fs/mode.cpp do to a mode, permission by permission and letter by letter. */
module ModeMeaning {
  import opened Wrappers
  import opened ModeChanges
  import opened ModeGrammar
  import opened ModeCompiler
  import opened Strings

  /** The letter of a class: others, the group, the owner. */
  function ClassLetter(k: nat): char {
    if k == 0 then 'o' else if k == 1 then 'g' else 'u'
  }

  function PermissionLetter(p: nat): char {
    if p == 0 then 'x' else if p == 1 then 'w' else 'r'
  }

  predicate Names(who: string, k: nat) {
    'a' in who || ClassLetter(k) in who
  }

  // ----- The parts of a clause -----

  /** A permission of a class is affected if and only if the clause has the letter of the class or `a`. */
  lemma AffectedBits(who: string, k: nat, p: nat)
    requires k < 3 && p < 3
    ensures BitOf(k, p) in Affected(who) <==> Names(who, k)
  {
  }

  lemma LettersBits(rwx: string, k: nat, p: nat)
    requires k < 3 && p < 3
    ensures BitOf(k, p) in LettersValue(rwx) <==> PermissionLetter(p) in rwx
  {
  }

  // ----- Reference: one action on one permission of one class -----

  /** What the action is about: the permissions written, or those that the class written has in the mode so far. */
  predicate Listed(m: Bits, perm: Perm, p: nat) {
    match perm
    case Letters(rwx) => PermissionLetter(p) in rwx
    case CopyOf(c) => exists k | 0 <= k < 3 :: c == ClassLetter(k) && BitOf(k, p) in m
  }

  /** Where it is about it: in the classes written, or if there are none, where the umask lets it. */
  predicate Reached(umask: Bits, who: string, k: nat, p: nat) {
    if who == "" then BitOf(k, p) !in umask else Names(who, k)
  }

  predicate HasAfter(m: Bits, umask: Bits, item: Item, k: nat, p: nat) {
    var had := BitOf(k, p) in m;
    var meant := Listed(m, item.action.perm, p) && Reached(umask, item.who, k, p);
    if item.action.op == '+' then had || meant
    else if item.action.op == '-' then had && !meant
    else meant || (had && !Names(item.who, k))
  }

  function ItemApplied(m: Bits, umask: Bits, item: Item): Bits {
    (m - PERMISSIONS) + set k: nat, p: nat | k < 3 && p < 3 && HasAfter(m, umask, item, k, p) :: BitOf(k, p)
  }

  function ItemsApplied(m: Bits, umask: Bits, items: seq<Item>): Bits {
    if items == [] then m
    else ItemApplied(ItemsApplied(m, umask, items[..|items| - 1]), umask, items[|items| - 1])
  }

  // ----- The compiled changes do what the reference says -----

  lemma NamesSomebody(who: string)
    requires forall i | 0 <= i < |who| :: IsWho(who[i])
    ensures Affected(who) == {} <==> who == ""
  {
    if who != "" {
      assert who[0] in who;
      assert 0 in OTHER && 3 in GROUP && 6 in USER;
    }
  }

  lemma ValueBits(m: Bits, umask: Bits, item: Item, k: nat, p: nat)
    requires WellFormedItem(item) && k < 3 && p < 3
    ensures BitOf(k, p) in EffectiveValue(m, umask, Meaning(item)) <==>
            Listed(m, item.action.perm, p) && Reached(umask, item.who, k, p)
  {
    NamesSomebody(item.who);
    AffectedBits(item.who, k, p);
    match item.action.perm {
      case Letters(rwx) =>
        LettersBits(rwx, k, p);
      case CopyOf(c) =>
        CopiedBits(m, c, k, p);
    }
  }

  lemma CopiedBits(m: Bits, c: char, k: nat, p: nat)
    requires IsClass(c) && k < 3 && p < 3
    ensures BitOf(k, p) in Spread(ClassBits(c) * m) <==> Listed(m, CopyOf(c), p)
  {
    var b := if c == 'u' then 2 else if c == 'g' then 1 else 0;
    assert ClassBits(c) == ClassOf(b) && ClassLetter(b) == c;
    SpreadBits(ClassOf(b) * m, b, k, p);
    assert BitOf(b, p) in ClassOf(b);
  }

  lemma ItemBits(m: Bits, umask: Bits, item: Item, k: nat, p: nat)
    requires WellFormedItem(item) && k < 3 && p < 3
    ensures BitOf(k, p) in ApplyOne(m, umask, Meaning(item)) <==> HasAfter(m, umask, item, k, p)
  {
    ValueBits(m, umask, item, k, p);
    AffectedBits(item.who, k, p);
  }

  lemma ClassAndPermission(i: nat)
    requires i in PERMISSIONS
    ensures i / 3 < 3 && i % 3 < 3 && BitOf(i / 3, i % 3) == i
  {
  }

  lemma AppliedBit(m: Bits, umask: Bits, item: Item, k: nat, p: nat)
    requires k < 3 && p < 3
    ensures BitOf(k, p) in ItemApplied(m, umask, item) <==> HasAfter(m, umask, item, k, p)
  {
  }

  lemma SameBits(a: Bits, b: Bits)
    requires a - PERMISSIONS == b - PERMISSIONS
    requires forall k, p | 0 <= k < 3 && 0 <= p < 3 :: BitOf(k, p) in a <==> BitOf(k, p) in b
    ensures a == b
  {
    forall i: nat
      ensures i in a <==> i in b
    {
      assert i !in PERMISSIONS ==> (i in a <==> i in a - PERMISSIONS) && (i in b <==> i in b - PERMISSIONS);
      if i in PERMISSIONS {
        ClassAndPermission(i);
      }
    }
  }

  lemma ItemIs(m: Bits, umask: Bits, item: Item)
    requires WellFormedItem(item)
    ensures ApplyOne(m, umask, Meaning(item)) == ItemApplied(m, umask, item)
  {
    var a, b := ApplyOne(m, umask, Meaning(item)), ItemApplied(m, umask, item);
    HighBits(m, umask, item);
    HighBitsApplied(m, umask, item);
    forall k, p | 0 <= k < 3 && 0 <= p < 3
      ensures BitOf(k, p) in a <==> BitOf(k, p) in b
    {
      ItemBits(m, umask, item, k, p);
      AppliedBit(m, umask, item, k, p);
    }
    SameBits(a, b);
  }

  lemma HighBits(m: Bits, umask: Bits, item: Item)
    requires WellFormedItem(item)
    ensures ApplyOne(m, umask, Meaning(item)) - PERMISSIONS == m - PERMISSIONS
  {
    var c := Meaning(item);
    MeaningWell(item);
    assert EffectiveValue(m, umask, c) <= PERMISSIONS;
  }

  lemma HighBitsApplied(m: Bits, umask: Bits, item: Item)
    ensures ItemApplied(m, umask, item) - PERMISSIONS == m - PERMISSIONS
  {
    forall k: nat, p: nat | k < 3 && p < 3
      ensures BitOf(k, p) in PERMISSIONS
    {
    }
  }

  lemma {:induction false} ItemsAre(m: Bits, umask: Bits, items: seq<Item>)
    requires forall item | item in items :: WellFormedItem(item)
    ensures ApplyAll(m, umask, Meanings(items)) == ItemsApplied(m, umask, items)
  {
    if items != [] {
      var front := items[..|items| - 1];
      ItemsAre(m, umask, front);
      assert Meanings(items)[..|items| - 1] == Meanings(front);
      ItemIs(ItemsApplied(m, umask, front), umask, items[|items| - 1]);
    }
  }

  /** Compiling a sentence of the grammar and applying it does what its actions say, one after the other. */
  lemma SentenceMeans(clauses: seq<Clause>, trailing: bool, m: Bits, umask: Bits)
    requires clauses != [] && WellFormed(clauses)
    ensures var compiled := Compiled(Text(clauses, trailing));
            compiled.Some? && ApplyAll(m, umask, compiled.value) == ItemsApplied(m, umask, Items(clauses))
  {
    Complete(clauses, trailing);
    ItemsWell(clauses);
    ItemsAre(m, umask, Items(clauses));
    assert WellFormedClause(clauses[0]) && WellFormedAction(clauses[0].actions[0]);
    assert !IsDigit(Text(clauses, trailing)[0]);
  }

  lemma {:induction false} ItemsOfActions(who: string, actions: seq<Action>)
    ensures |ActionItems(who, actions)| == |actions|
    ensures forall item | item in ActionItems(who, actions) :: item.who == who
  {
    if actions != [] {
      ItemsOfActions(who, actions[1..]);
    }
  }

  /** Each change of a compiled clause affects exactly the classes that the clause has a letter of, or all with `a`. */
  lemma ClauseAffects(clause: Clause, k: nat, p: nat)
    requires WellFormedClause(clause) && k < 3 && p < 3
    ensures var compiled := Compiled(ClauseText(clause));
            && compiled.Some? && |compiled.value| == |clause.actions|
            && forall c | c in compiled.value :: BitOf(k, p) in c.affected <==> Names(clause.who, k)
  {
    var items := ActionItems(clause.who, clause.actions);
    Complete([clause], false);
    assert Items([clause]) == items + Items([]) == items;
    assert Text([clause], false) == ClauseText(clause) + [] == ClauseText(clause);
    assert WellFormedAction(clause.actions[0]);
    assert !IsDigit(ClauseText(clause)[0]);
    ItemsOfActions(clause.who, clause.actions);
    forall i | 0 <= i < |items|
      ensures BitOf(k, p) in Meanings(items)[i].affected <==> Names(clause.who, k)
    {
      assert items[i] in items;
      AffectedBits(clause.who, k, p);
    }
  }

  // ----- Letters that name the same classes -----

  ghost predicate SameMeaning(a: Option<seq<Item>>, b: Option<seq<Item>>) {
    (a.Some? <==> b.Some?) && (a.Some? ==> Meanings(a.value) == Meanings(b.value))
  }

  lemma {:induction false} SameActions(who: string, who': string, s: string)
    requires Affected(who) == Affected(who')
    ensures SameMeaning(ParseActions(who, s), ParseActions(who', s))
    decreases |s|
  {
    if s != [] && IsOp(s[0]) {
      var (perm, n) := PermAt(s[1..]);
      var a, rest := Action(s[0], perm), s[1 + n..];
      if rest != [] && IsOp(rest[0]) {
        SameActions(who, who', rest);
      }
      SamePrepended(Item(who, a), Item(who', a), AfterAction(who, rest), AfterAction(who', rest));
    }
  }

  lemma SamePrepended(a: Item, b: Item, rest: Option<seq<Item>>, rest': Option<seq<Item>>)
    requires Meaning(a) == Meaning(b) && SameMeaning(rest, rest')
    ensures SameMeaning(Prepend([a], rest), Prepend([b], rest'))
  {
    if rest.Some? {
      MeaningsCons(a, rest.value);
      MeaningsCons(b, rest'.value);
    }
  }

  /** Class letters that name the same classes compile to the same changes. */
  lemma NamesDecide(who: string, who': string, rest: string)
    requires who != "" && who' != "" && rest != "" && IsOp(rest[0])
    requires forall i | 0 <= i < |who| :: IsWho(who[i])
    requires forall i | 0 <= i < |who'| :: IsWho(who'[i])
    requires forall k | 0 <= k < 3 :: Names(who, k) <==> Names(who', k)
    ensures Compiled(who + rest) == Compiled(who' + rest)
  {
    assert Names(who, 0) <==> Names(who', 0);
    assert Names(who, 1) <==> Names(who', 1);
    assert Names(who, 2) <==> Names(who', 2);
    WhoFirst(who, rest);
    WhoFirst(who', rest);
    SameActions(who, who', rest);
  }

  lemma WhoFirst(who: string, rest: string)
    requires who != "" && rest != "" && IsOp(rest[0])
    requires forall i | 0 <= i < |who| :: IsWho(who[i])
    ensures var items := ParseActions(who, rest);
            Compiled(who + rest) == if items.Some? then Some(Meanings(items.value)) else None
  {
    SpanAll(who, rest, IsWho);
    assert (who + rest)[..|who|] == who && (who + rest)[|who|..] == rest;
    assert IsWho((who + rest)[0]);
  }

  /** The letter `a` stands for `ugo`. */
  lemma AllIsEverybody(rest: string)
    requires rest != "" && IsOp(rest[0])
    ensures Compiled("a" + rest) == Compiled("ugo" + rest)
  {
    NamesDecide("a", "ugo", rest);
  }

  // ----- Numeric modes -----

  /** The permissions that an octal digit grants. */
  predicate DigitGrants(c: char, p: nat) {
    if p == 0 then c in {'1', '3', '5', '7'}
    else if p == 1 then c in {'2', '3', '6', '7'}
    else c in {'4', '5', '6', '7'}
  }

  lemma {:induction false} OctalBit(s: string, k: nat, p: nat)
    requires AllOctal(s) && k < |s| && p < 3
    ensures Bit(Octal(s), BitOf(k, p)) <==> DigitGrants(s[|s| - 1 - k], p)
    decreases k
  {
    var front, last := s[..|s| - 1], s[|s| - 1];
    if k == 0 {
      LastDigit(Octal(front), last, p);
    } else {
      OctalBit(front, k - 1, p);
      ThreeBitsOn(Octal(front), Digit(last), BitOf(k - 1, p));
    }
  }

  lemma LastDigit(n: nat, last: char, p: nat)
    requires IsOctal(last) && p < 3
    ensures Bit(8 * n + Digit(last), p) <==> DigitGrants(last, p)
  {
    var x, d := 8 * n + Digit(last), Digit(last);
    DigitParity(last);
    if p == 0 {
      Parity(4 * n, d);
    } else if p == 1 {
      Parity(2 * n, d / 2);
      assert x / 2 == 2 * (2 * n) + d / 2;
      assert Bit(x, 1) == Bit(x / 2, 0);
    } else {
      Parity(n, d / 2 / 2);
      assert x / 2 / 2 == 2 * n + d / 2 / 2;
      assert Bit(x, 2) == Bit(x / 2, 1) && Bit(x / 2, 1) == Bit(x / 2 / 2, 0);
    }
  }

  lemma Parity(a: nat, b: nat)
    ensures (2 * a + b) % 2 == b % 2
  {
  }

  lemma DigitParity(c: char)
    requires IsOctal(c)
    ensures Digit(c) % 2 == 1 <==> DigitGrants(c, 0)
    ensures Digit(c) / 2 % 2 == 1 <==> DigitGrants(c, 1)
    ensures Digit(c) / 2 / 2 % 2 == 1 <==> DigitGrants(c, 2)
  {
    var d := Digit(c);
    assert c == '0' + d as char;
    assert d < 8;
  }

  lemma ThreeBitsOn(n: nat, d: nat, i: nat)
    requires d < 8
    ensures Bit(8 * n + d, i + 3) == Bit(n, i)
  {
    var x := 8 * n + d;
    assert x / 2 / 2 / 2 == n;
    assert Bit(x, i + 3) == Bit(x / 2, i + 2) && Bit(x / 2, i + 2) == Bit(x / 2 / 2, i + 1);
    assert Bit(x / 2 / 2, i + 1) == Bit(x / 2 / 2 / 2, i);
  }

  lemma {:induction false} NoDigit(s: string, i: nat)
    requires AllOctal(s) && i >= 3 * |s|
    ensures !Bit(Octal(s), i)
  {
    if s == [] {
      ZeroHasNoBits(i);
    } else {
      var front := s[..|s| - 1];
      NoDigit(front, i - 3);
      ThreeBitsOn(Octal(front), Digit(s[|s| - 1]), i - 3);
    }
  }

  /** A numeric mode grants each class what its own digit says, the digits of the owner, the group and the others
      being the last three in this order, and nothing to a class without a digit. */
  lemma NumberMeans(s: string, m: Bits, umask: Bits, k: nat, p: nat)
    requires NumericAllowed(s) && k < 3 && p < 3
    ensures Compiled(s).Some?
    ensures BitOf(k, p) in ApplyAll(m, umask, Compiled(s).value) <==> k < |s| && DigitGrants(s[|s| - 1 - k], p)
  {
    NumericReplaces(s, m, umask);
    if k < |s| {
      OctalBit(s, k, p);
    } else {
      NoDigit(s, BitOf(k, p));
    }
    assert IsDigit(s[0]);
    assert BitOf(k, p) in PERMISSIONS;
  }
}
