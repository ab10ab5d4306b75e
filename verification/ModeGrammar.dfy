/** The grammar of symbolic mode strings, and the parser of src/fs/mode.cpp against it. */
module ModeGrammar {
  import opened Wrappers
  import opened ModeChanges

  // ----- The grammar: who* (op perm)+, separated by commas -----

  datatype Perm = CopyOf(class_: char) | Letters(rwx: string)
  datatype Action = Action(op: char, perm: Perm)
  datatype Clause = Clause(who: string, actions: seq<Action>)

  /** One action with the class letters of its clause. */
  datatype Item = Item(who: string, action: Action)

  predicate IsWho(c: char) { c == 'a' || c == 'u' || c == 'g' || c == 'o' }
  predicate IsOp(c: char) { c == '+' || c == '-' || c == '=' }
  predicate IsLetter(c: char) { c == 'r' || c == 'w' || c == 'x' }
  predicate IsClass(c: char) { c == 'u' || c == 'g' || c == 'o' }

  ghost predicate WellFormedAction(a: Action) {
    && IsOp(a.op)
    && match a.perm
       case CopyOf(c) => IsClass(c)
       case Letters(rwx) => forall i | 0 <= i < |rwx| :: IsLetter(rwx[i])
  }

  ghost predicate WellFormedActions(actions: seq<Action>) {
    forall a | a in actions :: WellFormedAction(a)
  }

  ghost predicate WellFormedClause(c: Clause) {
    && (forall i | 0 <= i < |c.who| :: IsWho(c.who[i]))
    && c.actions != []
    && WellFormedActions(c.actions)
  }

  ghost predicate WellFormed(clauses: seq<Clause>) {
    forall c | c in clauses :: WellFormedClause(c)
  }

  function PermText(p: Perm): string {
    match p
    case CopyOf(c) => [c]
    case Letters(rwx) => rwx
  }

  function ActionsText(actions: seq<Action>): string {
    if actions == [] then []
    else [actions[0].op] + PermText(actions[0].perm) + ActionsText(actions[1..])
  }

  function ClauseText(c: Clause): string {
    c.who + ActionsText(c.actions)
  }

  /** The clauses after the first one, each after its comma, then perhaps one more comma. */
  function TailText(clauses: seq<Clause>, trailing: bool): string {
    if clauses == [] then (if trailing then "," else "")
    else "," + ClauseText(clauses[0]) + TailText(clauses[1..], trailing)
  }

  function Text(clauses: seq<Clause>, trailing: bool): string
    requires clauses != []
  {
    ClauseText(clauses[0]) + TailText(clauses[1..], trailing)
  }

  // ----- What a mode string stands for -----

  function Bundle(x: bool, y: bool, z: bool, b0: Bits, b1: Bits, b2: Bits): Bits {
    (if x then b0 else {}) + (if y then b1 else {}) + (if z then b2 else {})
  }

  /** The bits of the classes named by at least one letter. */
  function Affected(who: string): Bits {
    var all := 'a' in who;
    Bundle(all || 'u' in who, all || 'g' in who, all || 'o' in who, USER, GROUP, OTHER)
  }

  function ClassBits(c: char): Bits {
    if c == 'u' then USER else if c == 'g' then GROUP else OTHER
  }

  function LettersValue(rwx: string): Bits {
    Bundle('r' in rwx, 'w' in rwx, 'x' in rwx, READ, WRITE, EXECUTE)
  }

  function OperatorOf(c: char): Operator {
    if c == '+' then Plus else if c == '-' then Minus else Equals
  }

  function Meaning(item: Item): Change {
    var op, affected := OperatorOf(item.action.op), Affected(item.who);
    match item.action.perm
    case CopyOf(c) => Change(op, Copy, affected, ClassBits(c))
    case Letters(rwx) => Change(op, Normal, affected, LettersValue(rwx))
  }

  function Meanings(items: seq<Item>): seq<Change> {
    seq(|items|, i requires 0 <= i < |items| => Meaning(items[i]))
  }

  function ActionItems(who: string, actions: seq<Action>): seq<Item> {
    if actions == [] then [] else [Item(who, actions[0])] + ActionItems(who, actions[1..])
  }

  function Items(clauses: seq<Clause>): seq<Item> {
    if clauses == [] then []
    else ActionItems(clauses[0].who, clauses[0].actions) + Items(clauses[1..])
  }

  // ----- The parser, on what is left of the string -----

  /** How many characters of the string are in the set, from the front. */
  function Span(s: string, f: char -> bool): (n: nat)
    ensures n <= |s| && (forall i | 0 <= i < n :: f(s[i])) && (n < |s| ==> !f(s[n]))
  {
    if s == [] || !f(s[0]) then 0 else 1 + Span(s[1..], f)
  }

  function Prepend(items: seq<Item>, rest: Option<seq<Item>>): Option<seq<Item>> {
    match rest
    case None => None
    case Some(more) => Some(items + more)
  }

  /** The permission after an operator, and how many characters it takes. */
  function PermAt(s: string): (r: (Perm, nat))
    ensures r.1 == |PermText(r.0)| <= |s| && PermText(r.0) == s[..r.1]
  {
    if s != [] && IsClass(s[0]) then (CopyOf(s[0]), 1)
    else var n := Span(s, IsLetter); (Letters(s[..n]), n)
  }

  function ParseClauses(s: string): Option<seq<Item>>
    decreases |s|, 1
  {
    if s == [] then Some([])
    else var n := Span(s, IsWho); ParseActions(s[..n], s[n..])
  }

  function ParseActions(who: string, s: string): Option<seq<Item>>
    decreases |s|, 0
  {
    if s == [] || !IsOp(s[0]) then None
    else
      var (perm, n) := PermAt(s[1..]);
      Prepend([Item(who, Action(s[0], perm))], AfterAction(who, s[1 + n..]))
  }

  function AfterAction(who: string, s: string): Option<seq<Item>>
    decreases |s|, 1
  {
    if s == [] then Some([])
    else if IsOp(s[0]) then ParseActions(who, s)
    else if s[0] == ',' then ParseClauses(s[1..])
    else None
  }

  function ParseSymbolic(s: string): Option<seq<Item>> {
    if s == [] then None else ParseClauses(s)
  }

  // ----- The parser accepts the grammar and nothing else -----

  /** What may follow a permission. */
  predicate Follows(s: string) {
    s == [] || s[0] == ',' || IsOp(s[0])
  }

  lemma {:induction false} SpanAll(a: string, b: string, f: char -> bool)
    requires forall i | 0 <= i < |a| :: f(a[i])
    requires b == [] || !f(b[0])
    ensures Span(a + b, f) == |a|
  {
    if a == [] {
      assert a + b == b;
    } else {
      assert (a + b)[1..] == a[1..] + b;
      SpanAll(a[1..], b, f);
    }
  }

  lemma PermParses(p: Perm, rest: string, op: char)
    requires WellFormedAction(Action(op, p)) && Follows(rest)
    ensures PermAt(PermText(p) + rest) == (p, |PermText(p)|)
  {
    var s := PermText(p) + rest;
    match p {
      case CopyOf(c) =>
      case Letters(rwx) =>
        SpanAll(rwx, rest, IsLetter);
        assert s[..|rwx|] == rwx;
        assert s != [] ==> !IsClass(s[0]) by {
          if rwx == [] { assert s == rest; } else { assert s[0] == rwx[0]; }
        }
    }
  }

  function ActionText(a: Action): string {
    [a.op] + PermText(a.perm)
  }

  lemma OneActionParses(who: string, a: Action, rest: string)
    requires WellFormedAction(a) && Follows(rest)
    ensures ParseActions(who, ActionText(a) + rest) ==
            Prepend([Item(who, a)], AfterAction(who, rest))
  {
    var s := ActionText(a) + rest;
    assert s[1..] == PermText(a.perm) + rest;
    PermParses(a.perm, rest, a.op);
    assert s[1 + |PermText(a.perm)|..] == rest;
  }

  lemma ActionsTextCons(actions: seq<Action>, tail: string)
    requires actions != []
    ensures ActionsText(actions) + tail == ActionText(actions[0]) + (ActionsText(actions[1..]) + tail)
  {
  }

  lemma {:induction false} ActionsParse(who: string, actions: seq<Action>, tail: string)
    requires actions != [] && WellFormedActions(actions)
    requires tail == [] || tail[0] == ','
    ensures ParseActions(who, ActionsText(actions) + tail) ==
            Prepend(ActionItems(who, actions), AfterAction(who, tail))
    decreases |actions|
  {
    var a, more := actions[0], actions[1..];
    var rest := ActionsText(more) + tail;
    ActionsTextCons(actions, tail);
    if more == [] {
      assert rest == tail;
      OneActionParses(who, a, rest);
      assert ActionItems(who, more) == [];
      assert ActionItems(who, actions) == [Item(who, a)];
    } else {
      assert rest[0] == more[0].op && WellFormedAction(more[0]);
      OneActionParses(who, a, rest);
      ActionsParse(who, more, tail);
      PrependTwice(Item(who, a), ActionItems(who, more), AfterAction(who, tail));
      assert ActionItems(who, actions) == [Item(who, a)] + ActionItems(who, more);
    }
  }

  lemma PrependTwice(c: Item, items: seq<Item>, rest: Option<seq<Item>>)
    ensures Prepend([c], Prepend(items, rest)) == Prepend([c] + items, rest)
  {
    if rest.Some? {
      assert [c] + (items + rest.value) == [c] + items + rest.value;
    }
  }

  lemma ClauseParses(c: Clause, tail: string)
    requires WellFormedClause(c)
    requires tail == [] || tail[0] == ','
    ensures ParseClauses(ClauseText(c) + tail) ==
            Prepend(ActionItems(c.who, c.actions), AfterAction(c.who, tail))
  {
    var rest := ActionsText(c.actions) + tail;
    assert ClauseText(c) + tail == c.who + rest;
    assert c.actions[0] in c.actions && rest[0] == c.actions[0].op;
    SpanAll(c.who, rest, IsWho);
    assert (c.who + rest)[..|c.who|] == c.who && (c.who + rest)[|c.who|..] == rest;
    ActionsParse(c.who, c.actions, tail);
  }

  lemma {:induction false} TailParses(clauses: seq<Clause>, trailing: bool, who: string)
    requires WellFormed(clauses)
    ensures AfterAction(who, TailText(clauses, trailing)) == Some(Items(clauses))
    decreases |clauses|
  {
    var s := TailText(clauses, trailing);
    if clauses == [] {
      assert trailing ==> s[1..] == [];
    } else {
      var tail := TailText(clauses[1..], trailing);
      assert s[1..] == ClauseText(clauses[0]) + tail;
      ClauseParses(clauses[0], tail);
      TailParses(clauses[1..], trailing, clauses[0].who);
    }
  }

  /** Every sentence of the grammar is accepted, with the items it is made of. */
  lemma Complete(clauses: seq<Clause>, trailing: bool)
    requires clauses != [] && WellFormed(clauses)
    ensures ParseSymbolic(Text(clauses, trailing)) == Some(Items(clauses))
  {
    assert clauses[0] in clauses && clauses[0].actions[0] in clauses[0].actions;
    TailParses(clauses[1..], trailing, clauses[0].who);
    ClauseParses(clauses[0], TailText(clauses[1..], trailing));
    assert Text(clauses, trailing) != [];
  }

  /** What an accepted string starts with: one well-formed action and a rest to go on with. */
  lemma FirstAction(who: string, s: string) returns (a: Action, rest: string)
    requires ParseActions(who, s).Some?
    ensures WellFormedAction(a) && s == ActionText(a) + rest
    ensures AfterAction(who, rest).Some?
  {
    var (perm, n) := PermAt(s[1..]);
    a, rest := Action(s[0], perm), s[1 + n..];
    SplitAfterOp(s, n);
  }

  lemma SplitAfterOp(s: string, n: nat)
    requires 1 + n <= |s|
    ensures s == [s[0]] + s[1..][..n] + s[1 + n..]
  {
  }

  lemma ConsActions(a: Action, more: seq<Action>, tail: string)
    ensures ActionText(a) + (ActionsText(more) + tail) == ActionsText([a] + more) + tail
  {
    ActionsTextCons([a] + more, tail);
    assert ([a] + more)[1..] == more;
  }

  lemma {:induction false} ActionsSound(who: string, s: string)
      returns (actions: seq<Action>, clauses: seq<Clause>, trailing: bool)
    requires ParseActions(who, s).Some?
    ensures actions != [] && WellFormedActions(actions) && WellFormed(clauses)
    ensures s == ActionsText(actions) + TailText(clauses, trailing)
    decreases |s|, 0
  {
    var a, rest := FirstAction(who, s);
    var more := [];
    if rest == [] {
      clauses, trailing := [], false;
    } else if IsOp(rest[0]) {
      more, clauses, trailing := ActionsSound(who, rest);
    } else {
      clauses, trailing := TailSound(rest);
    }
    actions := [a] + more;
    assert more == [] ==> ActionsText(more) + TailText(clauses, trailing) == rest;
    ConsActions(a, more, TailText(clauses, trailing));
  }

  lemma TailTextCons(clauses: seq<Clause>, trailing: bool)
    requires clauses != []
    ensures TailText(clauses, trailing) == "," + Text(clauses, trailing)
  {
  }

  lemma {:induction false} ClauseStart(s: string) returns (who: string, rest: string)
    requires s != [] && ParseClauses(s).Some?
    ensures s == who + rest && |rest| <= |s| && ParseActions(who, rest).Some?
    ensures forall i | 0 <= i < |who| :: IsWho(who[i])
  {
    var n := Span(s, IsWho);
    who, rest := s[..n], s[n..];
  }

  lemma TextCons(c: Clause, more: seq<Clause>, trailing: bool)
    ensures Text([c] + more, trailing) == c.who + (ActionsText(c.actions) + TailText(more, trailing))
  {
    assert ([c] + more)[1..] == more;
  }

  lemma {:induction false} TailSound(s: string) returns (clauses: seq<Clause>, trailing: bool)
    requires s != [] && s[0] == ',' && ParseClauses(s[1..]).Some?
    ensures WellFormed(clauses) && s == TailText(clauses, trailing)
    decreases |s|, 0
  {
    assert s == "," + s[1..];
    if s[1..] == [] {
      clauses, trailing := [], true;
    } else {
      clauses, trailing := ClausesSound(s[1..]);
      TailTextCons(clauses, trailing);
    }
  }

  lemma {:induction false} ClausesSound(s: string) returns (clauses: seq<Clause>, trailing: bool)
    requires s != [] && ParseClauses(s).Some?
    ensures clauses != [] && WellFormed(clauses) && s == Text(clauses, trailing)
    decreases |s|, 1
  {
    var who, rest := ClauseStart(s);
    var actions, more;
    actions, more, trailing := ActionsSound(who, rest);
    var c := Clause(who, actions);
    clauses := [c] + more;
    assert WellFormedClause(c);
    TextCons(c, more, trailing);
  }

  ghost predicate InGrammar(s: string) {
    exists clauses: seq<Clause>, trailing: bool ::
      clauses != [] && WellFormed(clauses) && s == Text(clauses, trailing)
  }

  /** The strings accepted are exactly the sentences of the grammar. */
  lemma AcceptsGrammar(s: string)
    ensures ParseSymbolic(s).Some? <==> InGrammar(s)
  {
    if ParseSymbolic(s).Some? {
      var clauses, trailing := ClausesSound(s);
    }
    if InGrammar(s) {
      var clauses: seq<Clause>, trailing: bool :|
        clauses != [] && WellFormed(clauses) && s == Text(clauses, trailing);
      Complete(clauses, trailing);
    }
  }

  // ----- Printing a change list -----

  /** What a compiled change looks like: whole classes, and whole letters or one class. */
  ghost predicate WellFormedChange(c: Change) {
    && (exists u, g, o :: c.affected == Bundle(u, g, o, USER, GROUP, OTHER))
    && match c.kind
       case Normal => exists r, w, x :: c.value == Bundle(r, w, x, READ, WRITE, EXECUTE)
       case Copy => c.value == USER || c.value == GROUP || c.value == OTHER
  }

  function Letter(present: bool, c: char): string {
    if present then [c] else ""
  }

  function WhoText(affected: Bits): string {
    Letter(8 in affected, 'u') + Letter(5 in affected, 'g') + Letter(2 in affected, 'o')
  }

  function LettersText(value: Bits): string {
    Letter(8 in value, 'r') + Letter(7 in value, 'w') + Letter(6 in value, 'x')
  }

  function OperatorChar(op: Operator): char {
    if op.Plus? then '+' else if op.Minus? then '-' else '='
  }

  function PrintAction(c: Change): Action {
    Action(OperatorChar(c.op),
           match c.kind
           case Normal => Letters(LettersText(c.value))
           case Copy => CopyOf(if 8 in c.value then 'u' else if 5 in c.value then 'g' else 'o'))
  }

  /** One clause per change. */
  function Print(changes: seq<Change>): seq<Clause> {
    if changes == [] then []
    else [Clause(WhoText(changes[0].affected), [PrintAction(changes[0])])] + Print(changes[1..])
  }

  lemma WhoInverts(b: Bits, u: bool, g: bool, o: bool)
    requires b == Bundle(u, g, o, USER, GROUP, OTHER)
    ensures Affected(WhoText(b)) == b
  {
    assert (8 in b <==> u) && (5 in b <==> g) && (2 in b <==> o);
    var t := WhoText(b);
    assert ('u' in t <==> u) && ('g' in t <==> g) && ('o' in t <==> o) && 'a' !in t;
  }

  lemma LettersInvert(b: Bits, r: bool, w: bool, x: bool)
    requires b == Bundle(r, w, x, READ, WRITE, EXECUTE)
    ensures LettersValue(LettersText(b)) == b
  {
    assert (8 in b <==> r) && (7 in b <==> w) && (6 in b <==> x);
    var t := LettersText(b);
    assert ('r' in t <==> r) && ('w' in t <==> w) && ('x' in t <==> x);
  }

  lemma {:induction false} PrintOneInverts(c: Change)
    requires WellFormedChange(c)
    ensures WellFormedAction(PrintAction(c)) && Meaning(Item(WhoText(c.affected), PrintAction(c))) == c
  {
    var u, g, o :| c.affected == Bundle(u, g, o, USER, GROUP, OTHER);
    WhoInverts(c.affected, u, g, o);
    if c.kind.Normal? {
      var r, w, x :| c.value == Bundle(r, w, x, READ, WRITE, EXECUTE);
      LettersInvert(c.value, r, w, x);
    }
  }

  lemma MeaningsCons(item: Item, more: seq<Item>)
    ensures Meanings([item] + more) == [Meaning(item)] + Meanings(more)
  {
  }

  lemma ItemsCons(who: string, a: Action, more: seq<Clause>)
    ensures Items([Clause(who, [a])] + more) == [Item(who, a)] + Items(more)
  {
    var c := Clause(who, [a]);
    assert ([c] + more)[1..] == more;
    assert [a][1..] == [];
    assert ActionItems(who, [a]) == [Item(who, a)] + ActionItems(who, []);
  }

  lemma {:induction false} PrintWellFormed(changes: seq<Change>)
    requires forall c | c in changes :: WellFormedChange(c)
    ensures WellFormed(Print(changes))
  {
    if changes != [] {
      PrintOneInverts(changes[0]);
      PrintWellFormed(changes[1..]);
    }
  }

  lemma {:induction false} PrintInverts(changes: seq<Change>)
    requires forall c | c in changes :: WellFormedChange(c)
    ensures Meanings(Items(Print(changes))) == changes
  {
    if changes != [] {
      var c, more := changes[0], Print(changes[1..]);
      PrintOneInverts(c);
      PrintInverts(changes[1..]);
      ItemsCons(WhoText(c.affected), PrintAction(c), more);
      MeaningsCons(Item(WhoText(c.affected), PrintAction(c)), Items(more));
    }
  }

  /** Compiling the printed form of a change list gives the list back. */
  lemma {:induction false} RoundTrip(changes: seq<Change>, trailing: bool)
    requires changes != [] && forall c | c in changes :: WellFormedChange(c)
    ensures Print(changes) != [] && ParseSymbolic(Text(Print(changes), trailing)) == Some(Items(Print(changes)))
    ensures Meanings(Items(Print(changes))) == changes
  {
    PrintWellFormed(changes);
    PrintInverts(changes);
    Complete(Print(changes), trailing);
  }

  ghost predicate WellFormedItem(item: Item) {
    (forall i | 0 <= i < |item.who| :: IsWho(item.who[i])) && WellFormedAction(item.action)
  }

  lemma {:induction false} ActionItemsWell(who: string, actions: seq<Action>)
    requires (forall i | 0 <= i < |who| :: IsWho(who[i])) && WellFormedActions(actions)
    ensures forall item | item in ActionItems(who, actions) :: WellFormedItem(item)
  {
    if actions != [] {
      assert WellFormedAction(actions[0]);
      ActionItemsWell(who, actions[1..]);
    }
  }

  lemma {:induction false} ItemsWell(clauses: seq<Clause>)
    requires WellFormed(clauses)
    ensures forall item | item in Items(clauses) :: WellFormedItem(item)
  {
    if clauses != [] {
      assert WellFormedClause(clauses[0]);
      ActionItemsWell(clauses[0].who, clauses[0].actions);
      ItemsWell(clauses[1..]);
    }
  }

  lemma MeaningWell(item: Item)
    requires WellFormedItem(item)
    ensures WellFormedChange(Meaning(item))
    ensures Meaning(item).affected <= PERMISSIONS && Meaning(item).value <= PERMISSIONS
  {
  }

  lemma MeaningsWell(items: seq<Item>)
    requires forall item | item in items :: WellFormedItem(item)
    ensures forall c | c in Meanings(items) ::
              WellFormedChange(c) && c.affected <= PERMISSIONS && c.value <= PERMISSIONS
  {
    forall i | 0 <= i < |items|
      ensures var c := Meanings(items)[i];
              WellFormedChange(c) && c.affected <= PERMISSIONS && c.value <= PERMISSIONS
    {
      assert items[i] in items;
      MeaningWell(items[i]);
    }
  }

  /** Everything compiled is well formed and within the permission bits, so that applying it
      leaves the other bits of a mode alone. */
  lemma CompiledIsWellFormed(s: string, m: Bits, umask: Bits)
    requires ParseSymbolic(s).Some?
    ensures var changes := Meanings(ParseSymbolic(s).value);
            && (forall c | c in changes :: WellFormedChange(c) && c.affected <= PERMISSIONS && c.value <= PERMISSIONS)
            && ApplyAll(m, umask, changes) - PERMISSIONS == m - PERMISSIONS
  {
    var clauses, trailing := ClausesSound(s);
    Complete(clauses, trailing);
    ItemsWell(clauses);
    MeaningsWell(Items(clauses));
    KeepsHighBits(m, umask, Meanings(Items(clauses)));
  }
}
