/** The replies on the control connection: `SendReply`, `PartReply`, `Reply` and `MultiReply` of
    src/ftp/controlimpl.cpp.
 */
module ControlReplies {
  import opened Wrappers
  import opened Strings
  import Sequences

  const DEFERRED := -2
  const NOT_SET := -1
  const NO_CODE := 0

  /** One line to send, without its line end. */
  datatype Item = Item(code: int, part: bool, text: string)

  datatype State = State(lastCode: int, single: bool, deferred: seq<string>, written: seq<string>)

  /** The reply codes of three digits. */
  predicate IsCode(code: int) {
    100 <= code <= 999
  }

  function Digit(n: int): char
    requires 0 <= n <= 9
  {
    '0' + n as char
  }

  function Digits(code: int): (r: string)
    requires IsCode(code)
    ensures |r| == 3
  {
    [Digit(code / 100), Digit(code / 10 % 10), Digit(code % 10)]
  }

  predicate Sendable(code: int) {
    code == NO_CODE || IsCode(code)
  }

  function Render(item: Item): string
    requires Sendable(item.code)
  {
    if item.code == NO_CODE then item.text
    else Digits(item.code) + (if item.part then "-" else " ") + item.text
  }

  /** The lines of a text. */
  function LinesOf(text: string): (r: seq<string>)
    ensures r != []
  {
    Split(text, '\n')
  }

  /** They make up the text, and each is one line. */
  lemma LinesOfText(text: string)
    ensures Join(LinesOf(text), '\n') == text
    ensures forall i :: 0 <= i < |LinesOf(text)| ==> '\n' !in LinesOf(text)[i]
  {
    SplitInverts(text, '\n');
    PiecesLackSeparator(text, '\n');
  }

  // ----- Sending -----

  predicate Clashes(lastCode: int, code: int) {
    lastCode != code && lastCode != NOT_SET && code != NO_CODE
  }

  /** One line, and whether there was no ProtocolError; the line is written in any case. */
  function SendOne(s: State, item: Item): (State, bool)
    requires Sendable(item.code)
  {
    if s.single && item.part then (s, true)
    else
      var t := s.(written := s.written + [Render(item)]);
      if Clashes(s.lastCode, item.code) then (t, false)
      else (if item.code != NO_CODE then t.(lastCode := item.code) else t, true)
  }

  /** The lines of one message; only the last of a final message is not a part. */
  function ItemsOf(code: int, final: bool, messages: seq<string>): (r: seq<Item>)
    ensures |r| == |messages|
  {
    seq(|messages|, i requires 0 <= i < |messages| => Item(code, !final || i < |messages| - 1, messages[i]))
  }

  ghost predicate Same(items: seq<Item>, code: int) {
    forall i :: 0 <= i < |items| ==> items[i].code == code
  }

  /** The first `n` lines, up to the first error. */
  ghost function SendAll(s: State, code: int, items: seq<Item>, n: nat): (State, bool)
    requires Sendable(code) && Same(items, code) && n <= |items|
  {
    if n == 0 then (s, true)
    else
      var (t, ok) := SendAll(s, code, items, n - 1);
      if ok then SendOne(t, items[n - 1]) else (t, false)
  }

  ghost function Send(s: State, code: int, final: bool, messages: seq<string>): (State, bool)
    requires Sendable(code)
  {
    SendAll(s, code, ItemsOf(code, final, messages), |messages|)
  }

  datatype Call = PartReply(code: int, text: string) | Reply(code: int, text: string) | SetSingleLine(on: bool)

  /** Calls that the asserts allow. */
  predicate Proper(call: Call) {
    match call
    case PartReply(code, _) => code == DEFERRED || Sendable(code)
    case Reply(code, _) => Sendable(code)
    case SetSingleLine(_) => true
  }

  ghost function Step(s: State, call: Call): (State, bool)
    requires Proper(call)
  {
    match call
    case SetSingleLine(on) => (s.(single := on), true)
    case PartReply(code, text) =>
      if code == DEFERRED then (s.(deferred := s.deferred + LinesOf(text)), true)
      else Send(s, code, false, LinesOf(text))
    case Reply(code, text) =>
      var (t, sent) := Send(s, code, false, s.deferred);
      if !sent then (t, false)
      else
        var (u, ok) := Send(t.(deferred := []), code, true, LinesOf(text));
        if ok then (u.(lastCode := NOT_SET), true) else (u, false)
  }

  class ControlImpl {
    var lastCode: int
    var singleLineReplies: bool
    var deferred: seq<string>
    /** What went to the socket. */
    var written: seq<string>

    ghost function View(): State
      reads this
    {
      State(lastCode, singleLineReplies, deferred, written)
    }

    constructor ()
      ensures View() == State(NOT_SET, false, [], [])
    {
      lastCode, singleLineReplies, deferred, written := NOT_SET, false, [], [];
    }

    method SetSingleLineReplies(on: bool)
      modifies this
      ensures (View(), true) == Step(old(View()), SetSingleLine(on))
    {
      singleLineReplies := on;
    }

    /** False stands for a ProtocolError. */
    method SendReply(code: int, part: bool, message: string) returns (ok: bool)
      requires Sendable(code)
      modifies this
      ensures (View(), ok) == SendOne(old(View()), Item(code, part, message))
    {
      if singleLineReplies && part {
        return true;
      }
      written := written + [Render(Item(code, part, message))];
      if lastCode != code && lastCode != NOT_SET && code != NO_CODE {
        return false;
      }
      if code != NO_CODE {
        lastCode := code;
      }
      return true;
    }

    method MultiReply(code: int, final: bool, messages: seq<string>) returns (ok: bool)
      requires Sendable(code) && messages != []
      modifies this
      ensures (View(), ok) == Send(old(View()), code, final, messages)
    {
      ghost var items := ItemsOf(code, final, messages);
      var i := 0;
      while i < |messages| - 1
        invariant 0 <= i <= |messages| - 1
        invariant (View(), true) == SendAll(old(View()), code, items, i)
      {
        var sent := SendReply(code, true, messages[i]);
        if !sent {
          SendStops(old(View()), code, items, i + 1, |items|);
          return false;
        }
        i := i + 1;
      }
      ok := SendReply(code, !final, messages[|messages| - 1]);
    }

    method PartReply(code: int, text: string) returns (ok: bool)
      requires Proper(Call.PartReply(code, text))
      modifies this
      ensures (View(), ok) == Step(old(View()), Call.PartReply(code, text))
    {
      if code == DEFERRED {
        deferred := deferred + LinesOf(text);
        return true;
      }
      ok := MultiReply(code, false, LinesOf(text));
    }

    method Reply(code: int, text: string) returns (ok: bool)
      requires Proper(Call.Reply(code, text))
      modifies this
      ensures (View(), ok) == Step(old(View()), Call.Reply(code, text))
    {
      if deferred != [] {
        var sent := MultiReply(code, false, deferred);
        if !sent {
          return false;
        }
        deferred := [];
      }
      ok := MultiReply(code, true, LinesOf(text));
      if ok {
        lastCode := NOT_SET;
      }
    }
  }

  lemma {:induction false} SendStops(s: State, code: int, items: seq<Item>, k: nat, n: nat)
    requires Sendable(code) && Same(items, code) && k <= n <= |items| && !SendAll(s, code, items, k).1
    ensures SendAll(s, code, items, n) == SendAll(s, code, items, k)
  {
    if k < n {
      SendStops(s, code, items, k, n - 1);
    }
  }

  // ----- One call as a whole -----

  /** The lines that reach the socket. */
  function Emitted(single: bool, items: seq<Item>): seq<Item> {
    if items == [] then []
    else
      var n := |items| - 1;
      Emitted(single, items[..n]) + if single && items[n].part then [] else [items[n]]
  }

  ghost predicate AllSendable(items: seq<Item>) {
    forall i :: 0 <= i < |items| ==> Sendable(items[i].code)
  }

  ghost function Lines(items: seq<Item>): (r: seq<string>)
    requires AllSendable(items)
    ensures |r| == |items|
    ensures forall i :: 0 <= i < |r| ==> r[i] == Render(items[i])
  {
    seq(|items|, i requires 0 <= i < |items| => Render(items[i]))
  }

  lemma {:induction false} EmittedSame(single: bool, items: seq<Item>, code: int)
    requires Same(items, code)
    ensures Same(Emitted(single, items), code)
  {
    if items != [] {
      EmittedSame(single, items[..|items| - 1], code);
    }
  }

  /** The state after a message without an error. */
  ghost function Sent(s: State, code: int, items: seq<Item>): State
    requires Sendable(code) && AllSendable(items)
  {
    s.(written := s.written + Lines(items), lastCode := if items == [] || code == NO_CODE then s.lastCode else code)
  }

  lemma SendNext(s: State, code: int, e: seq<Item>, item: Item)
    requires Sendable(code) && Same(e, code) && item.code == code && !(s.single && item.part)
    requires e == [] || !Clashes(s.lastCode, code)
    ensures AllSendable(e + [item])
    ensures SendOne(Sent(s, code, e), item) ==
            if Clashes(s.lastCode, code) then (s.(written := s.written + [Render(item)]), false)
            else (Sent(s, code, e + [item]), true)
  {
    assert Lines(e + [item]) == Lines(e) + [Render(item)];
    if e == [] {
      assert Lines(e) == [];
      assert s.written + [] + [Render(item)] == s.written + [Render(item)];
    }
    assert s.written + Lines(e) + [Render(item)] == s.written + (Lines(e) + [Render(item)]);
  }

  /** Only the first line can clash. */
  lemma {:induction false} SendAllIs(s: State, code: int, items: seq<Item>, n: nat)
    requires Sendable(code) && Same(items, code) && n <= |items|
    ensures var e := Emitted(s.single, items[..n]);
            && Same(e, code)
            && SendAll(s, code, items, n) ==
               if e != [] && Clashes(s.lastCode, code) then (s.(written := s.written + [Render(e[0])]), false)
               else (Sent(s, code, e), true)
  {
    EmittedSame(s.single, items[..n], code);
    if n > 0 {
      SendAllIs(s, code, items, n - 1);
      assert items[..n][..n - 1] == items[..n - 1];
      var e := Emitted(s.single, items[..n - 1]);
      EmittedSame(s.single, items[..n - 1], code);
      assert Emitted(s.single, items[..n]) == e + if s.single && items[n - 1].part then [] else [items[n - 1]];
      if s.single && items[n - 1].part {
        assert Emitted(s.single, items[..n]) == e;
      }
      if !(s.single && items[n - 1].part) && (e == [] || !Clashes(s.lastCode, code)) {
        SendNext(s, code, e, items[n - 1]);
      }
    } else {
      assert items[..0] == [] && s.written + Lines([]) == s.written;
    }
  }

  /** What a message sends: in single-line mode nothing but the last line of a final one. */
  function Shown(single: bool, code: int, final: bool, messages: seq<string>): (r: seq<Item>)
    requires final ==> messages != []
    ensures Same(r, code)
  {
    if !single then ItemsOf(code, final, messages)
    else if final then [Item(code, false, messages[|messages| - 1])]
    else []
  }

  lemma {:induction false} NoParts(items: seq<Item>)
    requires forall i :: 0 <= i < |items| ==> items[i].part
    ensures Emitted(true, items) == []
  {
    if items != [] {
      NoParts(items[..|items| - 1]);
    }
  }

  lemma {:induction false} AllItems(items: seq<Item>)
    ensures Emitted(false, items) == items
  {
    if items != [] {
      AllItems(items[..|items| - 1]);
    }
  }

  lemma EmittedIsShown(single: bool, code: int, final: bool, messages: seq<string>)
    requires final ==> messages != []
    ensures Emitted(single, ItemsOf(code, final, messages)) == Shown(single, code, final, messages)
  {
    var items := ItemsOf(code, final, messages);
    if !single {
      AllItems(items);
    } else {
      if final {
        NoParts(items[..|items| - 1]);
      } else {
        NoParts(items);
      }
    }
  }

  /** Sending a message either appends its lines or stops with an error at the first of them. */
  lemma SendIs(s: State, code: int, final: bool, messages: seq<string>)
    requires Sendable(code) && (final ==> messages != [])
    ensures var e := Shown(s.single, code, final, messages);
            Send(s, code, final, messages) ==
            if e != [] && Clashes(s.lastCode, code) then (s.(written := s.written + [Render(e[0])]), false)
            else (Sent(s, code, e), true)
  {
    var items := ItemsOf(code, final, messages);
    SendAllIs(s, code, items, |items|);
    EmittedIsShown(s.single, code, final, messages);
    assert items[..|items|] == items;
  }

  // ----- Runs of calls -----

  /** The lines of one reply, final line included. */
  datatype Group = Group(code: int, items: seq<Item>)

  /** What the calls so far asked for: complete replies, the lines of the next one, and the texts
      deferred to it. */
  datatype History = History(groups: seq<Group>, open: seq<Item>, deferred: seq<string>, single: bool)

  function Shows(h: History, call: Call): seq<Item>
    requires Proper(call)
  {
    match call
    case SetSingleLine(_) => []
    case PartReply(code, text) => if code == DEFERRED then [] else Shown(h.single, code, false, LinesOf(text))
    case Reply(code, text) =>
      Shown(h.single, code, false, h.deferred) + Shown(h.single, code, true, LinesOf(text))
  }

  function Texts(items: seq<Item>): seq<string> {
    seq(|items|, i requires 0 <= i < |items| => items[i].text)
  }

  /** A reply of several lines has all deferred texts, once and in order, before its own ones, and its
      last line is the only final one; nothing stays deferred. */
  lemma DeferredOnce(h: History, call: Call)
    requires call.Reply? && Proper(call) && !h.single
    ensures var items := Shows(h, call);
            && Texts(items) == h.deferred + LinesOf(call.text) && Recorded(h, call).deferred == []
            && forall i :: 0 <= i < |items| ==> items[i].part == (i < |items| - 1)
  {
    assert Shows(h, call) == ItemsOf(call.code, false, h.deferred) + ItemsOf(call.code, true, LinesOf(call.text));
  }

  function Recorded(h: History, call: Call): History
    requires Proper(call)
  {
    match call
    case SetSingleLine(on) => h.(single := on)
    case PartReply(code, text) =>
      if code == DEFERRED then h.(deferred := h.deferred + LinesOf(text))
      else h.(open := h.open + Shows(h, call))
    case Reply(code, text) => History(h.groups + [Group(code, h.open + Shows(h, call))], [], [], h.single)
  }

  /** The code that the coded lines use, going by the last of them. */
  function CodeOf(items: seq<Item>): int {
    if items == [] then NOT_SET
    else
      var item := items[|items| - 1];
      if item.code != NO_CODE then item.code else CodeOf(items[..|items| - 1])
  }

  /** No two lines have different codes. */
  ghost predicate OneCode(items: seq<Item>) {
    forall i :: 0 <= i < |items| ==> items[i].code == NO_CODE || items[i].code == CodeOf(items)
  }

  ghost function Written(groups: seq<Group>): seq<string>
    requires forall i :: 0 <= i < |groups| ==> AllSendable(groups[i].items)
  {
    if groups == [] then [] else Lines(groups[0].items) + Written(groups[1..])
  }

  ghost predicate HistorySendable(h: History) {
    AllSendable(h.open) && forall i :: 0 <= i < |h.groups| ==> AllSendable(h.groups[i].items)
  }

  ghost predicate Tracks(s: State, h: History) {
    && HistorySendable(h)
    && s.written == Written(h.groups) + Lines(h.open)
    && s.deferred == h.deferred && s.single == h.single
    && OneCode(h.open) && s.lastCode == CodeOf(h.open)
  }

  lemma {:induction false} WrittenAppend(groups: seq<Group>, group: Group)
    requires AllSendable(group.items) && forall i :: 0 <= i < |groups| ==> AllSendable(groups[i].items)
    ensures forall i :: 0 <= i < |groups + [group]| ==> AllSendable((groups + [group])[i].items)
    ensures Written(groups + [group]) == Written(groups) + Lines(group.items)
  {
    var more := groups + [group];
    if groups != [] {
      WrittenAppend(groups[1..], group);
      assert more[1..] == groups[1..] + [group];
    } else {
      assert more[1..] == [];
    }
  }

  lemma LinesAppend(a: seq<Item>, b: seq<Item>)
    requires AllSendable(a) && AllSendable(b)
    ensures AllSendable(a + b) && Lines(a + b) == Lines(a) + Lines(b)
  {
  }

  /** The last code is that of some line. */
  lemma {:induction false} CodeOfIs(items: seq<Item>)
    ensures CodeOf(items) == NOT_SET || exists i :: 0 <= i < |items| && items[i].code == CodeOf(items) != NO_CODE
    ensures AllSendable(items) && CodeOf(items) == NOT_SET ==> Same(items, NO_CODE)
  {
    if items != [] {
      CodeOfIs(items[..|items| - 1]);
    }
  }

  lemma {:induction false} CodeOfAppend(a: seq<Item>, b: seq<Item>, code: int)
    requires Same(b, code)
    ensures CodeOf(a + b) == if b == [] || code == NO_CODE then CodeOf(a) else code
  {
    if b == [] {
      assert a + b == a;
    } else {
      var front := b[..|b| - 1];
      assert (a + b)[..|a + b| - 1] == a + front;
      CodeOfAppend(a, front, code);
    }
  }

  lemma OneCodeAppend(a: seq<Item>, b: seq<Item>, code: int)
    requires AllSendable(a) && OneCode(a) && Same(b, code) && b != []
    ensures OneCode(a + b) <==> !Clashes(CodeOf(a), code)
  {
    CodeOfIs(a);
    CodeOfAppend(a, b, code);
    if Clashes(CodeOf(a), code) {
      var i :| 0 <= i < |a| && a[i].code == CodeOf(a);
      assert (a + b)[i] == a[i] && (a + b)[|a|] == b[0];
    }
  }

  lemma ReplyIs(s: State, call: Call)
    requires Proper(call) && call.Reply?
    ensures var h := History([], [], s.deferred, s.single);
            var (t, ok) := Step(s, call);
            && Shows(h, call) != [] && Same(Shows(h, call), call.code)
            && (ok <==> !Clashes(s.lastCode, call.code))
            && (ok ==> t == State(NOT_SET, s.single, [], s.written + Lines(Shows(h, call))))
  {
    var code, messages := call.code, LinesOf(call.text);
    var d := Shown(s.single, code, false, s.deferred);
    var f := Shown(s.single, code, true, messages);
    SendIs(s, code, false, s.deferred);
    if d == [] || !Clashes(s.lastCode, code) {
      var u := Sent(s, code, d).(deferred := []);
      SendIs(u, code, true, messages);
      SentTwice(s, code, d, f);
    }
  }

  lemma SentTwice(s: State, code: int, d: seq<Item>, f: seq<Item>)
    requires Sendable(code) && AllSendable(d) && AllSendable(f)
    ensures AllSendable(d + f)
    ensures Sent(Sent(s, code, d).(deferred := []), code, f).(lastCode := NOT_SET)
            == State(NOT_SET, s.single, [], s.written + Lines(d + f))
  {
    LinesAppend(d, f);
    assert s.written + Lines(d) + Lines(f) == s.written + (Lines(d) + Lines(f));
  }

  lemma {:induction false} OpenGrows(s: State, h: History, e: seq<Item>, code: int)
    requires Tracks(s, h) && Sendable(code) && Same(e, code) && OneCode(h.open + e)
    ensures Tracks(Sent(s, code, e), h.(open := h.open + e))
  {
    CodeOfAppend(h.open, e, code);
    LinesAppend(h.open, e);
    Sequences.Regroup(Written(h.groups), Lines(h.open), Lines(e));
    assert HistorySendable(h.(open := h.open + e));
  }

  lemma GroupCloses(s: State, h: History, e: seq<Item>, code: int)
    requires Tracks(s, h) && Sendable(code) && Same(e, code)
    ensures Tracks(State(NOT_SET, s.single, [], s.written + Lines(e)),
                   History(h.groups + [Group(code, h.open + e)], [], [], h.single))
  {
    var t := History(h.groups + [Group(code, h.open + e)], [], [], h.single);
    LinesAppend(h.open, e);
    WrittenAppend(h.groups, Group(code, h.open + e));
    Sequences.Regroup(Written(h.groups), Lines(h.open), Lines(e));
    assert HistorySendable(t);
    NothingMore(Written(t.groups));
  }

  lemma NothingMore(w: seq<string>)
    ensures w + Lines([]) == w
  {
  }

  lemma PartKeepsTrack(s: State, h: History, call: Call)
    requires Tracks(s, h) && Proper(call) && call.PartReply? && call.code != DEFERRED
    ensures var (t, ok) := Step(s, call);
            && (ok <==> OneCode(h.open + Shows(h, call)))
            && (ok ==> Tracks(t, Recorded(h, call)))
  {
    var e := Shows(h, call);
    SendIs(s, call.code, false, LinesOf(call.text));
    if e == [] {
      assert h.open + e == h.open;
    } else {
      OneCodeAppend(h.open, e, call.code);
    }
    if OneCode(h.open + e) {
      OpenGrows(s, h, e, call.code);
    }
  }

  lemma {:induction false} ReplyKeepsTrack(s: State, h: History, call: Call)
    requires Tracks(s, h) && Proper(call) && call.Reply?
    ensures var (t, ok) := Step(s, call);
            && (ok <==> OneCode(h.open + Shows(h, call)))
            && (ok ==> Tracks(t, Recorded(h, call)))
  {
    var e := Shows(h, call);
    ReplyIs(s, call);
    assert e == Shows(History([], [], s.deferred, s.single), call);
    OneCodeAppend(h.open, e, call.code);
    GroupCloses(s, h, e, call.code);
  }

  /** A call succeeds exactly when the lines of the reply under way still have one code. */
  lemma {:induction false} StepKeepsTrack(s: State, h: History, call: Call)
    requires Tracks(s, h) && Proper(call)
    ensures var (t, ok) := Step(s, call);
            && (ok <==> OneCode(h.open + Shows(h, call)))
            && (ok ==> Tracks(t, Recorded(h, call)))
  {
    if call.PartReply? && call.code != DEFERRED {
      PartKeepsTrack(s, h, call);
    } else if call.Reply? {
      ReplyKeepsTrack(s, h, call);
    } else {
      assert h.open + [] == h.open;
    }
  }

  ghost predicate AllProper(calls: seq<Call>) {
    forall i :: 0 <= i < |calls| ==> Proper(calls[i])
  }

  /** None after a ProtocolError. */
  ghost function Run(calls: seq<Call>): Option<State>
    requires AllProper(calls)
  {
    if calls == [] then Some(State(NOT_SET, false, [], []))
    else
      var n := |calls| - 1;
      match Run(calls[..n])
      case None => None
      case Some(s) => var (t, ok) := Step(s, calls[n]); if ok then Some(t) else None
  }

  function Record(calls: seq<Call>): History
    requires forall i :: 0 <= i < |calls| ==> Proper(calls[i])
  {
    if calls == [] then History([], [], [], false)
    else Recorded(Record(calls[..|calls| - 1]), calls[|calls| - 1])
  }

  lemma {:induction false} RunTracks(calls: seq<Call>)
    requires AllProper(calls) && Run(calls).Some?
    ensures Tracks(Run(calls).value, Record(calls))
    ensures forall i :: 0 <= i < |Record(calls).groups| ==> OneCode(Record(calls).groups[i].items)
  {
    if calls != [] {
      var n := |calls| - 1;
      RunTracks(calls[..n]);
      StepKeepsTrack(Run(calls[..n]).value, Record(calls[..n]), calls[n]);
    } else {
      assert [] + Lines([]) == [];
    }
  }
}
