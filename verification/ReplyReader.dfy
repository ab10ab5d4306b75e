/** A client that reads replies by section 4.2 of RFC 959, and what it makes of the lines of
    src/ftp/controlimpl.cpp.
 */
module ReplyReader {
  import opened Strings
  import opened Wrappers
  import opened ControlReplies

  // ----- The client -----

  predicate Marked(line: string, code: int, mark: char)
    requires IsCode(code)
  {
    |line| >= 4 && line[..3] == Digits(code) && line[3] == mark
  }

  function Value(c: char): int
    requires IsDigit(c)
  {
    c as int - '0' as int
  }

  /** The code at the start of a line. */
  function LineCode(line: string): (r: Option<int>)
    ensures r.Some? ==> IsCode(r.value)
  {
    if |line| < 4 || !IsDigit(line[0]) || !IsDigit(line[1]) || !IsDigit(line[2]) || line[0] == '0' then None
    else Some(100 * Value(line[0]) + 10 * Value(line[1]) + Value(line[2]))
  }

  /** The first line from `k` on that ends a reply with this code. */
  function FinalAt(lines: seq<string>, code: int, k: nat): (r: nat)
    requires IsCode(code) && k <= |lines|
    ensures k <= r <= |lines| && (r < |lines| ==> Marked(lines[r], code, ' '))
    ensures forall i :: k <= i < r ==> !Marked(lines[i], code, ' ')
    decreases |lines| - k
  {
    if k == |lines| || Marked(lines[k], code, ' ') then k else FinalAt(lines, code, k + 1)
  }

  /** The code and the number of lines of the first reply. */
  function ReadOne(lines: seq<string>): (r: Option<(int, nat)>)
    ensures r.Some? ==> 0 < r.value.1 <= |lines|
  {
    if lines == [] then None
    else
      match LineCode(lines[0])
      case None => None
      case Some(code) =>
        if lines[0][3] == ' ' then Some((code, 1))
        else if lines[0][3] == '-' then
          var n := FinalAt(lines, code, 1);
          if n < |lines| then Some((code, n + 1)) else None
        else None
  }

  function ReadAll(lines: seq<string>): Option<seq<(int, seq<string>)>>
    decreases |lines|
  {
    if lines == [] then Some([])
    else
      match ReadOne(lines)
      case None => None
      case Some((code, n)) =>
        match ReadAll(lines[n..])
        case None => None
        case Some(rest) => Some([(code, lines[..n])] + rest)
  }

  // ----- The lines of one reply -----

  ghost predicate Formed(g: Group) {
    && IsCode(g.code) && g.items != [] && AllSendable(g.items)
    && (forall i :: 0 <= i < |g.items| ==> g.items[i].code == NO_CODE || g.items[i].code == g.code)
    && (forall i :: 0 <= i < |g.items| - 1 ==> g.items[i].part)
    && g.items[|g.items| - 1].code == g.code && !g.items[|g.items| - 1].part
  }

  /** The first of several lines carries the code, or at least looks like it, and no line without a
      code looks like the final one. */
  ghost predicate Readable(g: Group)
    requires IsCode(g.code)
  {
    |g.items| == 1 ||
    (g.items != [] &&
     (g.items[0].code == NO_CODE ==> Marked(g.items[0].text, g.code, '-')) &&
     forall i :: 0 < i < |g.items| - 1 && g.items[i].code == NO_CODE ==> !Marked(g.items[i].text, g.code, ' '))
  }

  lemma DigitsRead(line: string, code: int)
    requires IsCode(code) && |line| >= 4
    ensures line[..3] == Digits(code) <==> LineCode(line) == Some(code)
  {
    ThreeDigits(code);
    LineDigits(line, code / 100, code / 10 % 10, code % 10);
  }

  lemma ThreeDigits(code: int)
    requires IsCode(code)
    ensures 0 < code / 100 < 10 && code == 100 * (code / 100) + 10 * (code / 10 % 10) + code % 10
  {
    assert code / 100 == code / 10 / 10;
  }

  lemma {:induction false} LineDigits(line: string, a: int, b: int, c: int)
    requires |line| >= 4 && 0 < a < 10 && 0 <= b < 10 && 0 <= c < 10
    ensures line[..3] == [Digit(a), Digit(b), Digit(c)] <==> LineCode(line) == Some(100 * a + 10 * b + c)
  {
    assert line[..3] == [line[0], line[1], line[2]];
    if LineCode(line).Some? {
      SameDigits(a, b, c, Value(line[0]), Value(line[1]), Value(line[2]));
    }
  }

  lemma SameDigits(a: int, b: int, c: int, x: int, y: int, z: int)
    requires 0 <= a < 10 && 0 <= b < 10 && 0 <= c < 10 && 0 <= x < 10 && 0 <= y < 10 && 0 <= z < 10
    ensures 100 * a + 10 * b + c == 100 * x + 10 * y + z <==> a == x && b == y && c == z
  {
  }

  lemma RenderedMark(item: Item)
    requires IsCode(item.code)
    ensures Marked(Render(item), item.code, if item.part then '-' else ' ')
  {
    assert Render(item)[..3] == Digits(item.code);
  }

  /** The client takes exactly the lines of a reply if and only if the reply is readable. */
  lemma ReadsGroup(g: Group, rest: seq<string>)
    requires Formed(g)
    ensures ReadOne(Lines(g.items) + rest) == Some((g.code, |g.items|)) <==> Readable(g)
  {
    var n := |g.items|;
    var lines := Lines(g.items) + rest;
    RenderedMark(g.items[n - 1]);
    DigitsRead(lines[n - 1], g.code);
    if n > 1 {
      if g.items[0].code != NO_CODE {
        RenderedMark(g.items[0]);
      }
      if |lines[0]| >= 4 {
        DigitsRead(lines[0], g.code);
      }
      forall i | 0 < i < n - 1
        ensures Marked(lines[i], g.code, ' ') <==> g.items[i].code == NO_CODE && Marked(g.items[i].text, g.code, ' ')
      {
        if g.items[i].code != NO_CODE {
          RenderedMark(g.items[i]);
        }
      }
    }
  }

  // ----- All replies -----

  ghost predicate AllFormed(groups: seq<Group>) {
    forall i :: 0 <= i < |groups| ==> Formed(groups[i])
  }

  ghost function Replies(groups: seq<Group>): seq<(int, seq<string>)>
    requires AllFormed(groups)
  {
    if groups == [] then []
    else [(groups[0].code, Lines(groups[0].items))] + Replies(groups[1..])
  }

  lemma {:induction false} ReadsFirst(first: seq<string>, more: seq<string>, code: int, replies: seq<(int, seq<string>)>)
    requires first != []
    ensures ReadAll(first + more) == Some([(code, first)] + replies) <==>
            ReadOne(first + more) == Some((code, |first|)) && ReadAll(more) == Some(replies)
  {
    var lines := first + more;
    assert lines[..|first|] == first && lines[|first|..] == more;
    var r := ReadOne(lines);
    if r.Some? {
      var (c, n) := r.value;
      var tail := ReadAll(lines[n..]);
      if tail.Some? && [(c, lines[..n])] + tail.value == [(code, first)] + replies {
        assert ([(c, lines[..n])] + tail.value)[0] == (code, first);
        assert |lines[..n]| == |first|;
        assert ([(c, first)] + tail.value)[1..] == ([(code, first)] + replies)[1..];
      }
    }
  }

  ghost predicate AllReadable(groups: seq<Group>)
    requires AllFormed(groups)
  {
    forall i :: 0 <= i < |groups| ==> Readable(groups[i])
  }

  lemma FirstReadable(groups: seq<Group>)
    requires AllFormed(groups) && groups != []
    ensures AllFormed(groups[1..])
    ensures AllReadable(groups) <==> Readable(groups[0]) && AllReadable(groups[1..])
  {
    if AllReadable(groups[1..]) {
      forall i | 0 < i < |groups|
        ensures Readable(groups[i])
      {
        assert groups[i] == groups[1..][i - 1];
      }
    }
  }

  /** The client recovers the replies, one for each group, if and only if all are readable. */
  lemma {:induction false} ReadsAll(groups: seq<Group>)
    requires AllFormed(groups)
    ensures ReadAll(Written(groups)) == Some(Replies(groups)) <==> AllReadable(groups)
  {
    if groups != [] {
      var g, rest := groups[0], groups[1..];
      FirstReadable(groups);
      ReadsGroup(g, Written(rest));
      ReadsAll(rest);
      ReadsFirst(Lines(g.items), Written(rest), g.code, Replies(rest));
    }
  }

  // ----- Runs -----

  ghost predicate CodedReplies(calls: seq<Call>) {
    forall i :: 0 <= i < |calls| && calls[i].Reply? ==> IsCode(calls[i].code)
  }

  function Finals(calls: seq<Call>): nat {
    if calls == [] then 0
    else Finals(calls[..|calls| - 1]) + if calls[|calls| - 1].Reply? then 1 else 0
  }

  ghost predicate Parts(items: seq<Item>) {
    forall i :: 0 <= i < |items| ==> items[i].part
  }

  ghost predicate HistoryFormed(h: History) {
    AllSendable(h.open) && Parts(h.open) && AllFormed(h.groups)
  }

  lemma RecordedFormed(h: History, call: Call)
    requires HistoryFormed(h) && Proper(call) && (call.Reply? ==> IsCode(call.code))
    requires OneCode(h.open + Shows(h, call))
    ensures HistoryFormed(Recorded(h, call))
  {
    if call.Reply? {
      LastFormed(h, call);
    }
  }

  /** One group for each final reply, each with its lines in the right form. */
  lemma {:induction false} GroupsFormed(calls: seq<Call>)
    requires AllProper(calls) && CodedReplies(calls) && Run(calls).Some?
    ensures HistoryFormed(Record(calls)) && |Record(calls).groups| == Finals(calls)
  {
    if calls != [] {
      var n := |calls| - 1;
      var h := Record(calls[..n]);
      GroupsFormed(calls[..n]);
      RunTracks(calls[..n]);
      StepKeepsTrack(Run(calls[..n]).value, h, calls[n]);
      RecordedFormed(h, calls[n]);
    }
  }

  lemma LastFormed(h: History, call: Call)
    requires Proper(call) && call.Reply? && IsCode(call.code) && AllSendable(h.open) && Parts(h.open)
    requires OneCode(h.open + Shows(h, call))
    ensures Formed(Group(call.code, h.open + Shows(h, call)))
  {
    var items := h.open + Shows(h, call);
    assert CodeOf(items) == call.code;
  }

  /** After a run that ends with a final reply and had no ProtocolError, the client has read one reply
      for each `Reply` call, with the lines written for it, if and only if all are readable. */
  lemma {:induction false} RunIsRecovered(calls: seq<Call>)
    requires AllProper(calls) && CodedReplies(calls) && Run(calls).Some?
    requires calls != [] && calls[|calls| - 1].Reply?
    ensures var groups := Record(calls).groups;
            && AllFormed(groups) && |groups| == Finals(calls)
            && (ReadAll(Run(calls).value.written) == Some(Replies(groups)) <==> AllReadable(groups))
  {
    RunTracks(calls);
    GroupsFormed(calls);
    var groups := Record(calls).groups;
    ReadsAll(groups);
    assert Written(groups) + Lines([]) == Written(groups);
  }

  /** What `h` adds to `was` with the mode on: `finals` replies of one line each, the first of them after what
      the reply under way had already sent. */
  ghost predicate OneLineEach(was: History, h: History, finals: nat) {
    var n := |was.groups|;
    && h.single && |h.groups| == n + finals && h.groups[..n] == was.groups
    && h.open == (if finals == 0 then was.open else [])
    && forall i :: n <= i < |h.groups| ==> |h.groups[i].items| == 1 + if i == n then |was.open| else 0
  }

  lemma OneMoreLine(was: History, h: History, finals: nat, call: Call)
    requires OneLineEach(was, h, finals) && Proper(call) && !call.SetSingleLine?
    ensures OneLineEach(was, Recorded(h, call), finals + if call.Reply? then 1 else 0)
  {
    if call.Reply? {
      assert |h.open + Shows(h, call)| == |h.open| + 1;
      assert Recorded(h, call).groups[..|was.groups|] == h.groups[..|was.groups|];
    } else {
      assert h.open + [] == h.open;
    }
  }

  /** Once the mode is on and stays on, each reply is one line. */
  lemma {:induction false} SingleLines(before: seq<Call>, after: seq<Call>)
    requires AllProper(before) && AllProper(after) && forall i :: 0 <= i < |after| ==> !after[i].SetSingleLine?
    ensures AllProper(before + [SetSingleLine(true)] + after)
    ensures OneLineEach(Record(before), Record(before + [SetSingleLine(true)] + after), Finals(after))
    decreases |after|
  {
    var on := before + [SetSingleLine(true)];
    if after == [] {
      assert on + after == on;
      RecordOneMore(before, SetSingleLine(true));
    } else {
      var front, call := after[..|after| - 1], after[|after| - 1];
      SingleLines(before, front);
      assert after == front + [call] && on + after == (on + front) + [call];
      RecordOneMore(on + front, call);
      OneMoreLine(Record(before), Record(on + front), Finals(front), call);
    }
  }

  lemma RecordOneMore(calls: seq<Call>, call: Call)
    requires AllProper(calls) && Proper(call)
    ensures AllProper(calls + [call]) && Record(calls + [call]) == Recorded(Record(calls), call)
  {
    assert (calls + [call])[..|calls|] == calls;
  }

  // ----- A run of three calls -----

  /** A run goes on as long as the lines of the reply under way have one code. */
  lemma RunOneMore(calls: seq<Call>, call: Call)
    requires AllProper(calls) && Proper(call) && Run(calls).Some?
    requires OneCode(Record(calls).open + Shows(Record(calls), call))
    ensures AllProper(calls + [call]) && Run(calls + [call]).Some?
    ensures Record(calls + [call]) == Recorded(Record(calls), call)
  {
    assert (calls + [call])[..|calls|] == calls;
    RecordOneMore(calls, call);
    RunTracks(calls);
    StepKeepsTrack(Run(calls).value, Record(calls), call);
  }

  lemma RunPart(calls: seq<Call>, code: int, text: string, open: seq<Item>)
    requires AllProper(calls) && Run(calls).Some? && Sendable(code) && '\n' !in text
    requires Record(calls) == History([], open, [], false) && OneCode(open + [Item(code, true, text)])
    ensures var more := calls + [PartReply(code, text)];
            AllProper(more) && Run(more).Some? && Record(more) == History([], open + [Item(code, true, text)], [], false)
  {
    SplitWhole(text, '\n');
    assert Shown(false, code, false, [text]) == [Item(code, true, text)];
    RunOneMore(calls, PartReply(code, text));
  }

  lemma RunReply(calls: seq<Call>, code: int, text: string, open: seq<Item>)
    requires AllProper(calls) && Run(calls).Some? && IsCode(code) && '\n' !in text
    requires Record(calls) == History([], open, [], false) && OneCode(open + [Item(code, false, text)])
    ensures var more := calls + [Reply(code, text)];
            && AllProper(more) && Run(more).Some?
            && Record(more).groups == [Group(code, open + [Item(code, false, text)])]
  {
    SplitWhole(text, '\n');
    assert Shown(false, code, true, [text]) == [Item(code, false, text)] && Shown(false, code, false, []) == [];
    assert [] + [Item(code, false, text)] == [Item(code, false, text)];
    RunOneMore(calls, Reply(code, text));
  }

  lemma RunThree(code: int, a: string, b: string, c: string)
    requires IsCode(code) && '\n' !in a && '\n' !in b && '\n' !in c
    ensures var calls := [PartReply(code, a)] + [PartReply(NO_CODE, b)] + [Reply(code, c)];
            && AllProper(calls) && Run(calls).Some?
            && Record(calls).groups == [Group(code, [Item(code, true, a)] + [Item(NO_CODE, true, b)] + [Item(code, false, c)])]
  {
    var x, y := Item(code, true, a), Item(NO_CODE, true, b);
    OneCodeThree(x, y, Item(code, false, c));
    FirstPart(code, a);
    RunPart([PartReply(code, a)], NO_CODE, b, [x]);
    RunReply([PartReply(code, a)] + [PartReply(NO_CODE, b)], code, c, [x] + [y]);
  }

  lemma FirstPart(code: int, text: string)
    requires IsCode(code) && '\n' !in text
    ensures var calls := [PartReply(code, text)];
            AllProper(calls) && Run(calls).Some? && Record(calls) == History([], [Item(code, true, text)], [], false)
  {
    var calls: seq<Call>, open: seq<Item> := [], [];
    assert open + [Item(code, true, text)] == [Item(code, true, text)];
    RunPart(calls, code, text, open);
    assert calls + [PartReply(code, text)] == [PartReply(code, text)];
  }

  lemma OneCodeThree(x: Item, y: Item, z: Item)
    requires x.code == z.code != NO_CODE && y.code == NO_CODE
    ensures OneCode([x] + [y]) && OneCode([x] + [y] + [z])
  {
    var two := [x] + [y];
    assert two[..1] == [x] && CodeOf(two) == CodeOf([x]);
    assert (two + [z])[|two + [z]| - 1] == z;
  }
}
