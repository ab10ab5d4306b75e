/** What a client reads of the replies of src/ftp/controlimpl.cpp, told from the calls and their texts alone. */
module ReplyTexts {
  import opened Strings
  import opened Wrappers
  import opened ControlReplies
  import opened ReplyReader

  // ----- What the calls ask for -----

  /** A line of a reply: whether it is to carry the code, and its text. */
  datatype Line = Line(coded: bool, text: string)

  datatype Message = Message(code: int, lines: seq<Line>)

  /** The replies asked for so far, the lines of the next one, and the texts deferred to it. */
  datatype Asked = Asked(messages: seq<Message>, open: seq<Line>, deferred: seq<string>, single: bool)

  function LinesWith(coded: bool, texts: seq<string>): seq<Line> {
    seq(|texts|, i requires 0 <= i < |texts| => Line(coded, texts[i]))
  }

  /** In single-line mode only the last line of a final text is wanted. */
  function AskedNext(a: Asked, call: Call): Asked {
    match call
    case SetSingleLine(on) => a.(single := on)
    case PartReply(code, text) =>
      if code == DEFERRED then a.(deferred := a.deferred + LinesOf(text))
      else if a.single then a
      else a.(open := a.open + LinesWith(code != NO_CODE, LinesOf(text)))
    case Reply(code, text) =>
      var own := LinesOf(text);
      var texts := if a.single then [own[|own| - 1]] else a.deferred + own;
      Asked(a.messages + [Message(code, a.open + LinesWith(code != NO_CODE, texts))], [], [], a.single)
  }

  function AskedBy(calls: seq<Call>): Asked {
    if calls == [] then Asked([], [], [], false)
    else AskedNext(AskedBy(calls[..|calls| - 1]), calls[|calls| - 1])
  }

  // ----- What the client reads -----

  /** The line that was read says this: its text, after the code and the mark if it carries them. */
  predicate Says(read: string, code: int, final: bool, line: Line) {
    if line.coded then
      |read| >= 4 && LineCode(read) == Some(code) && read[3] == (if final then ' ' else '-') && read[4..] == line.text
    else read == line.text
  }

  predicate Conveys(read: (int, seq<string>), message: Message) {
    && read.0 == message.code && |read.1| == |message.lines|
    && forall i | 0 <= i < |read.1| :: Says(read.1[i], message.code, i == |read.1| - 1, message.lines[i])
  }

  ghost predicate ConveysAll(read: Option<seq<(int, seq<string>)>>, messages: seq<Message>) {
    && read.Some? && |read.value| == |messages|
    && forall i | 0 <= i < |messages| :: Conveys(read.value[i], messages[i])
  }

  predicate LooksLike(text: string, code: int, mark: char) {
    |text| >= 4 && LineCode(text) == Some(code) && text[3] == mark
  }

  /** A reply of several lines can be told from the next one: its first line carries the code or looks like it, and
      no line without a code before the last one looks final. */
  ghost predicate Legible(m: Message) {
    |m.lines| == 1 ||
    (m.lines != [] &&
     (m.lines[0].coded || LooksLike(m.lines[0].text, m.code, '-')) &&
     forall i | 0 < i < |m.lines| - 1 && !m.lines[i].coded :: !LooksLike(m.lines[i].text, m.code, ' '))
  }

  // ----- One line -----

  lemma RenderedSays(item: Item, code: int, read: string)
    requires IsCode(code) && (item.code == code || item.code == NO_CODE)
    ensures Says(read, code, !item.part, LineFor(item)) <==> read == Render(item)
  {
    if item.code != NO_CODE {
      var r := Render(item);
      assert r[..3] == Digits(code) && r[4..] == item.text;
      DigitsRead(r, code);
      if |read| >= 4 {
        DigitsRead(read, code);
        assert read == read[..3] + [read[3]] + read[4..];
      }
    }
  }

  lemma MarkedLooks(text: string, code: int, mark: char)
    requires IsCode(code)
    ensures Marked(text, code, mark) <==> LooksLike(text, code, mark)
  {
    if |text| >= 4 {
      DigitsRead(text, code);
    }
  }

  // ----- The lines written are those asked for -----

  function LineFor(item: Item): Line {
    Line(item.code != NO_CODE, item.text)
  }

  function LinesFor(items: seq<Item>): seq<Line> {
    seq(|items|, i requires 0 <= i < |items| => LineFor(items[i]))
  }

  function MessagesFor(groups: seq<Group>): seq<Message> {
    seq(|groups|, i requires 0 <= i < |groups| => Message(groups[i].code, LinesFor(groups[i].items)))
  }

  function AskedFor(h: History): Asked {
    Asked(MessagesFor(h.groups), LinesFor(h.open), h.deferred, h.single)
  }

  lemma ShownAre(single: bool, code: int, final: bool, messages: seq<string>)
    requires final ==> messages != []
    ensures LinesFor(Shown(single, code, final, messages)) ==
            LinesWith(code != NO_CODE, if !single then messages else if final then [messages[|messages| - 1]] else [])
  {
  }

  lemma LinesForAppend(a: seq<Item>, b: seq<Item>)
    ensures LinesFor(a + b) == LinesFor(a) + LinesFor(b)
  {
  }

  lemma LinesWithAppend(coded: bool, a: seq<string>, b: seq<string>)
    ensures LinesWith(coded, a) + LinesWith(coded, b) == LinesWith(coded, a + b)
  {
  }

  lemma RecordedIsAsked(h: History, call: Call)
    requires Proper(call)
    ensures AskedFor(Recorded(h, call)) == AskedNext(AskedFor(h), call)
  {
    match call {
      case SetSingleLine(on) =>
      case PartReply(code, text) =>
        ShownAre(h.single, code, false, LinesOf(text));
        LinesForAppend(h.open, Shows(h, call));
      case Reply(code, text) =>
        ReplyIsAsked(h, code, text);
        LinesForAppend(h.open, Shows(h, call));
    }
  }

  lemma ReplyIsAsked(h: History, code: int, text: string)
    requires Proper(Reply(code, text))
    ensures var own := LinesOf(text);
            LinesFor(Shows(h, Reply(code, text))) ==
            LinesWith(code != NO_CODE, if h.single then [own[|own| - 1]] else h.deferred + own)
  {
    ShownAre(h.single, code, false, h.deferred);
    ShownAre(h.single, code, true, LinesOf(text));
    LinesForAppend(Shown(h.single, code, false, h.deferred), Shown(h.single, code, true, LinesOf(text)));
    LinesWithAppend(code != NO_CODE, h.deferred, LinesOf(text));
  }

  lemma {:induction false} RecordIsAsked(calls: seq<Call>)
    requires AllProper(calls)
    ensures AskedFor(Record(calls)) == AskedBy(calls)
  {
    if calls != [] {
      RecordIsAsked(calls[..|calls| - 1]);
      RecordedIsAsked(Record(calls[..|calls| - 1]), calls[|calls| - 1]);
    }
  }

  // ----- Every run -----

  lemma GroupConveyed(g: Group, read: (int, seq<string>))
    requires Formed(g)
    ensures Conveys(read, Message(g.code, LinesFor(g.items))) <==> read == (g.code, Lines(g.items))
  {
    var n, lines := |g.items|, Lines(g.items);
    if |read.1| == n {
      forall i | 0 <= i < n
        ensures Says(read.1[i], g.code, i == n - 1, LinesFor(g.items)[i]) <==> read.1[i] == lines[i]
      {
        RenderedSays(g.items[i], g.code, read.1[i]);
      }
      assert read.1 == lines <==> forall i | 0 <= i < n :: read.1[i] == lines[i];
    }
  }

  lemma GroupLegible(g: Group)
    requires Formed(g)
    ensures Legible(Message(g.code, LinesFor(g.items))) <==> Readable(g)
  {
    forall i, mark | 0 <= i < |g.items|
      ensures Marked(g.items[i].text, g.code, mark) <==> LooksLike(LinesFor(g.items)[i].text, g.code, mark)
    {
      MarkedLooks(g.items[i].text, g.code, mark);
    }
  }

  lemma {:induction false} RepliesAre(groups: seq<Group>)
    requires AllFormed(groups)
    ensures |Replies(groups)| == |groups|
    ensures forall i | 0 <= i < |groups| :: Replies(groups)[i] == (groups[i].code, Lines(groups[i].items))
  {
    if groups != [] {
      RepliesAre(groups[1..]);
      forall i | 0 < i < |groups|
        ensures Replies(groups)[i] == (groups[i].code, Lines(groups[i].items))
      {
        assert Replies(groups)[i] == Replies(groups[1..])[i - 1];
      }
    }
  }

  lemma GroupsConveyed(groups: seq<Group>, read: seq<(int, seq<string>)>)
    requires AllFormed(groups)
    ensures ConveysAll(Some(read), MessagesFor(groups)) <==> read == Replies(groups)
  {
    RepliesAre(groups);
    if |read| == |groups| {
      forall i | 0 <= i < |groups|
        ensures Conveys(read[i], MessagesFor(groups)[i]) <==> read[i] == Replies(groups)[i]
      {
        GroupConveyed(groups[i], read[i]);
      }
      assert read == Replies(groups) <==> forall i | 0 <= i < |groups| :: read[i] == Replies(groups)[i];
    }
  }

  lemma GroupsLegible(groups: seq<Group>)
    requires AllFormed(groups)
    ensures AllReadable(groups) <==> forall i | 0 <= i < |groups| :: Legible(MessagesFor(groups)[i])
  {
    forall i | 0 <= i < |groups|
      ensures Readable(groups[i]) <==> Legible(MessagesFor(groups)[i])
    {
      GroupLegible(groups[i]);
    }
  }

  /** After a run that ends with a final reply and had no ProtocolError, the client has read one reply for each
      `Reply` call, with its code and with the lines of exactly the texts asked for, deferred ones first, if and
      only if all are legible. */
  lemma RunIsRead(calls: seq<Call>)
    requires AllProper(calls) && CodedReplies(calls) && Run(calls).Some?
    requires calls != [] && calls[|calls| - 1].Reply?
    ensures var messages := AskedBy(calls).messages;
            && |messages| == Finals(calls)
            && (ConveysAll(ReadAll(Run(calls).value.written), messages) <==>
                forall i | 0 <= i < |messages| :: Legible(messages[i]))
  {
    RunIsRecovered(calls);
    RecordIsAsked(calls);
    var groups := Record(calls).groups;
    var read := ReadAll(Run(calls).value.written);
    if read.Some? {
      GroupsConveyed(groups, read.value);
    }
    GroupsLegible(groups);
  }

  lemma ThreeCalls(code: int, a: string, b: string, c: string)
    requires IsCode(code) && '\n' !in a && '\n' !in b && '\n' !in c
    ensures var calls := [PartReply(code, a)] + [PartReply(NO_CODE, b)] + [Reply(code, c)];
            && AllProper(calls) && Run(calls).Some?
            && AskedBy(calls).messages == [Message(code, [Line(true, a), Line(false, b), Line(true, c)])]
  {
    var calls := [PartReply(code, a)] + [PartReply(NO_CODE, b)] + [Reply(code, c)];
    var items := [Item(code, true, a)] + [Item(NO_CODE, true, b)] + [Item(code, false, c)];
    RunThree(code, a, b, c);
    RecordIsAsked(calls);
    assert LinesFor(items) == [Line(true, a), Line(false, b), Line(true, c)];
    assert MessagesFor([Group(code, items)]) == [Message(code, LinesFor(items))];
  }

  lemma NotLegible(m: Message, text: string)
    requires |m.lines| == 3 && m.lines[1] == Line(false, text) && LooksLike(text, m.code, ' ')
    ensures !Legible(m)
  {
  }

  /** A reply with an unprefixed line in the middle that looks final, as "211 b" does for the code 211: no
      error occurs, and the client does not get it. */
  lemma LooksFinal(code: int, a: string, b: string, c: string)
    requires IsCode(code) && '\n' !in a && '\n' !in b && '\n' !in c && LooksLike(b, code, ' ')
    ensures var calls := [PartReply(code, a)] + [PartReply(NO_CODE, b)] + [Reply(code, c)];
            && AllProper(calls) && Run(calls).Some?
            && !ConveysAll(ReadAll(Run(calls).value.written), AskedBy(calls).messages)
  {
    var calls := [PartReply(code, a)] + [PartReply(NO_CODE, b)] + [Reply(code, c)];
    ThreeCalls(code, a, b, c);
    NotLegible(AskedBy(calls).messages[0], b);
    RunIsRead(calls);
  }
}
