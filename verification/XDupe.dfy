/** The packing of duplicate file names into reply lines of src/ftp/xdupe.cpp. */
module XDupe {
  import opened Sequences
  import Strings

  const MAX_LENGTH: nat := 67
  const PREFIX := " X-DUPE: "

  /** The payloads of the lines already finished, and of the line being filled. */
  datatype Packing = Packing(lines: seq<string>, line: string)

  function Flushed(p: Packing): seq<string> {
    if |p.line| > 0 then p.lines + [p.line] else p.lines
  }

  function AddName(p: Packing, dupe: string): Packing {
    if |dupe| > MAX_LENGTH then Packing(Flushed(p) + [dupe[..MAX_LENGTH]], "")
    else
      var q :=
        if |p.line| + |dupe| + (if |p.line| > 0 then 1 else 0) > MAX_LENGTH
        then Packing(p.lines + [p.line], "") else p;
      Packing(q.lines, (if |q.line| > 0 then q.line + " " else q.line) + dupe)
  }

  function Pack(dupes: seq<string>): Packing {
    if dupes == [] then Packing([], "") else AddName(Pack(dupes[..|dupes| - 1]), dupes[|dupes| - 1])
  }

  /** The payloads of the lines of the reply. */
  function Payloads(dupes: seq<string>): seq<string> {
    Flushed(Pack(dupes))
  }

  function Line(payload: string): string {
    PREFIX + payload + "\n"
  }

  function Render(lines: seq<string>): string {
    if lines == [] then "" else Render(lines[..|lines| - 1]) + Line(lines[|lines| - 1])
  }

  lemma RenderOneMore(lines: seq<string>, line: string)
    ensures Render(lines + [line]) == Render(lines) + Line(line)
    ensures Render(lines + [line]) == Render(lines) + (PREFIX + line) + "\n"
  {
    assert (lines + [line])[..|lines|] == lines;
    assert Line(line) == (PREFIX + line) + "\n";
  }

  lemma AppendToLine(payload: string, more: string)
    ensures (PREFIX + payload) + more == PREFIX + (payload + more)
  {
  }

  lemma PackOneMore(dupes: seq<string>, i: nat)
    requires i < |dupes|
    ensures Pack(dupes[..i + 1]) == AddName(Pack(dupes[..i]), dupes[i])
  {
    assert dupes[..i + 1][..i] == dupes[..i];
  }

  method MessageOne(dupes: seq<string>) returns (message: string)
    ensures message == Render(Payloads(dupes))
  {
    var reply, line := "", PREFIX;
    var len := 0;
    ghost var lines: seq<string>, payload: string := [], "";
    var i := 0;
    while i < |dupes|
      invariant i <= |dupes| && Pack(dupes[..i]) == Packing(lines, payload)
      invariant reply == Render(lines) && line == PREFIX + payload && len == |payload|
    {
      var dupe := dupes[i];
      PackOneMore(dupes, i);
      i := i + 1;
      if |dupe| > MAX_LENGTH {
        if len > 0 {
          RenderOneMore(lines, payload);
          reply := reply + line + "\n";
          lines := lines + [payload];
        }
        RenderOneMore(lines, dupe[..MAX_LENGTH]);
        reply := reply + (PREFIX + dupe[..MAX_LENGTH]) + "\n";
        lines, payload := lines + [dupe[..MAX_LENGTH]], "";
        line := PREFIX;
        len := 0;
        continue;
      }
      if len + |dupe| + (if len > 0 then 1 else 0) > MAX_LENGTH {
        RenderOneMore(lines, payload);
        reply := reply + line + "\n";
        lines, payload := lines + [payload], "";
        line := PREFIX;
        len := 0;
      }
      if len > 0 {
        AppendToLine(payload, " ");
        line, payload := line + " ", payload + " ";
        len := len + 1;
      }
      AppendToLine(payload, dupe);
      line, payload := line + dupe, payload + dupe;
      len := len + |dupe|;
    }
    assert dupes[..i] == dupes;
    if len > 0 {
      RenderOneMore(lines, payload);
      reply := reply + line + "\n";
    }
    message := reply;
  }

  // ----- Lines as groups of words -----

  function Word(dupe: string): string {
    if |dupe| > MAX_LENGTH then dupe[..MAX_LENGTH] else dupe
  }

  /** The names as they are sent. */
  function Words(dupes: seq<string>): seq<string> {
    if dupes == [] then [] else Words(dupes[..|dupes| - 1]) + [Word(dupes[|dupes| - 1])]
  }

  function Join(words: seq<string>): string {
    Strings.Join(words, ' ')
  }

  predicate NonEmpty(words: seq<string>) {
    forall i | 0 <= i < |words| :: words[i] != ""
  }

  /** Some way of putting the words, in order, on lines that are not too long. */
  ghost predicate IsPacking(groups: seq<seq<string>>, words: seq<string>) {
    Flatten(groups) == words && forall i | 0 <= i < |groups| :: |Join(groups[i])| <= MAX_LENGTH
  }

  lemma JoinOneMore(words: seq<string>, word: string)
    requires words != []
    ensures Join(words + [word]) == Join(words) + " " + word
  {
    Strings.JoinOneMore(words, word, ' ');
  }

  lemma FlattenOneMore(groups: seq<seq<string>>, group: seq<string>)
    ensures Flatten(groups + [group]) == Flatten(groups) + group
  {
    assert (groups + [group])[..|groups|] == groups;
  }

  lemma {:induction false} WordsNonEmpty(dupes: seq<string>)
    requires NonEmpty(dupes)
    ensures NonEmpty(Words(dupes)) && |Words(dupes)| == |dupes|
    ensures forall i | 0 <= i < |dupes| :: Words(dupes)[i] == Word(dupes[i])
  {
    if dupes != [] {
      WordsNonEmpty(dupes[..|dupes| - 1]);
    }
  }

  /** The words on the finished lines and on the line being filled. */
  ghost predicate Grouped(p: Packing, groups: seq<seq<string>>, group: seq<string>, words: seq<string>) {
    && Flatten(groups) + group == words
    && |groups| == |p.lines|
    && (forall i | 0 <= i < |groups| :: groups[i] != [] && p.lines[i] == Join(groups[i]) && |p.lines[i]| <= MAX_LENGTH)
    && p.line == Join(group) && |p.line| <= MAX_LENGTH
    && (p.line == "" <==> group == [])
  }

  /** Finishing the line being filled. */
  lemma FinishLine(p: Packing, groups: seq<seq<string>>, group: seq<string>, words: seq<string>)
    requires Grouped(p, groups, group, words) && group != []
    ensures Grouped(Packing(p.lines + [p.line], ""), groups + [group], [], words)
  {
    var more, lines := groups + [group], p.lines + [p.line];
    FlattenOneMore(groups, group);
    assert Flatten(more) + [] == Flatten(more);
    forall i | 0 <= i < |more|
      ensures more[i] != [] && lines[i] == Join(more[i]) && |lines[i]| <= MAX_LENGTH
    {
      if i < |groups| {
        assert more[i] == groups[i] && lines[i] == p.lines[i];
      }
    }
  }

  /** Putting a word on a new line. */
  lemma StartLine(p: Packing, groups: seq<seq<string>>, words: seq<string>, word: string)
    requires Grouped(p, groups, [], words) && 0 < |word| <= MAX_LENGTH
    ensures Grouped(Packing(p.lines, word), groups, [word], words + [word])
  {
    assert Flatten(groups) + [word] == Flatten(groups) + [] + [word];
  }

  lemma ExtendLine(p: Packing, groups: seq<seq<string>>, group: seq<string>, words: seq<string>, word: string)
    requires Grouped(p, groups, group, words) && group != [] && |p.line| + 1 + |word| <= MAX_LENGTH
    ensures Grouped(Packing(p.lines, p.line + " " + word), groups, group + [word], words + [word])
  {
    JoinOneMore(group, word);
    assert Flatten(groups) + (group + [word]) == Flatten(groups) + group + [word];
  }

  /** What is on the lines, word by word. */
  lemma {:induction false} Groups(dupes: seq<string>) returns (groups: seq<seq<string>>, group: seq<string>)
    requires NonEmpty(dupes)
    ensures Grouped(Pack(dupes), groups, group, Words(dupes))
  {
    if dupes == [] {
      return [], [];
    }
    var front, dupe := dupes[..|dupes| - 1], dupes[|dupes| - 1];
    groups, group := Groups(front);
    groups, group := AddToGroups(Pack(front), groups, group, Words(front), dupe);
  }

  lemma AddToGroups(p: Packing, groups: seq<seq<string>>, group: seq<string>, words: seq<string>, dupe: string)
      returns (groups': seq<seq<string>>, group': seq<string>)
    requires Grouped(p, groups, group, words) && dupe != ""
    ensures Grouped(AddName(p, dupe), groups', group', words + [Word(dupe)])
  {
    groups', group' := groups, group;
    var q := p;
    if |dupe| > MAX_LENGTH || |p.line| + |dupe| + (if |p.line| > 0 then 1 else 0) > MAX_LENGTH {
      if group != [] {
        FinishLine(p, groups, group, words);
        groups', group' := groups + [group], [];
        q := Packing(p.lines + [p.line], "");
      }
      StartLine(q, groups', words, Word(dupe));
      group' := [Word(dupe)];
      if |dupe| > MAX_LENGTH {
        FinishLine(Packing(q.lines, Word(dupe)), groups', group', words + [Word(dupe)]);
        groups', group' := groups' + [group'], [];
      }
    } else if group == [] {
      StartLine(p, groups, words, dupe);
      group' := [dupe];
    } else {
      ExtendLine(p, groups, group, words, dupe);
      group' := group + [dupe];
    }
  }

  // ----- No packing uses fewer lines -----

  function Last(lines: seq<string>): string
    requires lines != []
  {
    lines[|lines| - 1]
  }

  /** A name goes on the last line exactly when it fits there. */
  function Greedy(lines: seq<string>, word: string): seq<string> {
    if lines != [] && |Last(lines)| + 1 + |word| <= MAX_LENGTH
    then lines[..|lines| - 1] + [Last(lines) + " " + word]
    else lines + [word]
  }

  /** No line is empty, and one that is closed already is full. */
  ghost predicate Sound(p: Packing) {
    && NonEmpty(Flushed(p))
    && (p.line == "" && p.lines != [] ==> |Last(p.lines)| == MAX_LENGTH)
    && |p.line| <= MAX_LENGTH
  }

  lemma {:induction false} PayloadsAreGreedy(dupes: seq<string>)
    requires NonEmpty(dupes)
    ensures Sound(Pack(dupes))
    ensures dupes != [] ==>
              Payloads(dupes) == Greedy(Payloads(dupes[..|dupes| - 1]), Word(dupes[|dupes| - 1]))
  {
    if dupes != [] {
      PayloadsAreGreedy(dupes[..|dupes| - 1]);
      AddNameIsGreedy(Pack(dupes[..|dupes| - 1]), dupes[|dupes| - 1]);
    }
  }

  lemma AddNameIsGreedy(p: Packing, dupe: string)
    requires Sound(p) && dupe != ""
    ensures Sound(AddName(p, dupe))
    ensures Flushed(AddName(p, dupe)) == Greedy(Flushed(p), Word(dupe))
  {
    if |dupe| > MAX_LENGTH {
      LongName(p, dupe);
    } else if p.line == "" {
      assert "" + dupe == dupe;
    } else {
      NextName(p, dupe);
    }
  }

  lemma LongName(p: Packing, dupe: string)
    requires Sound(p) && |dupe| > MAX_LENGTH
    ensures Sound(AddName(p, dupe))
    ensures Flushed(AddName(p, dupe)) == Greedy(Flushed(p), Word(dupe))
  {
    assert |Word(dupe)| == MAX_LENGTH;
  }

  lemma NextName(p: Packing, dupe: string)
    requires Sound(p) && p.line != "" && 0 < |dupe| <= MAX_LENGTH
    ensures Sound(AddName(p, dupe))
    ensures Flushed(AddName(p, dupe)) == Greedy(Flushed(p), Word(dupe))
  {
    var lines := Flushed(p);
    assert Last(lines) == p.line && lines[..|lines| - 1] == p.lines;
    assert |p.line + " " + dupe| == |p.line| + 1 + |dupe| && "" + dupe == dupe;
  }

  /** Greedy stays ahead: another packing of the same words has more lines, or as many and a
      last line at least as long. */
  ghost predicate Ahead(lines: seq<string>, groups: seq<seq<string>>) {
    |lines| < |groups| ||
    (|lines| == |groups| && (lines != [] ==> |Last(lines)| <= |Join(groups[|groups| - 1])|))
  }

  lemma {:induction false} StaysAhead(dupes: seq<string>, groups: seq<seq<string>>)
    requires NonEmpty(dupes) && IsPacking(groups, Words(dupes))
    ensures Ahead(Payloads(dupes), groups)
    decreases |dupes| + |groups|
  {
    if groups != [] && groups[|groups| - 1] == [] {
      StaysAhead(dupes, groups[..|groups| - 1]);
      EmptyGroup(Payloads(dupes), groups);
    } else if dupes != [] {
      var front, word := dupes[..|dupes| - 1], Word(dupes[|dupes| - 1]);
      LastGroup(groups, Words(front), word);
      DropLastWord(groups, Words(front), word);
      StaysAhead(front, Shortened(groups));
      PayloadsAreGreedy(front);
      PayloadsAreGreedy(dupes);
      KeepsAhead(Payloads(front), groups, word);
    }
  }

  /** The packing without its last word. */
  ghost function Shortened(groups: seq<seq<string>>): (r: seq<seq<string>>)
    requires groups != [] && groups[|groups| - 1] != []
    ensures |r| == |groups|
  {
    var group := groups[|groups| - 1];
    groups[..|groups| - 1] + [group[..|group| - 1]]
  }

  lemma LastGroup(groups: seq<seq<string>>, words: seq<string>, word: string)
    requires IsPacking(groups, words + [word])
    ensures groups != []
  {
  }

  lemma EmptyGroup(lines: seq<string>, groups: seq<seq<string>>)
    requires groups != [] && Ahead(lines, groups[..|groups| - 1])
    ensures Ahead(lines, groups)
  {
  }

  /** Taking the last word off a packing leaves a packing of the words before it. */
  lemma DropLastWord(groups: seq<seq<string>>, words: seq<string>, word: string)
    requires groups != [] && groups[|groups| - 1] != [] && IsPacking(groups, words + [word])
    ensures IsPacking(Shortened(groups), words)
    ensures groups[|groups| - 1][|groups[|groups| - 1]| - 1] == word
  {
    var others, group := groups[..|groups| - 1], groups[|groups| - 1];
    var shorter := group[..|group| - 1];
    assert group == shorter + [group[|group| - 1]];
    assert (words + [word])[|words|] == word && (words + [word])[..|words|] == words;
    assert Flatten(others) + group == (Flatten(others) + shorter) + [group[|group| - 1]];
    FlattenOneMore(others, shorter);
    if shorter != [] {
      JoinOneMore(shorter, word);
    }
  }

  lemma KeepsAhead(lines: seq<string>, groups: seq<seq<string>>, word: string)
    requires groups != [] && groups[|groups| - 1] != [] && NonEmpty(lines)
    requires Ahead(lines, Shortened(groups))
    requires groups[|groups| - 1][|groups[|groups| - 1]| - 1] == word && |Join(groups[|groups| - 1])| <= MAX_LENGTH
    ensures Ahead(Greedy(lines, word), groups)
  {
    var group := groups[|groups| - 1];
    var shorter := group[..|group| - 1];
    assert group == shorter + [word];
    assert Shortened(groups)[|groups| - 1] == shorter;
    if shorter != [] {
      JoinOneMore(shorter, word);
    }
  }

  /** No way of putting the words on lines of at most 67 characters, in order, uses fewer. */
  lemma FewestLines(dupes: seq<string>, groups: seq<seq<string>>)
    requires NonEmpty(dupes) && IsPacking(groups, Words(dupes))
    ensures |Payloads(dupes)| <= |groups|
  {
    StaysAhead(dupes, groups);
  }

  // ----- Reading the reply back -----

  function WordsOn(lines: seq<string>): seq<string> {
    if lines == [] then []
    else
      var line := lines[|lines| - 1];
      WordsOn(lines[..|lines| - 1]) +
      (if |line| >= 9 && line[..9] == " X-DUPE: " then Strings.Split(line[9..], ' ') else [])
  }

  /** The names a client reads off the reply. */
  function Read(message: string): seq<string> {
    var lines := Strings.Split(message, '\n');
    WordsOn(lines[..|lines| - 1])
  }

  ghost predicate Clean(words: seq<string>, c: char) {
    forall i | 0 <= i < |words| :: c !in words[i]
  }

  lemma {:induction false} SplitJoined(words: seq<string>)
    requires words != [] && Clean(words, ' ')
    ensures Strings.Split(Join(words), ' ') == words
  {
    var front, last := words[..|words| - 1], words[|words| - 1];
    if front == [] {
      Strings.SplitWhole(last, ' ');
    } else {
      SplitJoined(front);
      SplitAfterSpace(Join(front), last);
    }
  }

  lemma SplitAfterSpace(s: string, word: string)
    requires ' ' !in word
    ensures Strings.Split(s + " " + word, ' ') == Strings.Split(s, ' ') + [word]
  {
    Strings.SplitSeparator(s, ' ');
    Strings.SplitAppend(s + " ", word, ' ');
    assert "" + word == word;
  }

  function Prefixed(lines: seq<string>): seq<string> {
    seq(|lines|, i requires 0 <= i < |lines| => PREFIX + lines[i])
  }

  /** A line after others that all ended. */
  lemma SplitLine(s: string, parts: seq<string>, line: string)
    requires Strings.Split(s, '\n') == parts + [""] && '\n' !in line
    ensures Strings.Split(s + line + "\n", '\n') == parts + [line] + [""]
  {
    Strings.SplitAppend(s, line, '\n');
    assert (parts + [""])[..|parts|] == parts && "" + line == line;
    Strings.SplitSeparator(s + line, '\n');
    assert [ '\n' ] == "\n";
  }

  lemma SplitOneMore(front: seq<string>, last: string)
    requires Strings.Split(Render(front), '\n') == Prefixed(front) + [""] && '\n' !in last
    ensures Strings.Split(Render(front + [last]), '\n') == Prefixed(front + [last]) + [""]
  {
    var line := PREFIX + last;
    RenderOneMore(front, last);
    OneLine(last);
    SplitLine(Render(front), Prefixed(front), line);
    PrefixedOneMore(front, last);
  }

  lemma OneLine(payload: string)
    requires '\n' !in payload
    ensures '\n' !in PREFIX + payload
  {
  }

  lemma PrefixedOneMore(front: seq<string>, last: string)
    ensures Prefixed(front + [last]) == Prefixed(front) + [PREFIX + last]
  {
  }

  lemma {:induction false} SplitRendered(lines: seq<string>)
    requires Clean(lines, '\n')
    ensures Strings.Split(Render(lines), '\n') == Prefixed(lines) + [""]
  {
    if lines != [] {
      var front, last := lines[..|lines| - 1], lines[|lines| - 1];
      SplitRendered(front);
      assert lines == front + [last];
      SplitOneMore(front, last);
    }
  }

  lemma {:induction false} WordsOnGroups(lines: seq<string>, groups: seq<seq<string>>)
    requires |lines| == |groups|
    requires forall i | 0 <= i < |groups| :: groups[i] != [] && Clean(groups[i], ' ') && lines[i] == Join(groups[i])
    ensures WordsOn(Prefixed(lines)) == Flatten(groups)
  {
    if lines != [] {
      var k := |lines| - 1;
      WordsOnGroups(lines[..k], groups[..k]);
      assert Prefixed(lines)[..k] == Prefixed(lines[..k]);
      assert Prefixed(lines)[k][|PREFIX|..] == lines[k];
      SplitJoined(groups[k]);
    }
  }

  lemma {:induction false} JoinClean(words: seq<string>)
    requires Clean(words, '\n')
    ensures '\n' !in Join(words)
  {
    if |words| > 1 {
      JoinClean(words[..|words| - 1]);
    }
  }

  lemma {:induction false} FlattenClean(groups: seq<seq<string>>, c: char)
    requires Clean(Flatten(groups), c)
    ensures forall i | 0 <= i < |groups| :: Clean(groups[i], c)
  {
    if groups != [] {
      var front, last := Flatten(groups[..|groups| - 1]), groups[|groups| - 1];
      assert forall i | 0 <= i < |front| :: front[i] == Flatten(groups)[i];
      assert forall i | 0 <= i < |last| :: last[i] == Flatten(groups)[|front| + i];
      FlattenClean(groups[..|groups| - 1], c);
    }
  }

  /** The payloads stay within the limit, and the names read off the reply are the names of
      the duplicates, cut to the limit, in order. */
  lemma ReadsBack(dupes: seq<string>)
    requires NonEmpty(dupes) && Clean(dupes, ' ') && Clean(dupes, '\n')
    ensures forall i | 0 <= i < |Payloads(dupes)| :: |Payloads(dupes)[i]| <= MAX_LENGTH
    ensures var read := Read(Render(Payloads(dupes)));
            && read == Words(dupes) && |read| == |dupes|
            && forall i | 0 <= i < |dupes| ::
                 read[i] <= dupes[i] && |read[i]| == if |dupes[i]| > 67 then 67 else |dupes[i]|
  {
    var lines := Payloads(dupes);
    var groups := LineGroups(dupes);
    WordsNonEmpty(dupes);
    FlattenClean(groups, ' ');
    FlattenClean(groups, '\n');
    forall i | 0 <= i < |lines|
      ensures '\n' !in lines[i]
    {
      JoinClean(groups[i]);
    }
    SplitRendered(lines);
    assert (Prefixed(lines) + [""])[..|lines|] == Prefixed(lines);
    WordsOnGroups(lines, groups);
  }

  /** The words on each line of the reply. */
  lemma LineGroups(dupes: seq<string>) returns (groups: seq<seq<string>>)
    requires NonEmpty(dupes)
    ensures IsPacking(groups, Words(dupes)) && |groups| == |Payloads(dupes)|
    ensures forall i | 0 <= i < |groups| :: groups[i] != [] && Payloads(dupes)[i] == Join(groups[i])
  {
    var group;
    groups, group := Groups(dupes);
    if group != [] {
      FinishLine(Pack(dupes), groups, group, Words(dupes));
      groups := groups + [group];
    }
    assert Flatten(groups) + [] == Flatten(groups);
  }
}
