/** ASCII transfers: `LFtoCRLF` and `CRLFtoLF` of src/ftp/util.cpp, chunk by chunk as in retr.cpp and stor.cpp. */
module Transcode {
  import opened Sequences

  /** What stands for `c` after `front`. */
  function Ending(front: string, c: char): string {
    if c == '\n' && front != [] && front[|front| - 1] != '\r' then "\r\n" else [c]
  }

  function ToCrlf(s: string): string {
    if s == [] then []
    else
      var front, c := s[..|s| - 1], s[|s| - 1];
      ToCrlf(front) + Ending(front, c)
  }

  function ToLf(s: string): string {
    if s == [] then []
    else
      var front, c := s[..|s| - 1], s[|s| - 1];
      ToLf(front) + if c != '\r' then [c] else []
  }

  method LFtoCRLF(source: string) returns (dest: string)
    ensures dest == ToCrlf(source)
  {
    dest := [];
    for i := 0 to |source|
      invariant dest == ToCrlf(source[..i])
    {
      assert source[..i + 1][..i] == source[..i];
      if source[i] == '\n' && i != 0 && source[i - 1] != '\r' {
        dest := dest + ['\r'];
      }
      dest := dest + [source[i]];
    }
    assert source[..|source|] == source;
  }

  method CRLFtoLF(source: string) returns (dest: string)
    ensures dest == ToLf(source)
  {
    dest := [];
    for i := 0 to |source|
      invariant dest == ToLf(source[..i])
    {
      assert source[..i + 1][..i] == source[..i];
      if source[i] != '\r' {
        dest := dest + [source[i]];
      }
    }
    assert source[..|source|] == source;
  }

  // ----- What one chunk gains -----

  /** The line feeds that follow something other than a carriage return. */
  function BareFeeds(s: string): nat {
    if s == [] then 0
    else
      var n := |s| - 1;
      BareFeeds(s[..n]) + if s[n] == '\n' && n > 0 && s[n - 1] != '\r' then 1 else 0
  }

  /** Each of them costs one more byte, and nothing else changes: a text without any stays as it is. */
  lemma {:induction false} GainsBareFeeds(s: string)
    ensures |ToCrlf(s)| == |s| + BareFeeds(s)
    ensures BareFeeds(s) == 0 <==> ToCrlf(s) == s
  {
    if s != [] {
      var front, c := s[..|s| - 1], s[|s| - 1];
      GainsBareFeeds(front);
      assert s == front + [c];
    }
  }

  lemma {:induction false} NoBareFeeds(s: string)
    ensures BareFeeds(s) == 0 <==> forall i :: 0 < i < |s| && s[i] == '\n' ==> s[i - 1] == '\r'
  {
    if s != [] {
      var front := s[..|s| - 1];
      NoBareFeeds(front);
      assert forall i :: 0 <= i < |front| ==> front[i] == s[i];
      if BareFeeds(front) > 0 {
        var i :| 0 < i < |front| && front[i] == '\n' && front[i - 1] != '\r';
        assert s[i] == '\n' && s[i - 1] != '\r';
      }
    }
  }

  /** Doing it again changes nothing. */
  lemma ToCrlfTwice(s: string)
    ensures ToCrlf(ToCrlf(s)) == ToCrlf(s)
  {
    InnerLinesEnd(s);
    NoBareFeeds(ToCrlf(s));
    GainsBareFeeds(ToCrlf(s));
  }

  // ----- Chunks -----

  /** What RETR writes for the chunks it read. */
  function Sent(chunks: seq<string>): string {
    if chunks == [] then [] else Sent(chunks[..|chunks| - 1]) + ToCrlf(chunks[|chunks| - 1])
  }

  /** What STOR keeps of the chunks it received. */
  function Stored(chunks: seq<string>): string {
    if chunks == [] then [] else Stored(chunks[..|chunks| - 1]) + ToLf(chunks[|chunks| - 1])
  }

  lemma {:induction false} ToLfAppend(a: string, b: string)
    ensures ToLf(a + b) == ToLf(a) + ToLf(b)
  {
    if b == [] {
      assert a + b == a;
    } else {
      assert (a + b)[..|a + b| - 1] == a + b[..|b| - 1];
      ToLfAppend(a, b[..|b| - 1]);
    }
  }

  /** Receiving does not depend on the chunks. */
  lemma {:induction false} StoredIs(chunks: seq<string>)
    ensures Stored(chunks) == ToLf(Flatten(chunks))
  {
    if chunks != [] {
      var n := |chunks| - 1;
      StoredIs(chunks[..n]);
      ToLfAppend(Flatten(chunks[..n]), chunks[n]);
    }
  }

  lemma {:induction false} CrlfUndone(s: string)
    ensures ToLf(ToCrlf(s)) == ToLf(s)
  {
    if s != [] {
      var front, c := s[..|s| - 1], s[|s| - 1];
      CrlfUndone(front);
      ToLfAppend(ToCrlf(front), Ending(front, c));
      assert ToLf("\r\n") == "\n" by {
        assert "\r\n"[..1] == "\r" && "\r"[..0] == "";
      }
      assert ToLf([c]) == if c != '\r' then [c] else [] by {
        assert [c][..0] == [];
      }
    }
  }

  lemma {:induction false} SentUndone(chunks: seq<string>)
    ensures ToLf(Sent(chunks)) == ToLf(Flatten(chunks))
  {
    if chunks != [] {
      var n := |chunks| - 1;
      SentUndone(chunks[..n]);
      CrlfUndone(chunks[n]);
      ToLfAppend(Sent(chunks[..n]), ToCrlf(chunks[n]));
      ToLfAppend(Flatten(chunks[..n]), chunks[n]);
    }
  }

  lemma {:induction false} NothingDropped(s: string)
    ensures |ToLf(s)| <= |s|
    ensures ToLf(s) == s <==> '\r' !in s
  {
    if s != [] {
      var front, c := s[..|s| - 1], s[|s| - 1];
      NothingDropped(front);
      assert s == front + [c];
      if c != '\r' && ToLf(front) + [c] == front + [c] {
        assert (ToLf(front) + [c])[..|ToLf(front)|] == ToLf(front);
        assert (front + [c])[..|front|] == front;
      }
    }
  }

  /** However the file is cut into chunks when it is sent and when it is received, the bytes that
      come back are those of the file if and only if it has no carriage return. */
  lemma {:induction false} TransferRoundTrip(read: seq<string>, received: seq<string>)
    requires Flatten(received) == Sent(read)
    ensures Stored(received) == Flatten(read) <==> '\r' !in Flatten(read)
  {
    StoredIs(received);
    SentUndone(read);
    NothingDropped(Flatten(read));
  }

  // ----- Sending depends on the chunks -----

  /** A line feed at the start of a chunk that needed a carriage return. */
  predicate Missed(before: string, chunk: string) {
    before != [] && chunk != [] && chunk[0] == '\n' && before[|before| - 1] != '\r'
  }

  function MissedReturns(chunks: seq<string>): nat {
    if chunks == [] then 0
    else
      var n := |chunks| - 1;
      MissedReturns(chunks[..n]) + if Missed(Flatten(chunks[..n]), chunks[n]) then 1 else 0
  }

  lemma ToCrlfSnoc(s: string, c: char)
    ensures ToCrlf(s + [c]) == ToCrlf(s) + Ending(s, c)
  {
    assert (s + [c])[..|s|] == s;
  }

  function Extra(a: string, b: string): string {
    if Missed(a, b) then "\r" else ""
  }

  lemma {:induction false} ToCrlfAppend(a: string, b: string)
    ensures ToCrlf(a + b) == ToCrlf(a) + Extra(a, b) + ToCrlf(b)
  {
    if b == [] {
      assert a + b == a;
    } else {
      var front, c := b[..|b| - 1], b[|b| - 1];
      ToCrlfAppend(a, front);
      assert b == front + [c];
      if front == [] {
        assert b == [c];
        FirstOne(a, c);
      } else {
        NextOne(a, front, c);
      }
    }
  }

  lemma OneChar(c: char)
    ensures ToCrlf([c]) == Ending([], c) == [c]
  {
    assert [c][..0] == [];
    assert [] + [c] == [c];
  }

  lemma FirstOne(a: string, c: char)
    ensures ToCrlf(a + [c]) == ToCrlf(a) + Extra(a, [c]) + ToCrlf([c])
  {
    ToCrlfSnoc(a, c);
    OneChar(c);
    LastEnding(a, [], c);
    Regroup(ToCrlf(a), Extra(a, [c]), [c]);
  }

  lemma NextOne(a: string, front: string, c: char)
    requires front != [] && ToCrlf(a + front) == ToCrlf(a) + Extra(a, front) + ToCrlf(front)
    ensures ToCrlf(a + (front + [c])) == ToCrlf(a) + Extra(a, front + [c]) + ToCrlf(front + [c])
  {
    Regroup(a, front, [c]);
    ToCrlfSnoc(a + front, c);
    ToCrlfSnoc(front, c);
    LastEnding(a, front, c);
    Regroup(ToCrlf(a) + Extra(a, front), ToCrlf(front), Ending(front, c));
  }

  /** Only after an empty rest does the ending depend on what came before. */
  lemma LastEnding(a: string, front: string, c: char)
    ensures front == [] ==> Ending(a, c) == Extra(a, [c]) + Ending([], c)
    ensures front != [] ==> Ending(a + front, c) == Ending(front, c) && Extra(a, front + [c]) == Extra(a, front)
  {
  }

  /** Each missed carriage return makes the output one shorter than for the file in one chunk. */
  lemma {:induction false} SentLength(chunks: seq<string>)
    ensures |Sent(chunks)| + MissedReturns(chunks) == |ToCrlf(Flatten(chunks))|
    ensures MissedReturns(chunks) == 0 ==> Sent(chunks) == ToCrlf(Flatten(chunks))
  {
    if chunks != [] {
      var n := |chunks| - 1;
      SentLength(chunks[..n]);
      ToCrlfAppend(Flatten(chunks[..n]), chunks[n]);
    }
  }

  /** The output does not depend on the chunks if and only if no carriage return is missed. */
  lemma ChunksMatter(chunks: seq<string>)
    ensures Sent(chunks) == ToCrlf(Flatten(chunks)) <==> MissedReturns(chunks) == 0
  {
    SentLength(chunks);
  }

  /** Every line feed follows a carriage return. */
  predicate LinesEnd(s: string) {
    forall i :: 0 <= i < |s| && s[i] == '\n' ==> i > 0 && s[i - 1] == '\r'
  }

  /** A chunk comes out in the form of section 3.1.1.1 of RFC 959 if and only if it does not start
      with a line feed. */
  lemma {:induction false} OneChunkLinesEnd(s: string)
    ensures LinesEnd(ToCrlf(s)) <==> s == [] || s[0] != '\n'
    ensures s != [] ==> ToCrlf(s) != [] && ToCrlf(s)[0] == s[0] && ToCrlf(s)[|ToCrlf(s)| - 1] == s[|s| - 1]
  {
    if s != [] {
      var front, c := s[..|s| - 1], s[|s| - 1];
      OneChunkLinesEnd(front);
      EndingLinesEnd(ToCrlf(front), front, c);
    }
  }

  lemma EndingLinesEnd(done: string, front: string, c: char)
    requires (front == [] ==> done == []) && (front != [] ==> done != [] && done[|done| - 1] == front[|front| - 1])
    ensures LinesEnd(done + Ending(front, c)) <==> LinesEnd(done) && (front == [] ==> c != '\n')
  {
    var all := done + Ending(front, c);
    assert forall i :: 0 <= i < |done| ==> all[i] == done[i];
    if LinesEnd(all) {
      assert LinesEnd(done);
      assert front == [] ==> all[0] == c;
    }
  }

  lemma ChunkStartsWithLineFeed()
    ensures Flatten(["a", "\n"]) == "a\n" && Sent(["a", "\n"]) != ToCrlf("a\n")
  {
    var chunks := ["a", "\n"];
    assert chunks[..1] == ["a"] && ["a"][..0] == [];
    assert Flatten(["a"]) == [] + "a";
    assert Missed("a", "\n");
    ChunksMatter(chunks);
  }

  // ----- Line ends of everything sent -----

  lemma ToCrlfEnds(s: string)
    requires s != []
    ensures ToCrlf(s) != [] && ToCrlf(s)[0] == s[0] && ToCrlf(s)[|ToCrlf(s)| - 1] == s[|s| - 1]
  {
    OneChunkLinesEnd(s);
  }

  /** Both are empty, or begin and end alike. */
  predicate SameEnds(a: string, b: string) {
    if a == [] || b == [] then a == b else a[0] == b[0] && a[|a| - 1] == b[|b| - 1]
  }

  lemma SameEndsAppend(a: string, b: string, c: string, d: string)
    requires SameEnds(a, b) && SameEnds(c, d)
    ensures SameEnds(a + c, b + d)
  {
  }

  /** What was sent begins and ends like the file so far. */
  lemma {:induction false} SentEnds(chunks: seq<string>)
    ensures SameEnds(Sent(chunks), Flatten(chunks))
  {
    if chunks != [] {
      var n := |chunks| - 1;
      SentEnds(chunks[..n]);
      if chunks[n] != [] {
        ToCrlfEnds(chunks[n]);
      }
      SameEndsAppend(Sent(chunks[..n]), Flatten(chunks[..n]), ToCrlf(chunks[n]), chunks[n]);
    }
  }

  /** Lines after lines: a line feed at the seam needs a carriage return before it. */
  lemma LinesEndAppend(a: string, b: string)
    ensures LinesEnd(a + b) <==>
            && LinesEnd(a)
            && (forall i :: 0 < i < |b| && b[i] == '\n' ==> b[i - 1] == '\r')
            && (b != [] && b[0] == '\n' ==> a != [] && a[|a| - 1] == '\r')
  {
    var all := a + b;
    assert forall i :: 0 <= i < |a| ==> all[i] == a[i];
    assert forall i :: 0 <= i < |b| ==> all[|a| + i] == b[i];
  }

  lemma {:induction false} InnerLinesEnd(s: string)
    ensures forall i :: 0 < i < |ToCrlf(s)| && ToCrlf(s)[i] == '\n' ==> ToCrlf(s)[i - 1] == '\r'
  {
    if s != [] {
      var front, c := s[..|s| - 1], s[|s| - 1];
      InnerLinesEnd(front);
      if front != [] {
        ToCrlfEnds(front);
      }
    }
  }

  /** One more chunk is in order if its line feeds are, the first one with what was sent before. */
  lemma {:induction false} NextChunkLinesEnd(front: seq<string>, chunk: string)
    ensures LinesEnd(Sent(front) + ToCrlf(chunk)) <==>
            LinesEnd(Sent(front)) && !Missed(Flatten(front), chunk) && (Flatten(front) == [] && chunk != [] ==> chunk[0] != '\n')
  {
    SentEnds(front);
    LinesEndAppend(Sent(front), ToCrlf(chunk));
    InnerLinesEnd(chunk);
    if chunk != [] {
      ToCrlfEnds(chunk);
    }
    SeamLinesEnd(front, chunk);
  }

  predicate StartsWithLineFeed(s: string) {
    s != [] && s[0] == '\n'
  }

  lemma StartOf(a: string, b: string)
    ensures StartsWithLineFeed(a + b) <==> StartsWithLineFeed(a) || (a == [] && StartsWithLineFeed(b))
  {
    if a == [] {
      assert a + b == b;
    }
  }

  /** Every line feed sent follows a carriage return, over all chunks, if and only if no carriage return is
      missed at the start of a chunk and the file does not start with a line feed. */
  lemma {:induction false} SentLinesEnd(chunks: seq<string>)
    ensures LinesEnd(Sent(chunks)) <==> MissedReturns(chunks) == 0 && !StartsWithLineFeed(Flatten(chunks))
  {
    if chunks != [] {
      var front, chunk := chunks[..|chunks| - 1], chunks[|chunks| - 1];
      SentLinesEnd(front);
      NextChunkLinesEnd(front, chunk);
      StartOf(Flatten(front), chunk);
    }
  }

  lemma SeamLinesEnd(front: seq<string>, chunk: string)
    ensures (chunk != [] && chunk[0] == '\n' ==> Flatten(front) != [] && Flatten(front)[|Flatten(front)| - 1] == '\r') <==>
            !Missed(Flatten(front), chunk) && (Flatten(front) == [] && chunk != [] ==> chunk[0] != '\n')
  {
  }
}
