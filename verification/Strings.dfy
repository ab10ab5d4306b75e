/** Texts cut at a separator and put together again.

    The pieces of a text are what `boost::split` makes of it without token compression, as the function
    `Split` of util/util/string.cpp calls it: there is always at least one piece, and an empty one before,
    between and after separators that have nothing else there.

    The lemmas are those that the packing of duplicate names and the replies on the control connection
    need: what the pieces of a longer text are, and that joining them gives the text back.
 */
module Strings {

  predicate IsDigit(c: char) {
    '0' <= c <= '9'
  }

  /** The pieces between occurrences of `c`: one more than there are occurrences. */
  function Split(s: string, c: char): (parts: seq<string>)
    ensures parts != []
  {
    if s == "" then [""]
    else
      var parts := Split(s[..|s| - 1], c);
      if s[|s| - 1] == c then parts + [""]
      else parts[..|parts| - 1] + [parts[|parts| - 1] + [s[|s| - 1]]]
  }

  function Join(parts: seq<string>, c: char): string {
    if parts == [] then ""
    else if |parts| == 1 then parts[0]
    else Join(parts[..|parts| - 1], c) + [c] + parts[|parts| - 1]
  }

  lemma JoinOneMore(parts: seq<string>, part: string, c: char)
    requires parts != []
    ensures Join(parts + [part], c) == Join(parts, c) + [c] + part
  {
    assert (parts + [part])[..|parts|] == parts;
  }

  lemma JoinLonger(parts: seq<string>, c: char, d: char)
    requires parts != []
    ensures Join(parts[..|parts| - 1] + [parts[|parts| - 1] + [d]], c) == Join(parts, c) + [d]
  {
    var n := |parts| - 1;
    var longer := parts[..n] + [parts[n] + [d]];
    assert longer[..n] == parts[..n];
    if n > 0 {
      assert Join(parts[..n], c) + [c] + (parts[n] + [d]) == Join(parts[..n], c) + [c] + parts[n] + [d];
    }
  }

  /** Joined again, the pieces are the text. */
  lemma {:induction false} SplitInverts(s: string, c: char)
    ensures Join(Split(s, c), c) == s
  {
    if s != "" {
      var front, d := s[..|s| - 1], s[|s| - 1];
      SplitInverts(front, c);
      JoinOneMore(Split(front, c), "", c);
      JoinLonger(Split(front, c), c, d);
      assert s == front + [d];
      if d == c {
        assert front + [c] + "" == front + [d];
      }
    }
  }

  /** No piece holds the separator. */
  lemma {:induction false} PiecesLackSeparator(s: string, c: char)
    ensures forall i :: 0 <= i < |Split(s, c)| ==> c !in Split(s, c)[i]
  {
    if s != "" {
      PiecesLackSeparator(s[..|s| - 1], c);
    }
  }

  lemma {:induction false} SplitAppend(s: string, w: string, c: char)
    requires c !in w
    ensures var parts := Split(s, c);
            Split(s + w, c) == parts[..|parts| - 1] + [parts[|parts| - 1] + w]
    decreases |w|
  {
    var parts := Split(s, c);
    if w == "" {
      assert s + w == s && parts[|parts| - 1] + w == parts[|parts| - 1];
    } else {
      var front, ch := w[..|w| - 1], w[|w| - 1];
      assert (s + w)[..|s + w| - 1] == s + front;
      SplitAppend(s, front, c);
      assert parts[|parts| - 1] + front + [ch] == parts[|parts| - 1] + w;
    }
  }

  lemma SplitSeparator(s: string, c: char)
    ensures Split(s + [c], c) == Split(s, c) + [""]
  {
    assert (s + [c])[..|s|] == s;
  }

  lemma SplitWhole(s: string, c: char)
    requires c !in s
    ensures Split(s, c) == [s]
  {
    SplitAppend("", s, c);
    assert "" + s == s;
  }
}
