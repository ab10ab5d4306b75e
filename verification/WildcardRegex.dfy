/** `WildcardToRegex` of util/util/misc.hpp, against a semantics of regular expressions. */
module WildcardRegex {
  import opened Wrappers
  import opened Wildcard

  // ----- Regular expressions: characters, `.`, escapes and the postfix `*` -----

  datatype Atom = Literal(c: char) | AnyChar
  datatype Piece = Piece(atom: Atom, starred: bool)

  predicate IsMeta(c: char) {
    c in "+()^$.{}[]|\\*?"
  }

  /** Reads a regular expression; anything outside this subset is refused. */
  function Parse(re: string): Option<seq<Piece>>
    decreases |re|, 0
  {
    if re == [] then Some([])
    else if re[0] == '\\' then
      if |re| > 1 && IsMeta(re[1]) then ParseStar(Literal(re[1]), re[2..]) else None
    else if re[0] == '.' then ParseStar(AnyChar, re[1..])
    else if IsMeta(re[0]) then None
    else ParseStar(Literal(re[0]), re[1..])
  }

  function ParseStar(atom: Atom, rest: string): Option<seq<Piece>>
    decreases |rest|, 1
  {
    var starred := rest != [] && rest[0] == '*';
    match Parse(if starred then rest[1..] else rest)
    case None => None
    case Some(pieces) => Some([Piece(atom, starred)] + pieces)
  }

  predicate AtomAccepts(atom: Atom, c: char) {
    atom.AnyChar? || atom.c == c
  }

  predicate PieceAccepts(p: Piece, s: string) {
    if p.starred then forall i | 0 <= i < |s| :: AtomAccepts(p.atom, s[i])
    else |s| == 1 && AtomAccepts(p.atom, s[0])
  }

  /** The whole of `s` splits into parts accepted by the pieces one after the other. */
  predicate FullMatch(pieces: seq<Piece>, s: string)
    decreases |pieces|
  {
    if pieces == [] then s == []
    else exists k | 0 <= k <= |s| :: PieceAccepts(pieces[0], s[..k]) && FullMatch(pieces[1..], s[k..])
  }

  // ----- The translation -----

  const ESCAPE := "+()^$.{}[]|\\"

  function CharToRegex(ch: char): string {
    if ch == '*' then ".*"
    else if ch == '?' then "."
    else if ch in ESCAPE then ['\\', ch]
    else [ch]
  }

  function ToRegex(wc: string): string {
    if wc == [] then [] else CharToRegex(wc[0]) + ToRegex(wc[1..])
  }

  lemma OneMoreChar(re: string, wc: string, i: nat)
    requires i < |wc|
    ensures re + ToRegex(wc[i..]) == re + CharToRegex(wc[i]) + ToRegex(wc[i + 1..])
  {
    assert wc[i..][1..] == wc[i + 1..];
  }

  method WildcardToRegex(wc: string) returns (re: string)
    ensures re == ToRegex(wc)
  {
    re := [];
    var i := 0;
    while i < |wc|
      invariant i <= |wc| && re + ToRegex(wc[i..]) == ToRegex(wc)
    {
      OneMoreChar(re, wc, i);
      var ch := wc[i];
      if ch == '*' {
        re := re + ".*";
      } else if ch == '?' {
        re := re + ['.'];
      } else if ch in ESCAPE {
        assert re + ['\\'] + [ch] == re + ['\\', ch];
        re := re + ['\\'];
        re := re + [ch];
      } else {
        re := re + [ch];
      }
      i := i + 1;
    }
  }

  // ----- What the translation means -----

  function CharToPiece(ch: char): Piece {
    if ch == '*' then Piece(AnyChar, true)
    else if ch == '?' then Piece(AnyChar, false)
    else Piece(Literal(ch), false)
  }

  function Pieces(wc: string): seq<Piece> {
    if wc == [] then [] else [CharToPiece(wc[0])] + Pieces(wc[1..])
  }

  function PieceToChar(p: Piece): char {
    match p.atom
    case AnyChar => if p.starred then '*' else '?'
    case Literal(c) => c
  }

  function FromPieces(pieces: seq<Piece>): string {
    if pieces == [] then [] else [PieceToChar(pieces[0])] + FromPieces(pieces[1..])
  }

  /** The text reads back as one piece per wildcard character. */
  lemma {:induction false} ParseInverts(wc: string)
    ensures Parse(ToRegex(wc)) == Some(Pieces(wc))
    ensures ToRegex(wc) != [] ==> ToRegex(wc)[0] != '*'
  {
    if wc != [] {
      ParseInverts(wc[1..]);
      var rest := ToRegex(wc[1..]);
      var re := ToRegex(wc);
      if wc[0] == '*' {
        assert re[1..] == ['*'] + rest && re[1..][1..] == rest;
      } else if wc[0] == '?' {
        assert re[1..] == rest;
      } else if wc[0] in ESCAPE {
        assert re[2..] == rest;
      } else {
        assert re[1..] == rest;
      }
    }
  }

  lemma {:induction false} PiecesInvert(wc: string)
    ensures FromPieces(Pieces(wc)) == wc
  {
    if wc != [] {
      PiecesInvert(wc[1..]);
    }
  }

  lemma {:induction false} PiecesMatch(wc: string, s: string)
    ensures FullMatch(Pieces(wc), s) <==> Match(wc, s, false)
    decreases |wc| + |s|
  {
    if wc != [] {
      var p, rest := CharToPiece(wc[0]), Pieces(wc[1..]);
      if wc[0] == '*' {
        PiecesMatch(wc[1..], s);
        if FullMatch(rest, s) {
          assert PieceAccepts(p, s[..0]) && s[0..] == s;
        }
        if s != [] {
          PiecesMatch(wc, s[1..]);
          StarTakesOneMore(rest, s);
        }
        if FullMatch(Pieces(wc), s) && !FullMatch(rest, s) {
          var k :| 0 <= k <= |s| && PieceAccepts(p, s[..k]) && FullMatch(rest, s[k..]);
          assert s[0..] == s;
        }
      } else if s != [] {
        PiecesMatch(wc[1..], s[1..]);
        assert s[..1] == [s[0]];
      }
    }
  }

  /** `.*` accepts one more character when a non-empty part is left to it. */
  lemma StarTakesOneMore(rest: seq<Piece>, s: string)
    requires s != []
    ensures var all := [Piece(AnyChar, true)] + rest;
            FullMatch(all, s) <==> FullMatch(rest, s) || FullMatch(all, s[1..])
  {
    var p := Piece(AnyChar, true);
    var all := [p] + rest;
    assert all[1..] == rest;
    if FullMatch(all, s) {
      var k :| 0 <= k <= |s| && PieceAccepts(p, s[..k]) && FullMatch(rest, s[k..]);
      if k == 0 {
        assert s[0..] == s;
      } else {
        assert s[1..][k - 1..] == s[k..] && PieceAccepts(p, s[1..][..k - 1]);
      }
    }
    if FullMatch(rest, s) {
      assert PieceAccepts(p, s[..0]) && s[0..] == s;
    }
    if FullMatch(all, s[1..]) {
      var k :| 0 <= k <= |s[1..]| && PieceAccepts(p, s[1..][..k]) && FullMatch(rest, s[1..][k..]);
      assert s[1..][k..] == s[k + 1..] && PieceAccepts(p, s[..k + 1]);
    }
  }

  /** The regular expression fully matches exactly what the wildcard matches, and the wildcard
      can be recovered from its text. */
  lemma {:induction false} TranslationIsFaithful(wc: string, s: string)
    ensures Parse(ToRegex(wc)).Some?
    ensures FullMatch(Parse(ToRegex(wc)).value, s) <==> Match(wc, s, false)
    ensures FromPieces(Parse(ToRegex(wc)).value) == wc
  {
    ParseInverts(wc);
    PiecesInvert(wc);
    PiecesMatch(wc, s);
  }
}
