/** `fnmatch` on literals, `*` and `?` (section 2.13 of the POSIX.1 Shell Command Language). */
module Wildcard {

  /** ASCII case folding, applied under FNM_CASEFOLD. */
  function Fold(c: char, iCase: bool): char {
    if iCase && 'A' <= c <= 'Z' then c - 'A' + 'a' else c
  }

  predicate SameChar(a: char, b: char, iCase: bool) {
    Fold(a, iCase) == Fold(b, iCase)
  }

  predicate Match(pattern: string, text: string, iCase: bool)
    decreases |pattern| + |text|
  {
    if pattern == [] then text == []
    else if pattern[0] == '*' then
      Match(pattern[1..], text, iCase) || (text != [] && Match(pattern, text[1..], iCase))
    else
      && text != []
      && (pattern[0] == '?' || SameChar(pattern[0], text[0], iCase))
      && Match(pattern[1..], text[1..], iCase)
  }

  /** Everything `narrow` accepts is accepted by `wide`. */
  ghost predicate Includes(wide: string, narrow: string, iCase: bool) {
    forall text: string :: Match(narrow, text, iCase) ==> Match(wide, text, iCase)
  }

  /** A pattern without `?` that matches another pattern, read as text, accepts all that the
      other one accepts, whatever wildcards that one contains. */
  lemma {:induction false} MatchIsTransitive(p: string, q: string, t: string, iCase: bool)
    requires '?' !in p && Match(p, q, iCase) && Match(q, t, iCase)
    ensures Match(p, t, iCase)
    decreases |p| + |q| + |t|
  {
    if q == [] {
    } else if p[0] == '*' && Match(p[1..], q, iCase) {
      MatchIsTransitive(p[1..], q, t, iCase);
    } else if q[0] == '*' {
      assert p[0] == '*';
      if Match(q[1..], t, iCase) {
        MatchIsTransitive(p, q[1..], t, iCase);
      } else {
        MatchIsTransitive(p, q, t[1..], iCase);
      }
    } else if p[0] == '*' {
      MatchIsTransitive(p, q[1..], t[1..], iCase);
    } else {
      assert p[0] != '?';
      MatchIsTransitive(p[1..], q[1..], t[1..], iCase);
    }
  }

  /** The fewest characters a text matched by the pattern can have. */
  function MinLength(p: string): nat {
    if p == [] then 0 else (if p[0] == '*' then 0 else 1) + MinLength(p[1..])
  }

  lemma {:induction false} MatchIsLongEnough(p: string, t: string, iCase: bool)
    requires Match(p, t, iCase)
    ensures |t| >= MinLength(p)
    decreases |p| + |t|
  {
    if p != [] {
      if p[0] == '*' {
        if Match(p[1..], t, iCase) {
          MatchIsLongEnough(p[1..], t, iCase);
        } else {
          MatchIsLongEnough(p, t[1..], iCase);
        }
      } else {
        MatchIsLongEnough(p[1..], t[1..], iCase);
      }
    }
  }

  /** The pattern with each `*` dropped and each `?` turned into `*`. */
  function Starve(p: string): string {
    if p == [] then []
    else (if p[0] == '*' then [] else if p[0] == '?' then "*" else [p[0]]) + Starve(p[1..])
  }

  /** The literals of the pattern. */
  function Literals(p: string): string {
    if p == [] then []
    else (if p[0] == '*' || p[0] == '?' then [] else [p[0]]) + Literals(p[1..])
  }

  lemma {:induction false} MatchesStarved(p: string, iCase: bool)
    ensures Match(p, Starve(p), iCase) && Match(Starve(p), Literals(p), iCase)
    ensures '?' in p ==> |Literals(p)| < MinLength(p)
    ensures |Literals(p)| <= MinLength(p)
  {
    if p != [] {
      MatchesStarved(p[1..], iCase);
      var q, t := Starve(p), Literals(p);
      if p[0] == '*' {
        assert q == Starve(p[1..]) && t == Literals(p[1..]);
      } else if p[0] == '?' {
        assert q[1..] == Starve(p[1..]) && t == Literals(p[1..]);
      } else {
        assert q[1..] == Starve(p[1..]) && t[1..] == Literals(p[1..]);
      }
    }
  }

  /** Matching a pattern as text decides inclusion soundly exactly for patterns without `?`:
      a `?` also matches the one-character pattern `*`, which accepts shorter texts. */
  lemma SoundSubsumer(p: string, iCase: bool)
    ensures '?' !in p <==> forall q: string :: Match(p, q, iCase) ==> Includes(p, q, iCase)
  {
    if '?' !in p {
      forall q: string, t: string | Match(p, q, iCase) && Match(q, t, iCase)
        ensures Match(p, t, iCase)
      {
        MatchIsTransitive(p, q, t, iCase);
      }
    } else {
      MatchesStarved(p, iCase);
      if Match(p, Literals(p), iCase) {
        MatchIsLongEnough(p, Literals(p), iCase);
      }
      assert Match(p, Starve(p), iCase) && !Includes(p, Starve(p), iCase);
    }
  }

  // ----- What a match means, piece by piece -----

  /** The same letter in the other case. */
  function OtherCase(c: char): char {
    if 'A' <= c <= 'Z' then c + 32 as char
    else if 'a' <= c <= 'z' then c - 32 as char
    else c
  }

  /** The texts that one character of a pattern accepts. */
  predicate Accepts(c: char, piece: string, iCase: bool) {
    c == '*' || (|piece| == 1 && (c == '?' || piece[0] == c || (iCase && piece[0] == OtherCase(c))))
  }

  function Concat(pieces: seq<string>): string {
    if pieces == [] then "" else pieces[0] + Concat(pieces[1..])
  }

  /** The text is cut into one piece for each character of the pattern. */
  ghost predicate Aligned(p: string, t: string, iCase: bool, pieces: seq<string>) {
    |pieces| == |p| && Concat(pieces) == t && forall i | 0 <= i < |p| :: Accepts(p[i], pieces[i], iCase)
  }

  lemma {:induction false} SameCharIs(a: char, b: char, iCase: bool)
    ensures SameChar(a, b, iCase) <==> b == a || (iCase && b == OtherCase(a))
  {
  }

  lemma AlignedCons(p: string, t: string, iCase: bool, piece: string, more: seq<string>)
    requires p != "" && |piece| <= |t| && t[..|piece|] == piece && Accepts(p[0], piece, iCase)
    requires Aligned(p[1..], t[|piece|..], iCase, more)
    ensures Aligned(p, t, iCase, [piece] + more)
  {
    assert ([piece] + more)[1..] == more;
    assert piece + t[|piece|..] == t;
    forall i | 0 <= i < |p|
      ensures Accepts(p[i], ([piece] + more)[i], iCase)
    {
      assert i > 0 ==> Accepts(p[1..][i - 1], more[i - 1], iCase);
    }
  }

  lemma AlignedLonger(p: string, t: string, iCase: bool, pieces: seq<string>)
    requires p != "" && p[0] == '*' && t != "" && Aligned(p, t[1..], iCase, pieces)
    ensures Aligned(p, t, iCase, [[t[0]] + pieces[0]] + pieces[1..])
  {
    var longer := [[t[0]] + pieces[0]] + pieces[1..];
    assert longer[1..] == pieces[1..];
    assert [t[0]] + pieces[0] + Concat(pieces[1..]) == [t[0]] + (pieces[0] + Concat(pieces[1..]));
    assert [t[0]] + t[1..] == t;
  }

  lemma {:induction false} MatchAligns(p: string, t: string, iCase: bool) returns (pieces: seq<string>)
    requires Match(p, t, iCase)
    ensures Aligned(p, t, iCase, pieces)
    decreases |p| + |t|
  {
    if p == "" {
      pieces := [];
    } else if p[0] == '*' {
      if Match(p[1..], t, iCase) {
        pieces := MatchAligns(p[1..], t, iCase);
        assert t[0..] == t;
        AlignedCons(p, t, iCase, "", pieces);
        pieces := [""] + pieces;
      } else {
        pieces := MatchAligns(p, t[1..], iCase);
        AlignedLonger(p, t, iCase, pieces);
        pieces := [[t[0]] + pieces[0]] + pieces[1..];
      }
    } else {
      pieces := MatchAligns(p[1..], t[1..], iCase);
      SameCharIs(p[0], t[0], iCase);
      AlignedCons(p, t, iCase, [t[0]], pieces);
      pieces := [[t[0]]] + pieces;
    }
  }

  lemma AlignedRest(p: string, t: string, iCase: bool, pieces: seq<string>)
    requires p != "" && Aligned(p, t, iCase, pieces)
    ensures t == pieces[0] + t[|pieces[0]|..] && Aligned(p[1..], t[|pieces[0]|..], iCase, pieces[1..])
  {
  }

  lemma {:induction false} AlignedMatches(p: string, t: string, iCase: bool, pieces: seq<string>)
    requires Aligned(p, t, iCase, pieces)
    ensures Match(p, t, iCase)
    decreases |p| + |t|
  {
    if p != "" {
      AlignedRest(p, t, iCase, pieces);
      var piece := pieces[0];
      if p[0] == '*' && piece == "" {
        AlignedMatches(p[1..], t, iCase, pieces[1..]);
      } else if p[0] == '*' {
        var shorter := [piece[1..]] + pieces[1..];
        assert t[1..][..|piece| - 1] == piece[1..] && t[1..][|piece| - 1..] == t[|piece|..];
        AlignedCons(p, t[1..], iCase, piece[1..], pieces[1..]);
        AlignedMatches(p, t[1..], iCase, shorter);
      } else {
        assert Accepts(p[0], piece, iCase);
        SameCharIs(p[0], t[0], iCase);
        AlignedMatches(p[1..], t[1..], iCase, pieces[1..]);
      }
    }
  }

  /** A pattern matches a text if and only if the text can be cut into one piece for each character of the
      pattern: any text for `*`, one character for `?`, and the character itself, or with `iCase` the same
      letter in the other case, for any other. */
  lemma MatchIsAligned(p: string, t: string, iCase: bool)
    ensures Match(p, t, iCase) <==> exists pieces: seq<string> :: Aligned(p, t, iCase, pieces)
  {
    if Match(p, t, iCase) {
      var pieces := MatchAligns(p, t, iCase);
    }
    forall pieces: seq<string> | Aligned(p, t, iCase, pieces)
      ensures Match(p, t, iCase)
    {
      AlignedMatches(p, t, iCase, pieces);
    }
  }

  ghost predicate SameButCase(s: string, t: string) {
    |s| == |t| && forall i | 0 <= i < |s| :: t[i] == s[i] || t[i] == OtherCase(s[i])
  }

  /** Under `iCase` the case of the letters matters neither in the pattern nor in the text. */
  lemma {:induction false} CaseDoesNotMatter(p: string, q: string, t: string, u: string)
    requires SameButCase(p, q) && SameButCase(t, u)
    ensures Match(p, t, true) <==> Match(q, u, true)
    decreases |p| + |t|
  {
    if p != "" {
      assert q[0] == p[0] || q[0] == OtherCase(p[0]);
      CaseDoesNotMatter(p[1..], q[1..], t, u);
      if t != "" {
        assert u[0] == t[0] || u[0] == OtherCase(t[0]);
        CaseDoesNotMatter(p, q, t[1..], u[1..]);
        CaseDoesNotMatter(p[1..], q[1..], t[1..], u[1..]);
      }
    }
  }
}
