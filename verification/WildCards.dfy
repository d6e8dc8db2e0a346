/** Matching with the wildcards '?' and '*', as a backtracking walk over both strings. */
module WildCards {

  /** The piece of the string that one pattern character may stand for. */
  predicate StandsFor(c: char, piece: string) {
    c == '*' || (|piece| == 1 && (c == '?' || piece[0] == c))
  }

  function Concat(pieces: seq<string>): string {
    if pieces == [] then "" else pieces[0] + Concat(pieces[1..])
  }

  /** `pieces` cuts the string into one piece per pattern character. */
  ghost predicate IsCut(str: string, pattern: string, pieces: seq<string>) {
    && |pieces| == |pattern| && Concat(pieces) == str
    && forall i | 0 <= i < |pattern| :: StandsFor(pattern[i], pieces[i])
  }

  ghost predicate Matches(str: string, pattern: string) {
    exists pieces: seq<string> :: IsCut(str, pattern, pieces)
  }

  // ----- one pattern character at a time

  lemma CutHead(str: string, pattern: string, pieces: seq<string>)
    requires pattern != "" && IsCut(str, pattern, pieces)
    ensures |pieces[0]| <= |str| && str[..|pieces[0]|] == pieces[0] && StandsFor(pattern[0], pieces[0])
    ensures IsCut(str[|pieces[0]|..], pattern[1..], pieces[1..])
  {
    assert str[|pieces[0]|..] == Concat(pieces[1..]);
  }

  lemma AddHead(piece: string, str: string, pattern: string)
    requires pattern != "" && StandsFor(pattern[0], piece) && Matches(str, pattern[1..])
    ensures Matches(piece + str, pattern)
  {
    var pieces :| IsCut(str, pattern[1..], pieces);
    assert ([piece] + pieces)[1..] == pieces;
    assert IsCut(piece + str, pattern, [piece] + pieces);
  }

  lemma EmptyPattern(str: string)
    ensures Matches(str, "") <==> str == ""
  {
    if str == "" {
      assert IsCut(str, "", []);
    }
  }

  /** '?' and ordinary characters take one character of the string. */
  lemma SingleTakesOne(str: string, pattern: string)
    requires pattern != "" && pattern[0] != '*'
    ensures Matches(str, pattern) <==>
            str != "" && (pattern[0] == '?' || str[0] == pattern[0]) && Matches(str[1..], pattern[1..])
  {
    if Matches(str, pattern) {
      var pieces :| IsCut(str, pattern, pieces);
      CutHead(str, pattern, pieces);
    }
    if str != "" && (pattern[0] == '?' || str[0] == pattern[0]) && Matches(str[1..], pattern[1..]) {
      AddHead(str[..1], str[1..], pattern);
      assert str[..1] + str[1..] == str;
    }
  }

  /** '*' takes nothing, or one character and then goes on. */
  lemma StarTakesAny(str: string, pattern: string)
    requires pattern != "" && pattern[0] == '*'
    ensures Matches(str, pattern) <==> Matches(str, pattern[1..]) || (str != "" && Matches(str[1..], pattern))
  {
    if Matches(str, pattern) {
      var pieces :| IsCut(str, pattern, pieces);
      CutHead(str, pattern, pieces);
      var piece := pieces[0];
      if piece == "" {
        assert str[0..] == str;
      } else {
        AddHead(piece[1..], str[|piece|..], pattern);
        assert piece[1..] + str[|piece|..] == str[1..];
      }
    }
    if Matches(str, pattern[1..]) {
      AddHead("", str, pattern);
      assert "" + str == str;
    }
    if str != "" && Matches(str[1..], pattern) {
      var pieces :| IsCut(str[1..], pattern, pieces);
      CutHead(str[1..], pattern, pieces);
      var piece := str[..1] + pieces[0];
      AddHead(piece, str[1..][|pieces[0]|..], pattern);
      assert piece + str[1..][|pieces[0]|..] == str;
    }
  }

  /** True iff the string can be cut to fit the pattern.  The arguments are what is
      still to be read of the two strings. */
  method WildCardMatch(str: string, pattern: string) returns (r: bool)
    ensures r <==> Matches(str, pattern)
    decreases |pattern| + |str|
  {
    var s, p := str, pattern;
    while p != ""
      invariant Matches(s, p) <==> Matches(str, pattern)
      invariant |p| + |s| <= |pattern| + |str|
      decreases |p|
    {
      if p[0] == '*' {
        StarTakesAny(s, p);
        r := WildCardMatch(s, p[1..]);
        if r {
          return;
        }
        if s != "" {
          r := WildCardMatch(s[1..], p);
        }
        return;
      }
      SingleTakesOne(s, p);
      if s == "" || (p[0] != '?' && s[0] != p[0]) {
        return false;
      }
      s, p := s[1..], p[1..];
    }
    EmptyPattern(s);
    r := s == "";
  }
}
