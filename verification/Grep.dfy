/** grep.c's regular expression matcher, after chapter 9 of The Practice of Programming, against the language its
    patterns denote. Strings end where C's do, at the first NUL, so they hold none. */
module Grep {
  /** What a pattern is made of: a character or '.', the same starred, and a final '$'. */
  datatype Piece = One(c: char) | Many(c: char) | End

  /** A '*' after a character stars it, whatever it is; only then is a last '$' the end of the text. */
  function Pieces(re: string): (ps: seq<Piece>)
    decreases |re|
  {
    if re == "" then []
    else if |re| > 1 && re[1] == '*' then [Many(re[0])] + Pieces(re[2..])
    else if re == "$" then [End]
    else [One(re[0])] + Pieces(re[1..])
  }

  predicate Ok(c: char, x: char)
  {
    c == '.' || c == x
  }

  /** The strings a piece denotes. */
  predicate Fits(p: Piece, w: string)
  {
    match p
    case One(c) => |w| == 1 && Ok(c, w[0])
    case Many(c) => forall i :: 0 <= i < |w| ==> Ok(c, w[i])
    case End => w == ""
  }

  /** w is a string of each piece, one after the other. */
  ghost predicate Lang(ps: seq<Piece>, w: string)
    decreases |ps|, 1
  {
    if ps == [] then w == ""
    else exists k :: 0 <= k <= |w| && Splits(ps, w, k)
  }

  ghost predicate Splits(ps: seq<Piece>, w: string, k: int)
    requires ps != [] && 0 <= k <= |w|
    decreases |ps|, 0
  {
    Fits(ps[0], w[..k]) && Lang(ps[1..], w[k..])
  }

  predicate Anchored(ps: seq<Piece>)
  {
    ps != [] && ps[|ps| - 1] == End
  }

  /** text[i..j] is in the language; a final '$' wants it to reach the end of the text. */
  ghost predicate MatchesAt(ps: seq<Piece>, text: string, i: int, j: int)
  {
    0 <= i <= j <= |text| && Lang(ps, text[i..j]) && (Anchored(ps) ==> j == |text|)
  }

  /** Some prefix of text matches. */
  ghost predicate Prefix(ps: seq<Piece>, text: string)
  {
    exists j :: MatchesAt(ps, text, 0, j)
  }

  /** Some substring of text matches re, or some prefix if re starts with '^'. */
  ghost predicate Occurs(re: string, text: string)
  {
    if re != "" && re[0] == '^' then exists j :: MatchesAt(Pieces(re[1..]), text, 0, j)
    else exists i, j :: MatchesAt(Pieces(re), text, i, j)
  }

  // How a match of the first piece leaves the rest.

  lemma PrefixOf(p: Piece, ps: seq<Piece>, text: string, k: int)
    requires 0 <= k <= |text| && Fits(p, text[..k]) && Prefix(ps, text[k..]) && (ps == [] ==> p != End)
    ensures Prefix([p] + ps, text)
  {
    var rest := text[k..];
    var j :| MatchesAt(ps, rest, 0, j);
    var all, w := [p] + ps, text[0..k + j];
    assert all[1..] == ps && w[..k] == text[..k] && w[k..] == rest[0..j];
    assert Splits(all, w, k);
    assert MatchesAt(all, text, 0, k + j);
  }

  lemma PrefixFrom(p: Piece, ps: seq<Piece>, text: string) returns (k: int)
    requires Prefix([p] + ps, text) && (ps == [] ==> p != End)
    ensures 0 <= k <= |text| && Fits(p, text[..k]) && Prefix(ps, text[k..])
  {
    var all := [p] + ps;
    var j :| MatchesAt(all, text, 0, j);
    var w := text[0..j];
    assert Lang(all, w) && all != [];
    k :| 0 <= k <= |w| && Splits(all, w, k);
    assert all[1..] == ps && w[..k] == text[..k] && w[k..] == text[k..][0..j - k];
    assert MatchesAt(ps, text[k..], 0, j - k);
  }

  lemma EmptyMatches(text: string)
    ensures Prefix([], text)
  {
    assert MatchesAt([], text, 0, 0);
  }

  lemma EndMatches(text: string)
    ensures Prefix([End], text) <==> text == ""
  {
    if text == "" {
      assert Splits([End], text[0..0], 0);
      assert MatchesAt([End], text, 0, 0);
    }
    if Prefix([End], text) {
      var j :| MatchesAt([End], text, 0, j);
      assert Lang([End], text[0..j]);
    }
  }

  lemma OneIff(c: char, ps: seq<Piece>, text: string)
    ensures Prefix([One(c)] + ps, text) <==> text != "" && Ok(c, text[0]) && Prefix(ps, text[1..])
  {
    if Prefix([One(c)] + ps, text) {
      var k := PrefixFrom(One(c), ps, text);
      assert k == |text[..k]| && text[..k][0] == text[0];
    }
    if text != "" && Ok(c, text[0]) && Prefix(ps, text[1..]) {
      PrefixOf(One(c), ps, text, 1);
    }
  }

  /** The first k characters match c*, and the rest of text the rest of the pattern. */
  ghost predicate StarAt(c: char, ps: seq<Piece>, text: string, k: int)
  {
    0 <= k <= |text| && (forall i :: 0 <= i < k ==> Ok(c, text[i])) && Prefix(ps, text[k..])
  }

  lemma StarIff(c: char, ps: seq<Piece>, text: string)
    ensures Prefix([Many(c)] + ps, text) <==> exists k :: StarAt(c, ps, text, k)
  {
    if Prefix([Many(c)] + ps, text) {
      var k := PrefixFrom(Many(c), ps, text);
      assert forall i :: 0 <= i < k ==> text[i] == text[..k][i];
      assert StarAt(c, ps, text, k);
    }
    if exists k :: StarAt(c, ps, text, k) {
      var k :| StarAt(c, ps, text, k);
      PrefixOf(Many(c), ps, text, k);
    }
  }

  /** matchhere: whether a prefix of text matches re. */
  method MatchHere(re: string, text: string) returns (r: bool)
    ensures r <==> Prefix(Pieces(re), text)
    decreases |re|, 0
  {
    if re == "" {
      EmptyMatches(text);
      return true;
    }
    if |re| > 1 && re[1] == '*' {
      r := MatchStar(re[0], re[2..], text);
      return;
    }
    if re == "$" {
      EndMatches(text);
      return text == "";
    }
    OneIff(re[0], Pieces(re[1..]), text);
    if text != "" && (re[0] == '.' || re[0] == text[0]) {
      r := MatchHere(re[1..], text[1..]);
      return;
    }
    return false;
  }

  /** matchstar: whether a prefix of text matches c*, then re. */
  method MatchStar(c: char, re: string, text: string) returns (r: bool)
    ensures r <==> Prefix([Many(c)] + Pieces(re), text)
    decreases |re|, 1
  {
    var i := 0;
    while true
      invariant 0 <= i <= |text| && (forall k :: 0 <= k < i ==> Ok(c, text[k]))
      invariant forall k :: 0 <= k < i ==> !Prefix(Pieces(re), text[k..])
      decreases |text| - i
    {
      r := MatchHere(re, text[i..]);
      if r {
        StarIff(c, Pieces(re), text);
        assert StarAt(c, Pieces(re), text, i);
        return true;
      }
      if i == |text| || !(text[i] == c || c == '.') {
        break;
      }
      i := i + 1;
    }
    StarIff(c, Pieces(re), text);
    assert forall k :: StarAt(c, Pieces(re), text, k) ==> k <= i;
    return false;
  }

  /** match: whether re occurs in text. */
  method Match(re: string, text: string) returns (r: bool)
    ensures r <==> Occurs(re, text)
  {
    if re != "" && re[0] == '^' {
      r := MatchHere(re[1..], text);
      return;
    }
    ghost var ps := Pieces(re);
    var i := 0;
    while true
      invariant 0 <= i <= |text| && forall k :: 0 <= k < i ==> !Prefix(ps, text[k..])
      decreases |text| - i
    {
      r := MatchHere(re, text[i..]);
      if r {
        ghost var j :| MatchesAt(ps, text[i..], 0, j);
        assert text[i..][0..j] == text[i..i + j];
        assert MatchesAt(ps, text, i, i + j);
        return true;
      }
      if i == |text| {
        break;
      }
      i := i + 1;
    }
    forall a, b | MatchesAt(ps, text, a, b)
      ensures false
    {
      assert text[a..][0..b - a] == text[a..b];
      assert MatchesAt(ps, text[a..], 0, b - a);
    }
    return false;
  }
}
