/** Matching of `.aivcsignore` patterns with a two-row table. */
module Wildcard {

  /** What a pattern character may stand for. */
  predicate Covers(token: char, piece: string) {
    token == '*' || (|piece| == 1 && (token == '?' || token == piece[0]))
  }

  function Concat(pieces: seq<string>): string {
    if pieces == [] then "" else Concat(pieces[..|pieces| - 1]) + pieces[|pieces| - 1]
  }

  /** The pieces cut a string up so that every pattern character covers its piece. */
  predicate Reading(pattern: string, pieces: seq<string>) {
    |pieces| == |pattern| && forall i :: 0 <= i < |pattern| ==> Covers(pattern[i], pieces[i])
  }

  /** The glob relation: some way of cutting the value up fits the pattern. */
  ghost predicate Matches(pattern: string, value: string) {
    exists pieces :: Reading(pattern, pieces) && Concat(pieces) == value
  }

  lemma MatchesEmptyPattern(value: string)
    ensures Matches("", value) <==> value == ""
  {
    assert Reading("", []) && Concat([]) == "";
  }

  lemma MatchSnoc(pattern: string, value: string, token: char, piece: string)
    requires Matches(pattern, value) && Covers(token, piece)
    ensures Matches(pattern + [token], value + piece)
  {
    var pieces :| Reading(pattern, pieces) && Concat(pieces) == value;
    var more := pieces + [piece];
    assert more[..|more| - 1] == pieces;
    assert Reading(pattern + [token], more) && Concat(more) == value + piece;
  }

  lemma MatchUnsnoc(pattern: string, token: char, value: string) returns (piece: string)
    requires Matches(pattern + [token], value)
    ensures |piece| <= |value| && value == value[..|value| - |piece|] + piece
    ensures Covers(token, piece) && Matches(pattern, value[..|value| - |piece|])
  {
    var pieces :| Reading(pattern + [token], pieces) && Concat(pieces) == value;
    var init := pieces[..|pieces| - 1];
    piece := pieces[|pieces| - 1];
    assert pieces == init + [piece];
    assert forall i :: 0 <= i < |pattern| ==> (pattern + [token])[i] == pattern[i];
    assert Reading(pattern, init);
    assert value[..|value| - |piece|] == Concat(init);
  }

  /** A star matches what it matched before, or one character more. */
  lemma StarRow(pattern: string, value: string, j: nat)
    requires j <= |value|
    ensures Matches(pattern + ['*'], value[..j])
            <==> Matches(pattern, value[..j]) || (j > 0 && Matches(pattern + ['*'], value[..j - 1]))
  {
    if Matches(pattern, value[..j]) {
      MatchSnoc(pattern, value[..j], '*', "");
      assert value[..j] + "" == value[..j];
    }
    if j > 0 && Matches(pattern + ['*'], value[..j - 1]) {
      var shorter := value[..j - 1];
      var piece := MatchUnsnoc(pattern, '*', shorter);
      var start := shorter[..|shorter| - |piece|];
      MatchSnoc(pattern, start, '*', piece + [value[j - 1]]);
      assert start + (piece + [value[j - 1]]) == value[..j];
    }
    if Matches(pattern + ['*'], value[..j]) && !Matches(pattern, value[..j]) {
      var piece := MatchUnsnoc(pattern, '*', value[..j]);
      assert piece != "" by {
        assert value[..j][..j] == value[..j];
      }
      var start := value[..j][..j - |piece|];
      MatchSnoc(pattern, start, '*', piece[..|piece| - 1]);
      assert start + piece[..|piece| - 1] == value[..j - 1];
    }
  }

  /** Any other character uses up the last character of the value. */
  lemma CharRow(pattern: string, token: char, value: string, j: nat)
    requires j <= |value| && token != '*'
    ensures Matches(pattern + [token], value[..j])
            <==> j > 0 && Matches(pattern, value[..j - 1]) && (token == '?' || token == value[j - 1])
  {
    if Matches(pattern + [token], value[..j]) {
      var piece := MatchUnsnoc(pattern, token, value[..j]);
      assert value[..j][..j - 1] == value[..j - 1];
      assert piece[0] == value[..j][j - 1];
    }
    if j > 0 && Matches(pattern, value[..j - 1]) && (token == '?' || token == value[j - 1]) {
      MatchSnoc(pattern, value[..j - 1], token, [value[j - 1]]);
      assert value[..j - 1] + [value[j - 1]] == value[..j];
    }
  }

  ghost predicate RowIs(row: seq<bool>, pattern: string, value: string, upTo: nat)
    requires upTo <= |row| <= |value| + 1
  {
    forall j :: 0 <= j < upTo ==> (row[j] <==> Matches(pattern, value[..j]))
  }

  method WildcardMatch(pattern: string, value: string) returns (matched: bool)
    ensures matched <==> Matches(pattern, value)
  {
    var n := |value|;
    var previous := new bool[n + 1](_ => false);
    previous[0] := true;
    forall j: nat | j <= n
      ensures previous[j] <==> Matches(pattern[..0], value[..j])
    {
      MatchesEmptyPattern(value[..j]);
    }
    for i := 0 to |pattern|
      invariant previous.Length == n + 1
      invariant RowIs(previous[..], pattern[..i], value, n + 1)
    {
      var token := pattern[i];
      var current := new bool[n + 1](_ => false);
      assert pattern[..i + 1] == pattern[..i] + [token];
      if token == '*' {
        current[0] := previous[0];
        StarRow(pattern[..i], value, 0);
        for index := 1 to n + 1
          invariant previous.Length == n + 1 && RowIs(previous[..], pattern[..i], value, n + 1)
          invariant RowIs(current[..], pattern[..i + 1], value, index)
        {
          StarRow(pattern[..i], value, index);
          current[index] := previous[index] || current[index - 1];
        }
      } else {
        CharRow(pattern[..i], token, value, 0);
        for index := 1 to n + 1
          invariant previous.Length == n + 1 && RowIs(previous[..], pattern[..i], value, n + 1)
          invariant RowIs(current[..], pattern[..i + 1], value, index)
        {
          CharRow(pattern[..i], token, value, index);
          current[index] := previous[index - 1] && (token == '?' || token == value[index - 1]);
        }
      }
      previous := current;
    }
    assert pattern[..|pattern|] == pattern && value[..n] == value;
    return previous[n];
  }
}
