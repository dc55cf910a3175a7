/**
 `CamelCaseToSnakeCase`: one left-to-right scan that emits, for every input
 character, its lower-case form, followed by `_` when one of two boundary
 rules fires at that position. Both rules look ahead; neither fires on `_`.
 */
module SnakeCase {
  import opened Ascii

  /** Which branch of the scan handles a position, in the order they are tried. */
  datatype Rule =
    | AcronymBoundary  // next is upper case and the one after it lower case
    | WordBoundary     // this is lower case or a digit and next is upper case
    | NoBoundary       // plain lower-casing

  /**
   The branch the scan takes at position `i` of `s`. The two rules, tried in
   order, fire exactly where `BoundaryAfter` holds, and the second fires only
   where the first cannot.
   */
  function RuleAt(s: string, i: nat): (r: Rule)
    requires i < |s|
    ensures r != NoBoundary <==> BoundaryAfter(s, i)
    ensures r == WordBoundary ==> !(i + 2 < |s| && IsLower(s[i + 2]))
  {
    if s[i] != '_' && i + 2 < |s| && IsUpper(s[i + 1]) && IsLower(s[i + 2]) then
      AcronymBoundary
    else if s[i] != '_' && i + 1 < |s| && (IsLower(s[i]) || IsDigit(s[i])) && IsUpper(s[i + 1]) then
      WordBoundary
    else
      NoBoundary
  }

  /** What the scan appends for position `i`. */
  function Piece(s: string, i: nat): string
    requires i < |s|
  {
    if RuleAt(s, i) == NoBoundary then [ToLower(s[i])] else [ToLower(s[i]), '_']
  }

  /**
   The boundary condition written as one predicate: an `_` goes after
   position `i` exactly when `s[i]` is not `_`, the next character is upper
   case, and either `s[i]` is lower case or a digit or the character after
   the next one is lower case.
   */
  predicate BoundaryAfter(s: string, i: nat)
    requires i < |s|
  {
    && s[i] != '_'
    && i + 1 < |s|
    && IsUpper(s[i + 1])
    && (IsLower(s[i]) || IsDigit(s[i]) || (i + 2 < |s| && IsLower(s[i + 2])))
  }

  /** Number of boundaries strictly before position `n`. */
  function BreakCount(s: string, n: nat): (c: nat)
    requires n <= |s|
    ensures c <= n
  {
    if n == 0 then 0
    else BreakCount(s, n - 1) + (if BoundaryAfter(s, n - 1) then 1 else 0)
  }

  /** Where the lower-cased image of input character `i` lands in the output. */
  function Image(s: string, i: nat): nat
    requires i < |s|
  {
    i + BreakCount(s, i)
  }

  /**
   The output of the scan after its first `n` iterations: every iteration
   appends one lower-cased character, plus one `_` at a boundary.
   */
  function SnakePrefix(s: string, n: nat): (r: string)
    requires n <= |s|
    ensures |r| == n + BreakCount(s, n)
    ensures NoUpper(r)
  {
    if n == 0 then ""
    else
      SnakePrefix(s, n - 1) + Piece(s, n - 1)
  }

  /**
   Where the scan puts input characters: character `i` lands at position
   `Image(s, i)` of the output, lower cased.
   */
  lemma {:induction false} SnakePrefixImages(s: string, n: nat)
    requires n <= |s|
    ensures forall i :: 0 <= i < n ==>
              Image(s, i) < |SnakePrefix(s, n)| && SnakePrefix(s, n)[Image(s, i)] == ToLower(s[i])
  {
    if n > 0 {
      SnakePrefixImages(s, n - 1);
      var prev := SnakePrefix(s, n - 1);
      var r := SnakePrefix(s, n);
      assert r == prev + Piece(s, n - 1);
      assert Image(s, n - 1) == |prev|;
      forall i | 0 <= i < n
        ensures Image(s, i) < |r| && r[Image(s, i)] == ToLower(s[i])
      {
        if i < n - 1 {
          assert r[Image(s, i)] == prev[Image(s, i)];
        }
      }
    }
  }

  /** Where the scan puts `_`: right behind the image of a character a boundary follows. */
  lemma {:induction false} SnakePrefixUnderscores(s: string, n: nat)
    requires n <= |s|
    ensures forall i :: 0 <= i < n && BoundaryAfter(s, i) ==>
              Image(s, i) + 1 < |SnakePrefix(s, n)| && SnakePrefix(s, n)[Image(s, i) + 1] == '_'
  {
    if n > 0 {
      SnakePrefixUnderscores(s, n - 1);
      var prev := SnakePrefix(s, n - 1);
      var r := SnakePrefix(s, n);
      assert r == prev + Piece(s, n - 1);
      assert Image(s, n - 1) == |prev|;
      forall i | 0 <= i < n && BoundaryAfter(s, i)
        ensures Image(s, i) + 1 < |r| && r[Image(s, i) + 1] == '_'
      {
        if i < n - 1 {
          assert r[Image(s, i) + 1] == prev[Image(s, i) + 1];
        }
      }
    }
  }

  /** Every output character that is neither `_` nor a lower-case letter is an input character. */
  lemma {:induction false} SnakePrefixCharacters(s: string, n: nat)
    requires n <= |s|
    ensures forall k :: 0 <= k < |SnakePrefix(s, n)| && SnakePrefix(s, n)[k] != '_' && !IsLower(SnakePrefix(s, n)[k]) ==>
              SnakePrefix(s, n)[k] in s
  {
    if n > 0 {
      SnakePrefixCharacters(s, n - 1);
      var prev := SnakePrefix(s, n - 1);
      var piece := Piece(s, n - 1);
      var r := SnakePrefix(s, n);
      assert r == prev + piece;
      forall k | 0 <= k < |r| && r[k] != '_' && !IsLower(r[k])
        ensures r[k] in s
      {
        if k < |prev| {
          assert r[k] == prev[k];
        } else {
          assert r[k] == piece[k - |prev|];
          assert r[k] == ToLower(s[n - 1]);
          assert r[k] == s[n - 1];
        }
      }
    }
  }

  /** Converts a CamelCase identifier to snake_case. */
  function CamelCaseToSnakeCase(s: string): (r: string)
    ensures |r| == |s| + BreakCount(s, |s|)
    ensures NoUpper(r)
  {
    SnakePrefix(s, |s|)
  }

  /**
   Where the conversion puts things: input character `i` lands lower cased at
   `Image(s, i)`, an `_` follows it exactly at a boundary, and every output
   character that is neither `_` nor a lower-case letter is an input character.
   */
  lemma Placement(s: string)
    ensures var r := CamelCaseToSnakeCase(s);
            forall i :: 0 <= i < |s| ==> Image(s, i) < |r| && r[Image(s, i)] == ToLower(s[i])
    ensures var r := CamelCaseToSnakeCase(s);
            forall i :: 0 <= i < |s| && BoundaryAfter(s, i) ==> Image(s, i) + 1 < |r| && r[Image(s, i) + 1] == '_'
    ensures var r := CamelCaseToSnakeCase(s);
            forall k :: 0 <= k < |r| && r[k] != '_' && !IsLower(r[k]) ==> r[k] in s
  {
    SnakePrefixImages(s, |s|);
    SnakePrefixUnderscores(s, |s|);
    SnakePrefixCharacters(s, |s|);
  }

  /** The scan as the source writes it: a loop that appends as it goes. */
  method CamelCaseToSnakeCaseLoop(input: string) returns (output: string)
    ensures output == CamelCaseToSnakeCase(input)
  {
    output := "";
    var i := 0;
    while i < |input|
      invariant i <= |input|
      invariant output == SnakePrefix(input, i)
    {
      if input[i] != '_' && i + 2 < |input| {
        if IsUpper(input[i + 1]) && IsLower(input[i + 2]) {
          output := output + [ToLower(input[i]), '_'];
          i := i + 1;
          continue;
        }
      }
      if input[i] != '_' && i + 1 < |input| {
        if (IsLower(input[i]) || IsDigit(input[i])) && IsUpper(input[i + 1]) {
          output := output + [ToLower(input[i]), '_'];
          i := i + 1;
          continue;
        }
      }
      output := output + [ToLower(input[i])];
      i := i + 1;
    }
    assert i == |input|;
  }

  /** The last character is never followed by an inserted `_`. */
  lemma {:induction false} BreakCountBound(s: string)
    requires |s| > 0
    ensures BreakCount(s, |s|) <= |s| - 1
  {

  }

  /**
   Every input character yields its lower-case form and at most one `_`, so
   the output of a non-empty input of length n has between n and 2n-1
   characters, and the empty input gives the empty output.
   */
  lemma LengthBounds(s: string)
    ensures |s| == 0 ==> CamelCaseToSnakeCase(s) == ""
    ensures |s| > 0 ==> |s| <= |CamelCaseToSnakeCase(s)| <= 2 * |s| - 1
  {

  }

  /** An input without upper-case letters has no boundaries. */
  lemma {:induction false} NoUpperNoBreaks(s: string, n: nat)
    requires n <= |s|
    requires NoUpper(s)
    ensures BreakCount(s, n) == 0
  {
    if n > 0 {
      NoUpperNoBreaks(s, n - 1);
    }
  }

  /**
   The conversion leaves a string unchanged exactly when the string has no
   upper-case letter.
   */
  lemma {:induction false} FixedPointIffNoUpper(s: string)
    ensures CamelCaseToSnakeCase(s) == s <==> NoUpper(s)
  {
    var r := CamelCaseToSnakeCase(s);
    if NoUpper(s) {
      Placement(s);
      NoUpperNoBreaks(s, |s|);
      forall i | 0 <= i < |s|
        ensures r[i] == s[i]
      {
        NoUpperNoBreaks(s, i);
        assert Image(s, i) == i;
      }
    } else {
      var i :| 0 <= i < |s| && IsUpper(s[i]);
      assert NoUpper(r);
      assert r != s by {
        if |r| == |s| {
          assert r[i] != s[i];
        }
      }
    }
  }

  /** Converting twice is the same as converting once. */
  lemma Idempotent(s: string)
    ensures CamelCaseToSnakeCase(CamelCaseToSnakeCase(s)) == CamelCaseToSnakeCase(s)
  {
    FixedPointIffNoUpper(CamelCaseToSnakeCase(s));
  }

  /**
   A character that is neither a letter nor `_` occurs in the output only if
   it occurs in the input.
   */
  lemma KeepsAbsentCharacters(s: string, c: char)
    requires c !in s
    requires !IsUpper(c) && !IsLower(c) && c != '_'
    ensures c !in CamelCaseToSnakeCase(s)
  {
    Placement(s);
  }
}
