/**
 The few string utilities of the Abseil library that the generator helpers
 rely on, each reduced to the single-character delimiter case in which it is
 used: `absl::StrSplit`, `absl::StrJoin`, `absl::StrReplaceAll` and
 `absl::ConsumeSuffix`.
 */
module Strings {

  /** Number of occurrences of `c` in `s`. */
  function Count(s: string, c: char): (n: nat)
    ensures n <= |s|
    ensures n == 0 <==> c !in s
  {
    if |s| == 0 then 0
    else (if s[0] == c then 1 else 0) + Count(s[1..], c)
  }

  /** Index of the first `d` in `s`, or `|s|` when there is none. */
  function IndexOf(s: string, d: char): (i: nat)
    ensures i <= |s|
    ensures i < |s| ==> s[i] == d
    ensures forall j :: 0 <= j < i ==> s[j] != d
  {
    if |s| == 0 then 0
    else if s[0] == d then 0
    else 1 + IndexOf(s[1..], d)
  }

  /**
   `absl::StrSplit(s, d)`: the maximal runs of `s` between occurrences of
   `d`. Splitting never yields an empty list: the empty string splits into
   one empty piece, and adjacent delimiters yield empty pieces.
   */
  function Split(s: string, d: char): (parts: seq<string>)
    ensures |parts| >= 1
    ensures d in s ==> |parts| >= 2
    ensures forall k :: 0 <= k < |parts| ==> d !in parts[k]
    decreases |s|
  {
    var i := IndexOf(s, d);
    if i == |s| then
      assert s[..i] == s;
      [s]
    else
      [s[..i]] + Split(s[i + 1..], d)
  }

  /** Total length of a list of strings. */
  function TotalLength(parts: seq<string>): nat
  {
    if |parts| == 0 then 0 else |parts[0]| + TotalLength(parts[1..])
  }

  /**
   `absl::StrJoin(parts, sep)`: the pieces with `sep` between neighbours, so
   the result starts with the first piece and is longer
   than the pieces together by one separator per neighbouring pair.
   */
  function Join(parts: seq<string>, sep: string): (r: string)
    ensures |parts| == 0 ==> r == ""
    ensures |parts| > 0 ==> |r| == TotalLength(parts) + (|parts| - 1) * |sep|
    ensures |parts| > 0 ==> r[..|parts[0]|] == parts[0]
  {
    if |parts| == 0 then ""
    else if |parts| == 1 then parts[0]
    else
      var rest := Join(parts[1..], sep);
      assert (|parts| - 1) * |sep| == (|parts| - 2) * |sep| + |sep|;
      parts[0] + sep + rest
  }

  /**
   `absl::StrReplaceAll(s, {{[d], rep}})`: every occurrence of the one-character
   pattern `d` replaced by `rep`, all other characters kept in order.
   */
  function ReplaceAll(s: string, d: char, rep: string): (r: string)
    ensures |r| == |s| + Count(s, d) * (|rep| - 1)
    ensures d !in rep ==> d !in r
  {
    if |s| == 0 then ""
    else
      var rest := ReplaceAll(s[1..], d, rep);
      var c := Count(s[1..], d);
      assert (c + 1) * (|rep| - 1) == c * (|rep| - 1) + |rep| - 1;
      (if s[0] == d then rep else [s[0]]) + rest
  }

  /** True when `s` ends with `suffix`. */
  predicate HasSuffix(s: string, suffix: string) {
    |suffix| <= |s| && s[|s| - |suffix|..] == suffix
  }

  /** `absl::ConsumeSuffix`: drops `suffix` from the end of `s` if it is there. */
  function ConsumeSuffix(s: string, suffix: string): (r: string)
    ensures HasSuffix(s, suffix) ==> r + suffix == s
    ensures !HasSuffix(s, suffix) ==> r == s
  {
    if HasSuffix(s, suffix) then s[..|s| - |suffix|] else s
  }

  /** A suffix appended and then consumed is gone again. */
  lemma ConsumeAppendedSuffix(s: string, suffix: string)
    ensures ConsumeSuffix(s + suffix, suffix) == s
  {

  }

  /** Joining the pieces of a split with the delimiter gives back the input. */
  lemma {:induction false} JoinSplit(s: string, d: char)
    ensures Join(Split(s, d), [d]) == s
    decreases |s|
  {
    if d in s {
      var a, rest := SplitAtFirst(s, d);
      JoinSplit(rest, d);
      JoinCons(a, Split(rest, d), [d]);
    } else {
      SplitNoDelimiter(s, d);
    }
  }

  /** A string free of the delimiter is a single piece. */
  lemma SplitNoDelimiter(s: string, d: char)
    requires d !in s
    ensures Split(s, d) == [s]
  {
  }

  /** A delimiter-free piece followed by the delimiter splits off as one piece. */
  lemma SplitLeadingPiece(a: string, d: char, b: string)
    requires d !in a
    ensures Split(a + [d] + b, d) == [a] + Split(b, d)
  {
    var s := a + [d] + b;
    IndexOfAfterFree(a, d, b);
    assert s[..|a|] == a;
    assert s[|a| + 1..] == b;
  }

  /** The first delimiter of `a + [d] + b` is the one after `a` when `a` has none. */
  lemma {:induction false} IndexOfAfterFree(a: string, d: char, b: string)
    requires d !in a
    ensures IndexOf(a + [d] + b, d) == |a|
    decreases |a|
  {
    if |a| > 0 {
      assert (a + [d] + b)[1..] == a[1..] + [d] + b;
      IndexOfAfterFree(a[1..], d, b);
    }
  }

  /** The first delimiter of `a` is the first one of `a + t` when `a` has one. */
  lemma {:induction false} IndexOfPrefix(a: string, d: char, t: string)
    requires d in a
    ensures IndexOf(a + t, d) == IndexOf(a, d)
    decreases |a|
  {
    if a[0] != d {
      assert (a + t)[1..] == a[1..] + t;
      assert d in a[1..] by {
        var j :| 0 <= j < |a| && a[j] == d;
        assert a[1..][j - 1] == d;
      }
      IndexOfPrefix(a[1..], d, t);
    }
  }

  /**
   Splitting a join of delimiter-free pieces gives back the pieces: `Join`
   and `Split` are inverse on such lists.
   */
  lemma {:induction false} SplitJoin(parts: seq<string>, d: char)
    requires |parts| > 0
    requires forall k :: 0 <= k < |parts| ==> d !in parts[k]
    ensures Split(Join(parts, [d]), d) == parts
    decreases |parts|
  {
    if |parts| == 1 {
      SplitNoDelimiter(parts[0], d);
    } else {
      SplitJoin(parts[1..], d);
      SplitLeadingPiece(parts[0], d, Join(parts[1..], [d]));
      assert [parts[0]] + parts[1..] == parts;
    }
  }

  /** Replacement distributes over concatenation. */
  lemma {:induction false} ReplaceAllAppend(a: string, b: string, d: char, rep: string)
    ensures ReplaceAll(a + b, d, rep) == ReplaceAll(a, d, rep) + ReplaceAll(b, d, rep)
    decreases |a|
  {
    if |a| > 0 {
      var h := if a[0] == d then rep else [a[0]];
      assert (a + b)[1..] == a[1..] + b;
      assert ReplaceAll(a + b, d, rep) == h + ReplaceAll(a[1..] + b, d, rep);
      assert ReplaceAll(a, d, rep) == h + ReplaceAll(a[1..], d, rep);
      ReplaceAllAppend(a[1..], b, d, rep);
    } else {
      assert a + b == b;
    }
  }

  /** Replacement around one delimiter: each side replaced, the delimiter turned into `rep`. */
  lemma ReplaceAllAround(a: string, d: char, b: string, rep: string)
    ensures ReplaceAll(a + [d] + b, d, rep) == ReplaceAll(a, d, rep) + rep + ReplaceAll(b, d, rep)
  {
    ReplaceAllAppend(a + [d], b, d, rep);
    ReplaceAllAppend(a, [d], d, rep);
    assert ReplaceAll([d], d, rep) == rep;
  }

  /** A string free of the delimiter is left as it is. */
  lemma {:induction false} ReplaceAllNoDelimiter(s: string, d: char, rep: string)
    requires d !in s
    ensures ReplaceAll(s, d, rep) == s
    decreases |s|
  {
    if |s| > 0 {
      ReplaceAllNoDelimiter(s[1..], d, rep);
    }
  }

  /** Replacement of a delimiter-free piece, the delimiter, and the rest. */
  lemma ReplaceAllLeadingPiece(a: string, d: char, rest: string, rep: string)
    requires d !in a
    ensures ReplaceAll(a + [d] + rest, d, rep) == a + rep + ReplaceAll(rest, d, rep)
  {
    ReplaceAllAppend(a + [d], rest, d, rep);
    ReplaceAllAppend(a, [d], d, rep);
    ReplaceAllNoDelimiter(a, d, rep);
    assert ReplaceAll([d], d, rep) == rep;
  }

  /**
   Replacing each delimiter is the same as splitting on it and joining the
   pieces with the replacement.
   */
  lemma {:induction false} ReplaceAllIsJoinSplit(s: string, d: char, rep: string)
    ensures ReplaceAll(s, d, rep) == Join(Split(s, d), rep)
    decreases |s|
  {
    var i := IndexOf(s, d);
    if i == |s| {
      SplitNoDelimiter(s, d);
      ReplaceAllNoDelimiter(s, d, rep);
    } else {
      var a, rest := SplitAtFirst(s, d);
      ReplaceAllIsJoinSplit(rest, d, rep);
      ReplaceAllLeadingPiece(a, d, rest, rep);
      JoinCons(a, Split(rest, d), rep);
    }
  }

  /** A string with a delimiter splits into the piece before its first one and the split of the rest. */
  lemma SplitAtFirst(s: string, d: char) returns (a: string, rest: string)
    requires d in s
    ensures d !in a && s == a + [d] + rest && |rest| < |s|
    ensures Split(s, d) == [a] + Split(rest, d)
  {
    var i := IndexOf(s, d);
    a, rest := s[..i], s[i + 1..];
    assert s == a + [d] + rest;
    assert d !in a;
  }

  /** `Join` peels off its first piece. */
  lemma JoinCons(a: string, tail: seq<string>, sep: string)
    requires |tail| > 0
    ensures Join([a] + tail, sep) == a + sep + Join(tail, sep)
  {

  }

  /** A delimiter-free piece after the last delimiter splits off as one piece. */
  lemma {:induction false} SplitTrailingPiece(a: string, d: char, b: string)
    requires d !in b
    ensures Split(a + [d] + b, d) == Split(a, d) + [b]
    decreases |a|
  {
    var s := a + [d] + b;
    var i := IndexOf(a, d);
    if i == |a| {
      SplitLeadingPiece(a, d, b);
      SplitNoDelimiter(b, d);
    } else {
      IndexOfPrefix(a, d, [d] + b);
      assert s == a + ([d] + b);
      assert s[..i] == a[..i];
      assert s[i + 1..] == a[i + 1..] + [d] + b;
      SplitTrailingPiece(a[i + 1..], d, b);
    }
  }

  /**
   Appending the delimiter to a string adds exactly one empty piece at the
   end of its split.
   */
  lemma SplitTrailingDelimiter(s: string, d: char)
    ensures Split(s + [d], d) == Split(s, d) + [""]
  {
    SplitTrailingPiece(s, d, "");
    assert s + [d] + "" == s + [d];
  }

  /** A character absent from a string is absent from every piece of its split. */
  lemma {:induction false} SplitPiecesLackAbsent(s: string, d: char, c: char)
    requires c !in s
    ensures forall k :: 0 <= k < |Split(s, d)| ==> c !in Split(s, d)[k]
    decreases |s|
  {
    var i := IndexOf(s, d);
    if i < |s| {
      assert c !in s[..i];
      SplitPiecesLackAbsent(s[i + 1..], d, c);
    }
  }

  /** `Join` peels off its last piece. */
  lemma {:induction false} JoinSnoc(init: seq<string>, a: string, sep: string)
    requires |init| > 0
    ensures Join(init + [a], sep) == Join(init, sep) + sep + a
    decreases |init|
  {
    if |init| > 1 {
      assert (init + [a])[1..] == init[1..] + [a];
      JoinSnoc(init[1..], a, sep);
    } else {
      assert init + [a] == [init[0], a];
    }
  }

  /** Counting distributes over concatenation. */
  lemma {:induction false} CountAppend(a: string, b: string, c: char)
    ensures Count(a + b, c) == Count(a, c) + Count(b, c)
    decreases |a|
  {
    if |a| > 0 {
      assert (a + b)[1..] == a[1..] + b;
      CountAppend(a[1..], b, c);
    } else {
      assert a + b == b;
    }
  }

  /** A delimiter-free piece and one delimiter add exactly one to the count. */
  lemma CountLeadingPiece(a: string, d: char, rest: string)
    requires d !in a
    ensures Count(a + [d] + rest, d) == Count(rest, d) + 1
  {
    assert a + [d] + rest == a + ([d] + rest);
    CountAppend(a, [d] + rest, d);
    CountAppend([d], rest, d);
    assert Count([d], d) == 1;
  }

  /** A split has one piece more than the string has delimiters. */
  lemma {:induction false} SplitLength(s: string, d: char)
    ensures |Split(s, d)| == Count(s, d) + 1
    decreases |s|
  {
    if d in s {
      var a, rest := SplitAtFirst(s, d);
      SplitLength(rest, d);
      CountLeadingPiece(a, d, rest);
    } else {
      SplitNoDelimiter(s, d);
    }
  }
}
