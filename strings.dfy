/**
 * The Java string operations the plugin relies on to read and write its
 * comma-delimited lists of project names: `Util.fixNull`, `String.trim`,
 * `String.split("\\s*,\\s*")` and `StringUtils.join(list, ",")`.
 */
module Strings {
  import opened Wrappers

  /** `Util.fixNull`: a null string reads as the empty string. */
  function FixNull(s: Option<string>): (r: string)
    ensures s.Some? ==> r == s.value
    ensures s.None? ==> r == []
  {
    if s.Some? then s.value else []
  }

  /** The characters `String.trim` removes: every code point up to U+0020. */
  predicate IsTrimChar(c: char) {
    c <= ' '
  }

  /** The characters of the regular-expression class `\s`: [ \t\n\x0B\f\r]. */
  predicate IsRegexSpace(c: char) {
    c == ' ' || c == '\t' || c == '\n' || c == '\U{B}' || c == '\U{C}' || c == '\r'
  }

  lemma RegexSpaceIsTrimmed(c: char)
    ensures IsRegexSpace(c) ==> IsTrimChar(c)
  {
  }

  /** Drops the longest prefix of `s` whose characters all satisfy `drop`. */
  function StripLeft(s: string, drop: char -> bool): (r: string)
    ensures |r| <= |s| && r == s[|s| - |r|..]
    ensures r == [] || !drop(r[0])
    ensures forall i :: 0 <= i < |s| - |r| ==> drop(s[i])
  {
    if s == [] || !drop(s[0]) then s else StripLeft(s[1..], drop)
  }

  /** Drops the longest suffix of `s` whose characters all satisfy `drop`. */
  function StripRight(s: string, drop: char -> bool): (r: string)
    ensures |r| <= |s| && r == s[..|r|]
    ensures r == [] || !drop(r[|r| - 1])
    ensures forall i :: |r| <= i < |s| ==> drop(s[i])
  {
    if s == [] || !drop(s[|s| - 1]) then s else StripRight(s[..|s| - 1], drop)
  }

  /** Every character of `s` satisfies `p`. */
  predicate AllIn(s: string, p: char -> bool) {
    forall i :: 0 <= i < |s| ==> p(s[i])
  }

  /** `r` is the slice of `s` starting at `k`, with only `drop` characters around it. */
  predicate SliceBetween(s: string, r: string, k: nat, drop: char -> bool) {
    k + |r| <= |s| && r == s[k..k + |r|]
    && (forall i :: 0 <= i < k ==> drop(s[i]))
    && (forall i :: k + |r| <= i < |s| ==> drop(s[i]))
  }

  /**
   * `String.trim`: the part of `s` left once the characters up to U+0020 are
   * cut from both ends; what is left starts and ends with another character.
   */
  function Trim(s: string): (r: string)
    ensures r == [] || (!IsTrimChar(r[0]) && !IsTrimChar(r[|r| - 1]))
  {
    StrippedEnds(s, IsTrimChar);
    StripRight(StripLeft(s, IsTrimChar), IsTrimChar)
  }

  /** What `trim` keeps is the slice of `s` between its leading and its trailing characters up to U+0020. */
  lemma TrimIsSlice(s: string)
    ensures SliceBetween(s, Trim(s), |s| - |StripLeft(s, IsTrimChar)|, IsTrimChar)
  {
    StripBothEnds(s, IsTrimChar);
  }

  lemma StripBothEnds(s: string, drop: char -> bool)
    ensures SliceBetween(s, StripRight(StripLeft(s, drop), drop), |s| - |StripLeft(s, drop)|, drop)
  {
    SliceOfSlices(s, StripLeft(s, drop), StripRight(StripLeft(s, drop), drop), drop);
  }

  /** A prefix of a suffix of `s`, each cut off past `drop` characters only, is such a slice of `s`. */
  lemma SliceOfSlices(s: string, left: string, r: string, drop: char -> bool)
    requires |left| <= |s| && left == s[|s| - |left|..]
    requires forall i :: 0 <= i < |s| - |left| ==> drop(s[i])
    requires |r| <= |left| && r == left[..|r|]
    requires forall i :: |r| <= i < |left| ==> drop(left[i])
    ensures SliceBetween(s, r, |s| - |left|, drop)
  {
    var k := |s| - |left|;
    assert r == s[k..k + |r|];
    forall i | k + |r| <= i < |s| ensures drop(s[i]) {
      assert s[i] == left[i - k];
    }
  }

  /** Both ends of what stripping leaves are kept characters. */
  lemma StrippedEnds(s: string, drop: char -> bool)
    ensures var r := StripRight(StripLeft(s, drop), drop);
      r == [] || (!drop(r[0]) && !drop(r[|r| - 1]))
  {
    var left := StripLeft(s, drop);
    var r := StripRight(left, drop);
    if r != [] {
      assert r[0] == left[0];
    }
  }

  /** Stripping the front of `x + y` stops inside `x` or, past an all-dropped `x`, at `y`'s kept first character. */
  lemma {:induction false} StripLeftConcat(x: string, y: string, drop: char -> bool)
    requires y == [] || !drop(y[0])
    ensures StripLeft(x + y, drop) == StripLeft(x, drop) + y
  {
    if x == [] {
      assert x + y == y;
    } else if drop(x[0]) {
      assert (x + y)[1..] == x[1..] + y;
      StripLeftConcat(x[1..], y, drop);
    }
  }

  /** Stripping the back of `x + y` stops inside `y` or, past an all-dropped `y`, at `x`'s kept last character. */
  lemma {:induction false} StripRightConcat(x: string, y: string, drop: char -> bool)
    requires x == [] || !drop(x[|x| - 1])
    ensures StripRight(x + y, drop) == x + StripRight(y, drop)
  {
    if y == [] {
      assert x + y == x;
    } else if drop(y[|y| - 1]) {
      assert (x + y)[..|x + y| - 1] == x + y[..|y| - 1];
      StripRightConcat(x, y[..|y| - 1], drop);
    }
  }

  /** A padding of dropped characters in front of `x` is stripped, and no more. */
  lemma {:induction false} StripLeftPad(pad: string, x: string, drop: char -> bool)
    requires AllIn(pad, drop)
    requires x == [] || !drop(x[0])
    ensures StripLeft(pad + x, drop) == x
  {
    if pad != [] {
      assert (pad + x)[1..] == pad[1..] + x;
      StripLeftPad(pad[1..], x, drop);
    }
  }

  /** A padding of dropped characters behind `x` is stripped, and no more. */
  lemma {:induction false} StripRightPad(x: string, pad: string, drop: char -> bool)
    requires AllIn(pad, drop)
    requires x == [] || !drop(x[|x| - 1])
    ensures StripRight(x + pad, drop) == x
  {
    if pad != [] {
      assert (x + pad)[..|x + pad| - 1] == x + pad[..|pad| - 1];
      StripRightPad(x, pad[..|pad| - 1], drop);
    }
  }

  /** A string that starts and ends with a character that none of the `drop` characters is. */
  predicate Unpadded(s: string, drop: char -> bool) {
    s == [] || (!drop(s[0]) && !drop(s[|s| - 1]))
  }

  lemma {:induction false} StripUnpadded(s: string, drop: char -> bool)
    requires Unpadded(s, drop)
    ensures StripLeft(s, drop) == s && StripRight(s, drop) == s
  {
  }

  /**
   * `StringUtils.join(parts, sep)`: the parts in order with `sep` between
   * neighbours; it starts with the first part.
   */
  function JoinWith(parts: seq<string>, sep: char): (r: string)
    ensures |parts| >= 1 ==> |parts[0]| <= |r| && r[..|parts[0]|] == parts[0]
  {
    if |parts| == 0 then []
    else if |parts| == 1 then parts[0]
    else parts[0] + [sep] + JoinWith(parts[1..], sep)
  }

  /** When no part holds the separator, the join holds one exactly when there are two parts or more. */
  lemma JoinSeparators(parts: seq<string>, sep: char)
    requires forall i :: 0 <= i < |parts| ==> sep !in parts[i]
    ensures sep in JoinWith(parts, sep) <==> |parts| >= 2
  {
    if |parts| >= 2 {
      assert JoinWith(parts, sep)[|parts[0]|] == sep;
    }
  }

  /** A join ends with its last part. */
  lemma {:induction false} JoinEndsWithLast(parts: seq<string>, sep: char)
    requires |parts| >= 1
    ensures var r := JoinWith(parts, sep); var last := parts[|parts| - 1];
      |last| <= |r| && r[|r| - |last|..] == last
  {
    if |parts| > 1 {
      JoinEndsWithLast(parts[1..], sep);
      var rest := JoinWith(parts[1..], sep);
      var r := parts[0] + [sep] + rest;
      assert r[|r| - |rest|..] == rest;
    }
  }

  /** Joining one more part appends a separator and the part. */
  lemma {:induction false} JoinSnoc(parts: seq<string>, last: string, sep: char)
    requires |parts| >= 1
    ensures JoinWith(parts + [last], sep) == JoinWith(parts, sep) + [sep] + last
  {
    if |parts| > 1 {
      assert (parts + [last])[1..] == parts[1..] + [last];
      JoinSnoc(parts[1..], last, sep);
    } else {
      assert (parts + [last])[1..] == [last];
    }
  }

  /** Stripping the front of a join strips the first part only, when `sep` itself is kept. */
  lemma StripLeftJoin(parts: seq<string>, sep: char, drop: char -> bool)
    requires |parts| >= 1 && !drop(sep)
    ensures StripLeft(JoinWith(parts, sep), drop) == JoinWith(parts[0 := StripLeft(parts[0], drop)], sep)
  {
    var parts' := parts[0 := StripLeft(parts[0], drop)];
    if |parts| > 1 {
      var rest := [sep] + JoinWith(parts[1..], sep);
      assert parts'[1..] == parts[1..];
      assert JoinWith(parts, sep) == parts[0] + rest;
      assert JoinWith(parts', sep) == parts'[0] + rest;
      StripLeftConcat(parts[0], rest, drop);
    }
  }

  /** Stripping the back of a join strips the last part only, when `sep` itself is kept. */
  lemma {:induction false} StripRightJoin(parts: seq<string>, sep: char, drop: char -> bool)
    requires |parts| >= 1 && !drop(sep)
    ensures StripRight(JoinWith(parts, sep), drop)
         == JoinWith(parts[|parts| - 1 := StripRight(parts[|parts| - 1], drop)], sep)
  {
    var parts' := parts[|parts| - 1 := StripRight(parts[|parts| - 1], drop)];
    if |parts| > 1 {
      StripRightJoin(parts[1..], sep, drop);
      assert parts'[1..] == parts[1..][|parts| - 2 := StripRight(parts[|parts| - 1], drop)];
      assert JoinWith(parts, sep) == (parts[0] + [sep]) + JoinWith(parts[1..], sep);
      StripRightConcat(parts[0] + [sep], JoinWith(parts[1..], sep), drop);
    }
  }

  /** The pieces of `s` between occurrences of `sep`, empty pieces included. */
  function SplitOn(s: string, sep: char): (parts: seq<string>)
    ensures |parts| >= 1
    ensures forall i :: 0 <= i < |parts| ==> sep !in parts[i]
    ensures sep !in s ==> parts == [s]
  {
    if s == [] then [[]]
    else
      var rest := SplitOn(s[1..], sep);
      if s[0] == sep then [[]] + rest
      else
        assert sep !in s ==> sep !in s[1..] && [s[0]] + s[1..] == s;
        [[s[0]] + rest[0]] + rest[1..]
  }

  lemma {:induction false} JoinOfSplit(s: string, sep: char)
    ensures JoinWith(SplitOn(s, sep), sep) == s
  {
    if s != [] {
      var rest := SplitOn(s[1..], sep);
      JoinOfSplit(s[1..], sep);
      if s[0] == sep {
        assert SplitOn(s, sep) == [[]] + rest;
        assert ([[]] + rest)[1..] == rest;
      } else {
        var parts := SplitOn(s, sep);
        assert parts == [[s[0]] + rest[0]] + rest[1..];
        if |rest| == 1 {
          assert parts == [[s[0]] + rest[0]];
        } else {
          assert parts[1..] == rest[1..];
          assert JoinWith(rest, sep) == rest[0] + [sep] + JoinWith(rest[1..], sep);
        }
      }
    }
  }

  lemma {:induction false} SplitOfSeparated(p: string, sep: char, tail: string)
    requires sep !in p
    ensures SplitOn(p + [sep] + tail, sep) == [p] + SplitOn(tail, sep)
  {
    if p == [] {
      assert ([] + [sep] + tail)[1..] == tail;
    } else {
      assert (p + [sep] + tail)[1..] == p[1..] + [sep] + tail;
      SplitOfSeparated(p[1..], sep, tail);
      assert [p[0]] + p[1..] == p;
    }
  }

  lemma {:induction false} SplitOfJoin(parts: seq<string>, sep: char)
    requires |parts| >= 1
    requires forall i :: 0 <= i < |parts| ==> sep !in parts[i]
    ensures SplitOn(JoinWith(parts, sep), sep) == parts
  {
    if |parts| > 1 {
      SplitOfJoin(parts[1..], sep);
      SplitOfSeparated(parts[0], sep, JoinWith(parts[1..], sep));
      assert [parts[0]] + parts[1..] == parts;
    }
  }

  /** Part `i` of `parts` once `trim` has cut the front of the first part and the back of the last. */
  function EndTrimmed(parts: seq<string>, i: nat): string
    requires i < |parts|
  {
    var left := if i == 0 then StripLeft(parts[i], IsTrimChar) else parts[i];
    if i == |parts| - 1 then StripRight(left, IsTrimChar) else left
  }

  /** `trim` of a text joined with a separator it keeps cuts only the outer ends of the outer parts. */
  lemma TrimJoin(parts: seq<string>, sep: char)
    requires |parts| >= 1 && !IsTrimChar(sep)
    ensures Trim(JoinWith(parts, sep)) == JoinWith(seq(|parts|, i requires 0 <= i < |parts| => EndTrimmed(parts, i)), sep)
  {
    var left := parts[0 := StripLeft(parts[0], IsTrimChar)];
    var both := left[|left| - 1 := StripRight(left[|left| - 1], IsTrimChar)];
    StripLeftJoin(parts, sep, IsTrimChar);
    StripRightJoin(left, sep, IsTrimChar);
    EndsTrimmedByUpdates(parts);
  }

  lemma EndsTrimmedByUpdates(parts: seq<string>)
    requires |parts| >= 1
    ensures var left := parts[0 := StripLeft(parts[0], IsTrimChar)];
      left[|left| - 1 := StripRight(left[|left| - 1], IsTrimChar)]
      == seq(|parts|, i requires 0 <= i < |parts| => EndTrimmed(parts, i))
  {
    var left := parts[0 := StripLeft(parts[0], IsTrimChar)];
    var both := left[|left| - 1 := StripRight(left[|left| - 1], IsTrimChar)];
    var ends := seq(|parts|, i requires 0 <= i < |parts| => EndTrimmed(parts, i));
    forall i | 0 <= i < |parts| ensures both[i] == ends[i] {
      if i == |parts| - 1 {
        assert both[i] == StripRight(left[i], IsTrimChar);
      } else {
        assert both[i] == left[i];
      }
    }
    assert both == ends;
  }

  /** Drops the empty strings at the end, as `String.split` does with a zero limit. */
  function DropTrailingEmpty(parts: seq<string>): (r: seq<string>)
    ensures |r| <= |parts| && r == parts[..|r|]
    ensures r == [] || r[|r| - 1] != []
    ensures forall i :: |r| <= i < |parts| ==> parts[i] == []
  {
    if parts != [] && parts[|parts| - 1] == [] then DropTrailingEmpty(parts[..|parts| - 1]) else parts
  }

  /**
   * One piece of `split("\\s*,\\s*")` for the comma-separated parts `parts`
   * (at least two): the `\s` run before a comma and the one after it belong
   * to the separator, so the first piece loses only its trailing spaces, the
   * last only its leading spaces, and the others both.
   */
  function RegexPiece(parts: seq<string>, i: nat): (r: string)
    requires i < |parts|
  {
    var left := if i == 0 then parts[i] else StripLeft(parts[i], IsRegexSpace);
    if i == |parts| - 1 then left else StripRight(left, IsRegexSpace)
  }

  /** A token as the split leaves it: not empty, and no `\s` character at either end. */
  predicate IsSpacelessEnds(t: string) {
    t != [] && !IsRegexSpace(t[0]) && !IsRegexSpace(t[|t| - 1])
  }

  /** All the pieces of `split("\\s*,\\s*")` for the comma-separated parts `parts`, empty ones included. */
  function RegexPieces(parts: seq<string>): (r: seq<string>)
    ensures |r| == |parts| && forall i :: 0 <= i < |parts| ==> r[i] == RegexPiece(parts, i)
  {
    seq(|parts|, i requires 0 <= i < |parts| => RegexPiece(parts, i))
  }

  /**
   * Every non-empty piece of the split of a text that starts and ends with
   * a non-blank has no `\\s` at either end.
   */
  lemma SplitAtCommasUnpadded(s: string)
    requires s == [] || (!IsTrimChar(s[0]) && !IsTrimChar(s[|s| - 1]))
    ensures var r := SplitAtCommas(s);
      forall i :: 0 <= i < |r| && r[i] != [] ==> IsSpacelessEnds(r[i])
  {
    if ',' !in s {
      WholeUnpadded(s);
    } else {
      CommaSplitUnpadded(s);
    }
  }

  lemma WholeUnpadded(s: string)
    requires s == [] || (!IsTrimChar(s[0]) && !IsTrimChar(s[|s| - 1]))
    requires ',' !in s
    ensures var r := SplitAtCommas(s);
      forall i :: 0 <= i < |r| && r[i] != [] ==> IsSpacelessEnds(r[i])
  {
    var r := SplitAtCommas(s);
    assert r == [s];
    if s != [] {
      RegexSpaceIsTrimmed(s[0]);
      RegexSpaceIsTrimmed(s[|s| - 1]);
    }
  }

  lemma CommaSplitUnpadded(s: string)
    requires s == [] || (!IsTrimChar(s[0]) && !IsTrimChar(s[|s| - 1]))
    requires ',' in s
    ensures var r := SplitAtCommas(s);
      forall i :: 0 <= i < |r| && r[i] != [] ==> IsSpacelessEnds(r[i])
  {
    var parts := SplitOn(s, ',');
    var pieces := RegexPieces(parts);
    assert SplitAtCommas(s) == DropTrailingEmpty(pieces);
    JoinOfSplit(s, ',');
    PiecesUnpadded(s, parts, pieces);
    KeptPiecesUnpadded(pieces);
  }

  lemma PiecesUnpadded(s: string, parts: seq<string>, pieces: seq<string>)
    requires s == [] || (!IsTrimChar(s[0]) && !IsTrimChar(s[|s| - 1]))
    requires ',' in s && JoinWith(parts, ',') == s && forall i :: 0 <= i < |parts| ==> ',' !in parts[i]
    requires pieces == RegexPieces(parts)
    ensures forall i :: 0 <= i < |pieces| && pieces[i] != [] ==>
      IsSpacelessEnds(pieces[i])
  {
    JoinSeparators(parts, ',');
    forall i | 0 <= i < |pieces| && pieces[i] != []
      ensures IsSpacelessEnds(pieces[i])
    {
      PieceUnpadded(s, parts, i);
    }
  }

  lemma KeptPiecesUnpadded(pieces: seq<string>)
    requires forall i :: 0 <= i < |pieces| && pieces[i] != [] ==>
      IsSpacelessEnds(pieces[i])
    ensures var r := DropTrailingEmpty(pieces);
      forall i :: 0 <= i < |r| && r[i] != [] ==> IsSpacelessEnds(r[i])
  {
    var r := DropTrailingEmpty(pieces);
    forall i | 0 <= i < |r| && r[i] != [] ensures IsSpacelessEnds(r[i]) {
      assert r[i] == pieces[i];
    }
  }

  lemma PieceUnpadded(s: string, parts: seq<string>, i: nat)
    requires s == [] || (!IsTrimChar(s[0]) && !IsTrimChar(s[|s| - 1]))
    requires |parts| >= 2 && i < |parts| && JoinWith(parts, ',') == s
    ensures var t := RegexPiece(parts, i);
      t != [] ==> !IsRegexSpace(t[0]) && !IsRegexSpace(t[|t| - 1])
  {
    var t := RegexPiece(parts, i);
    if t != [] {
      JoinEndsWithLast(parts, ',');
      PieceStartUnpadded(s, parts, i);
      PieceEndUnpadded(s, parts, i);
    }
  }

  lemma PieceStartUnpadded(s: string, parts: seq<string>, i: nat)
    requires s == [] || !IsTrimChar(s[0])
    requires |parts| >= 2 && i < |parts| && |parts[0]| <= |s| && s[..|parts[0]|] == parts[0]
    requires RegexPiece(parts, i) != []
    ensures !IsRegexSpace(RegexPiece(parts, i)[0])
  {
    var left := if i == 0 then parts[i] else StripLeft(parts[i], IsRegexSpace);
    if i == 0 {
      assert left[0] == s[0];
      RegexSpaceIsTrimmed(s[0]);
    }
  }

  lemma PieceEndUnpadded(s: string, parts: seq<string>, i: nat)
    requires s == [] || !IsTrimChar(s[|s| - 1])
    requires |parts| >= 2 && i < |parts|
    requires var last := parts[|parts| - 1]; |last| <= |s| && s[|s| - |last|..] == last
    requires RegexPiece(parts, i) != []
    ensures var t := RegexPiece(parts, i); !IsRegexSpace(t[|t| - 1])
  {
    if i == |parts| - 1 {
      assert RegexPiece(parts, i) == StripLeft(parts[i], IsRegexSpace);
      SuffixEndUnpadded(s, parts[i]);
    }
  }

  lemma SuffixEndUnpadded(s: string, last: string)
    requires s == [] || !IsTrimChar(s[|s| - 1])
    requires |last| <= |s| && s[|s| - |last|..] == last
    ensures var t := StripLeft(last, IsRegexSpace); t != [] ==> !IsRegexSpace(t[|t| - 1])
  {
    var t := StripLeft(last, IsRegexSpace);
    if t != [] {
      assert t[|t| - 1] == last[|last| - 1];
      var k := |s| - |last|;
      assert last[|last| - 1] == s[k..][|last| - 1] == s[|s| - 1];
      RegexSpaceIsTrimmed(s[|s| - 1]);
    }
  }

  /** `s.split("\\s*,\\s*")`: with no comma the whole string, else the pieces without trailing empty ones. */
  function SplitAtCommas(s: string): (r: seq<string>)
    ensures forall t :: t in r ==> ',' !in t
  {
    if ',' !in s then [s]
    else
      var parts := SplitOn(s, ',');
      var pieces := RegexPieces(parts);
      assert forall i :: 0 <= i < |parts| ==> ',' !in pieces[i] by {
        forall i | 0 <= i < |parts| ensures ',' !in pieces[i] {
          assert ',' !in parts[i];
        }
      }
      DropTrailingEmpty(pieces)
  }

  /** The raw tokens of a user's list of names: `Util.fixNull(s).trim().split("\\s*,\\s*")`. */
  function NameTokens(s: Option<string>): (r: seq<string>)
    ensures s.None? ==> r == [[]]
    ensures forall i :: 0 <= i < |r| ==> ',' !in r[i] && (r[i] != [] ==> IsSpacelessEnds(r[i]))
  {
    SplitAtCommasUnpadded(Trim(FixNull(s)));
    SplitAtCommas(Trim(FixNull(s)))
  }

  /** The tokens that are not empty, in order (`StringUtils.isNotEmpty` as a filter). */
  function NonEmpty(tokens: seq<string>): (r: seq<string>)
    ensures |r| <= |tokens|
    ensures forall t :: t in r <==> t in tokens && t != []
  {
    if tokens == [] then []
    else (if tokens[0] != [] then [tokens[0]] else []) + NonEmpty(tokens[1..])
  }
}
