/**
 * BlockBuildJobProperty: the immutable per-project configuration (two
 * toggles and two ordered lists of "final" project names), how it is read
 * from the comma-delimited form fields, and the new values it yields when a
 * project is deleted or renamed.
 */
module JobProperty {
  import opened Wrappers
  import opened Strings

  /** Identity of a project in the Jenkins instance. */
  type JobId = nat

  // ---------------------------------------------------------------------
  // Reading the comma-delimited form fields
  // ---------------------------------------------------------------------

  /**
   * The names of `s`'s list, in order: `projectsAsStringToImmutableList`.
   * Every name is non-empty, holds no comma and has no `\s` at either end;
   * `ParsePadded` shows which names come out of a typed list.
   */
  function ParseNames(s: Option<string>): (r: seq<string>)
    ensures forall t :: t in r ==> ',' !in t && IsSpacelessEnds(t)
  {
    KeptTokensClean(NameTokens(s));
    NonEmpty(NameTokens(s))
  }

  /** The non-empty tokens keep what is known of every token. */
  lemma KeptTokensClean(tokens: seq<string>)
    requires forall i :: 0 <= i < |tokens| ==> ',' !in tokens[i] && (tokens[i] != [] ==> IsSpacelessEnds(tokens[i]))
    ensures forall t :: t in NonEmpty(tokens) ==> ',' !in t && IsSpacelessEnds(t)
  {
    forall t | t in NonEmpty(tokens) ensures ',' !in t && IsSpacelessEnds(t) {
      var i :| 0 <= i < |tokens| && tokens[i] == t;
    }
  }

  /** The loop of `projectsAsStringToImmutableList`: keep every non-empty token of the split. */
  method ProjectsAsStringToList(projectsAsString: Option<string>) returns (projects: seq<string>)
    ensures projects == ParseNames(projectsAsString)
  {
    var tokens := NameTokens(projectsAsString);
    projects := KeepNonEmpty(tokens);
  }

  method KeepNonEmpty(tokens: seq<string>) returns (projects: seq<string>)
    ensures projects == NonEmpty(tokens)
  {
    projects := [];
    var i := 0;
    while i < |tokens|
      invariant 0 <= i <= |tokens|
      invariant projects + NonEmpty(tokens[i..]) == NonEmpty(tokens)
    {
      NonEmptyStep(tokens, i);
      if tokens[i] != [] {
        var rest := NonEmpty(tokens[i + 1..]);
        assert (projects + [tokens[i]]) + rest == projects + ([tokens[i]] + rest);
        projects := projects + [tokens[i]];
      }
      i := i + 1;
    }
  }

  lemma NonEmptyStep(tokens: seq<string>, i: nat)
    requires i < |tokens|
    ensures NonEmpty(tokens[i..]) == (if tokens[i] != [] then [tokens[i]] else []) + NonEmpty(tokens[i + 1..])
  {
    assert tokens[i..][1..] == tokens[i + 1..];
  }

  /** A name the form writes back unchanged: non-empty, without commas, not padded by blanks. */
  predicate IsCleanName(n: string) {
    n != [] && ',' !in n && Unpadded(n, IsTrimChar)
  }

  lemma {:induction false} JoinEnds(names: seq<string>)
    requires |names| >= 1 && forall i :: 0 <= i < |names| ==> names[i] != []
    ensures var s := JoinWith(names, ',');
      s != [] && s[0] == names[0][0] && s[|s| - 1] == names[|names| - 1][|names[|names| - 1]| - 1]
  {
    if |names| > 1 {
      JoinEnds(names[1..]);
    }
  }

  lemma {:induction false} NonEmptyOfNonEmpty(tokens: seq<string>)
    requires forall i :: 0 <= i < |tokens| ==> tokens[i] != []
    ensures NonEmpty(tokens) == tokens
  {
    if tokens != [] {
      NonEmptyOfNonEmpty(tokens[1..]);
    }
  }

  lemma TrimOfJoin(names: seq<string>)
    requires forall i :: 0 <= i < |names| ==> IsCleanName(names[i])
    ensures Trim(JoinWith(names, ',')) == JoinWith(names, ',')
  {
    var s := JoinWith(names, ',');
    if names != [] {
      JoinEnds(names);
      assert Unpadded(s, IsTrimChar);
      StripUnpadded(s, IsTrimChar);
    }
  }

  lemma RegexPiecesOfClean(names: seq<string>)
    requires |names| >= 2
    requires forall i :: 0 <= i < |names| ==> IsCleanName(names[i])
    ensures RegexPieces(names) == names
  {
    forall i | 0 <= i < |names| ensures RegexPiece(names, i) == names[i] {
      RegexSpaceIsTrimmed(names[i][0]);
      RegexSpaceIsTrimmed(names[i][|names[i]| - 1]);
      StripUnpadded(names[i], IsRegexSpace);
    }
  }

  lemma SplitAtCommasOfJoin(names: seq<string>)
    requires |names| >= 1
    requires forall i :: 0 <= i < |names| ==> IsCleanName(names[i])
    ensures SplitAtCommas(JoinWith(names, ',')) == names
  {
    if |names| >= 2 {
      SplitOfJoin(names, ',');
      RegexPiecesOfClean(names);
    }
  }

  /** Reading back the text the form shows (`getFinal*Projects`) gives the list again. */
  lemma ParseOfJoin(names: seq<string>)
    requires forall i :: 0 <= i < |names| ==> IsCleanName(names[i])
    ensures ParseNames(Some(JoinWith(names, ','))) == names
  {
    var s := JoinWith(names, ',');
    assert NameTokens(Some(s)) == SplitAtCommas(s) by {
      TrimOfJoin(names);
    }
    if names == [] {
      assert SplitAtCommas(s) == [[]];
      assert NonEmpty([[]]) == [];
    } else {
      assert SplitAtCommas(s) == names by {
        SplitAtCommasOfJoin(names);
      }
      NonEmptyOfNonEmpty(names);
    }
  }

  /** The list `ns` as a user may type it: name `i` between the paddings `before[i]` and `after[i]`. */
  function PaddedNames(ns: seq<string>, before: seq<string>, after: seq<string>): (r: seq<string>)
    requires |before| == |ns| && |after| == |ns|
    ensures |r| == |ns|
  {
    seq(|ns|, i requires 0 <= i < |ns| => before[i] + ns[i] + after[i])
  }

  /**
   * Paddings the parser removes: blanks up to U+0020 before the first name
   * (`trim`), and `\s` runs next to every comma and at the end.
   */
  predicate StrippablePadding(before: seq<string>, after: seq<string>) {
    |before| >= 1 && |after| == |before|
    && AllIn(before[0], IsTrimChar)
    && (forall i :: 1 <= i < |before| ==> AllIn(before[i], IsRegexSpace))
    && (forall i :: 0 <= i < |after| ==> AllIn(after[i], IsRegexSpace))
  }

  lemma RegexSpacesAreTrimmed(s: string)
    requires AllIn(s, IsRegexSpace)
    ensures AllIn(s, IsTrimChar) && ',' !in s
  {
    forall i | 0 <= i < |s| ensures IsTrimChar(s[i]) && s[i] != ',' {
      RegexSpaceIsTrimmed(s[i]);
    }
  }

  /** A clean name loses its paddings and nothing of its own. */
  lemma UnpadName(pre: string, n: string, post: string, dropLeft: char -> bool, dropRight: char -> bool)
    requires AllIn(pre, dropLeft) && AllIn(post, dropRight)
    requires n != [] && !dropLeft(n[0]) && !dropRight(n[|n| - 1])
    ensures StripLeft(pre + n + post, dropLeft) == n + post
    ensures StripRight(pre + n + post, dropRight) == pre + n
  {
    assert pre + n + post == pre + (n + post);
    StripLeftPad(pre, n + post, dropLeft);
    StripRightPad(pre + n, post, dropRight);
  }

  /** The comma-separated pieces of a typed list: the padded names, then an empty piece after a trailing comma. */
  function TypedPieces(ns: seq<string>, before: seq<string>, after: seq<string>, trailingComma: bool): seq<string>
    requires |before| == |ns| && |after| == |ns|
  {
    seq(|ns| + (if trailingComma then 1 else 0), i requires 0 <= i < |ns| + (if trailingComma then 1 else 0) =>
      if i == |ns| then [] else before[i] + ns[i] + after[i])
  }

  /** Piece `i` once `trim` has cut the blanks before the first name and, with no trailing comma, after the last. */
  function TrimmedPiece(ns: seq<string>, before: seq<string>, after: seq<string>, trailingComma: bool, i: nat): string
    requires |before| == |ns| && |after| == |ns| && i <= |ns|
  {
    if i == |ns| then []
    else (if i == 0 then [] else before[i]) + ns[i] + (if i == |ns| - 1 && !trailingComma then [] else after[i])
  }

  function TrimmedPieces(ns: seq<string>, before: seq<string>, after: seq<string>, trailingComma: bool): seq<string>
    requires |before| == |ns| && |after| == |ns|
  {
    seq(|ns| + (if trailingComma then 1 else 0), i requires 0 <= i < |ns| + (if trailingComma then 1 else 0) =>
      TrimmedPiece(ns, before, after, trailingComma, i))
  }

  lemma TypedText(ns: seq<string>, before: seq<string>, after: seq<string>, trailingComma: bool)
    requires |ns| >= 1 && |before| == |ns| && |after| == |ns|
    ensures JoinWith(PaddedNames(ns, before, after), ',') + (if trailingComma then [','] else [])
         == JoinWith(TypedPieces(ns, before, after, trailingComma), ',')
  {
    var typed := PaddedNames(ns, before, after);
    if trailingComma {
      assert TypedPieces(ns, before, after, trailingComma) == typed + [[]];
      JoinSnoc(typed, [], ',');
    } else {
      assert TypedPieces(ns, before, after, trailingComma) == typed;
    }
  }

  /** One padded name under `trim`: the first loses its padding in front, the last its padding behind. */
  /** A lone typed name loses the blanks on both sides. */
  lemma TrimBothSides(pre: string, name: string, post: string)
    requires AllIn(pre, IsTrimChar) && AllIn(post, IsTrimChar)
    requires name != [] && !IsTrimChar(name[0]) && !IsTrimChar(name[|name| - 1])
    ensures StripRight(StripLeft(pre + name + post, IsTrimChar), IsTrimChar) == name
  {
    assert pre + name + post == pre + (name + post);
    StripLeftPad(pre, name + post, IsTrimChar);
    StripRightPad(name, post, IsTrimChar);
  }

  /** The first of several typed names loses the blanks in front of it only. */
  lemma TrimFrontSide(pre: string, name: string, post: string)
    requires AllIn(pre, IsTrimChar)
    requires name != [] && !IsTrimChar(name[0])
    ensures StripLeft(pre + name + post, IsTrimChar) == name + post
  {
    assert pre + name + post == pre + (name + post);
    StripLeftPad(pre, name + post, IsTrimChar);
  }

  /** The last of several typed names, with no comma after it, loses the blanks behind it only. */
  lemma TrimBackSide(pre: string, name: string, post: string)
    requires AllIn(post, IsTrimChar)
    requires name != [] && !IsTrimChar(name[|name| - 1])
    ensures StripRight(pre + name + post, IsTrimChar) == pre + name
  {
    StripRightPad(pre + name, post, IsTrimChar);
  }

  lemma EmptyConcat(x: string)
    ensures [] + x == x && x + [] == x
  {
  }

  lemma EndTrimmedTyped(ns: seq<string>, before: seq<string>, after: seq<string>, trailingComma: bool, i: nat)
    requires |ns| >= 1 && |before| == |ns| && |after| == |ns|
    requires i < |TypedPieces(ns, before, after, trailingComma)|
    requires i < |ns| ==> IsCleanName(ns[i]) && AllIn(after[i], IsTrimChar)
    requires i == 0 ==> AllIn(before[0], IsTrimChar)
    ensures EndTrimmed(TypedPieces(ns, before, after, trailingComma), i) == TrimmedPiece(ns, before, after, trailingComma, i)
  {
    var typed := TypedPieces(ns, before, after, trailingComma);
    if i < |ns| {
      var name, pre, post := ns[i], before[i], after[i];
      var last := i == |typed| - 1;
      assert last <==> i == |ns| - 1 && !trailingComma;
      assert typed[i] == pre + name + post;
      EmptyConcat(name);
      EmptyConcat(pre + name);
      if i == 0 && last {
        TrimBothSides(pre, name, post);
      } else if i == 0 {
        TrimFrontSide(pre, name, post);
      } else if last {
        TrimBackSide(pre, name, post);
      }
    }
  }

  lemma EndsOfTyped(ns: seq<string>, before: seq<string>, after: seq<string>, trailingComma: bool)
    requires |ns| >= 1 && forall i :: 0 <= i < |ns| ==> IsCleanName(ns[i])
    requires |before| == |ns| && StrippablePadding(before, after)
    ensures var typed := TypedPieces(ns, before, after, trailingComma);
      seq(|typed|, i requires 0 <= i < |typed| => EndTrimmed(typed, i)) == TrimmedPieces(ns, before, after, trailingComma)
  {
    var typed := TypedPieces(ns, before, after, trailingComma);
    var ends := seq(|typed|, i requires 0 <= i < |typed| => EndTrimmed(typed, i));
    var trimmed := TrimmedPieces(ns, before, after, trailingComma);
    forall i | 0 <= i < |typed| ensures ends[i] == trimmed[i] {
      if i < |ns| {
        RegexSpacesAreTrimmed(after[i]);
      }
      EndTrimmedTyped(ns, before, after, trailingComma, i);
    }
    assert ends == trimmed;
  }

  /** `trim` of a typed list cuts the blanks before the first name and, without a trailing comma, after the last. */
  lemma TrimPadded(ns: seq<string>, before: seq<string>, after: seq<string>, trailingComma: bool)
    requires |ns| >= 1 && forall i :: 0 <= i < |ns| ==> IsCleanName(ns[i])
    requires |before| == |ns| && StrippablePadding(before, after)
    ensures Trim(JoinWith(PaddedNames(ns, before, after), ',') + (if trailingComma then [','] else []))
         == JoinWith(TrimmedPieces(ns, before, after, trailingComma), ',')
  {
    TypedText(ns, before, after, trailingComma);
    TrimJoin(TypedPieces(ns, before, after, trailingComma), ',');
    EndsOfTyped(ns, before, after, trailingComma);
  }

  lemma RegexPieceTrimmed(ns: seq<string>, before: seq<string>, after: seq<string>, trailingComma: bool, i: nat)
    requires |ns| >= 1 && forall i :: 0 <= i < |ns| ==> IsCleanName(ns[i])
    requires |before| == |ns| && StrippablePadding(before, after)
    requires |TrimmedPieces(ns, before, after, trailingComma)| >= 2
    requires i < |TrimmedPieces(ns, before, after, trailingComma)|
    ensures RegexPiece(TrimmedPieces(ns, before, after, trailingComma), i) == if i < |ns| then ns[i] else []
  {
    var pieces := TrimmedPieces(ns, before, after, trailingComma);
    var n := |ns|;
    if i < n {
      var name := ns[i];
      RegexSpaceIsTrimmed(name[0]);
      RegexSpaceIsTrimmed(name[|name| - 1]);
      var pre := if i == 0 then [] else before[i];
      var post := if i == n - 1 && !trailingComma then [] else after[i];
      assert pieces[i] == pre + name + post;
      UnpadName(pre, name, post, IsRegexSpace, IsRegexSpace);
      if i == 0 {
        assert pre + name + post == name + post;
        StripRightPad(name, post, IsRegexSpace);
      } else if i < |pieces| - 1 {
        StripRightPad(name, post, IsRegexSpace);
      } else {
        assert pre + name + post == pre + name + [];
        assert name + post == name;
      }
    }
  }

  /** Each trimmed piece loses its `\s` runs next to the commas and gives back its name. */
  lemma PiecesOfPadded(ns: seq<string>, before: seq<string>, after: seq<string>, trailingComma: bool)
    requires |ns| >= 1 && forall i :: 0 <= i < |ns| ==> IsCleanName(ns[i])
    requires |before| == |ns| && StrippablePadding(before, after)
    requires |TrimmedPieces(ns, before, after, trailingComma)| >= 2
    ensures var pieces := TrimmedPieces(ns, before, after, trailingComma);
      RegexPieces(pieces)
      == ns + (if trailingComma then [[]] else [])
  {
    var pieces := TrimmedPieces(ns, before, after, trailingComma);
    forall i | 0 <= i < |pieces| ensures RegexPiece(pieces, i) == if i < |ns| then ns[i] else [] {
      RegexPieceTrimmed(ns, before, after, trailingComma, i);
    }
  }

  lemma TrimmedPiecesCommaFree(ns: seq<string>, before: seq<string>, after: seq<string>, trailingComma: bool)
    requires forall i :: 0 <= i < |ns| ==> IsCleanName(ns[i])
    requires |before| == |ns| && StrippablePadding(before, after)
    ensures var pieces := TrimmedPieces(ns, before, after, trailingComma);
      forall i :: 0 <= i < |pieces| ==> ',' !in pieces[i]
  {
    var pieces := TrimmedPieces(ns, before, after, trailingComma);
    forall i | 0 <= i < |pieces| ensures ',' !in pieces[i] {
      if i < |ns| {
        RegexSpacesAreTrimmed(after[i]);
        if i > 0 {
          RegexSpacesAreTrimmed(before[i]);
        }
        var pre := if i == 0 then [] else before[i];
        var post := if i == |ns| - 1 && !trailingComma then [] else after[i];
        assert pieces[i] == pre + ns[i] + post;
      }
    }
  }

  /**
   * What a user types is read as the names it lists: blanks before the first
   * name, `\s` runs around the commas and at the end, and one trailing comma
   * all go, while the names keep their inner spaces and their order.
   */
  lemma ParsePadded(ns: seq<string>, before: seq<string>, after: seq<string>, trailingComma: bool)
    requires |ns| >= 1 && forall i :: 0 <= i < |ns| ==> IsCleanName(ns[i])
    requires |before| == |ns| && StrippablePadding(before, after)
    ensures ParseNames(Some(JoinWith(PaddedNames(ns, before, after), ',') + (if trailingComma then [','] else []))) == ns
  {
    TokensOfPadded(ns, before, after, trailingComma);
    NonEmptyOfNonEmpty(ns);
  }

  /** The split of padded text, with or without a trailing comma, is exactly the names typed. */
  lemma TokensOfPadded(ns: seq<string>, before: seq<string>, after: seq<string>, trailingComma: bool)
    requires |ns| >= 1 && forall i :: 0 <= i < |ns| ==> IsCleanName(ns[i])
    requires |before| == |ns| && StrippablePadding(before, after)
    ensures NameTokens(Some(JoinWith(PaddedNames(ns, before, after), ',') + (if trailingComma then [','] else []))) == ns
  {
    TrimPadded(ns, before, after, trailingComma);
    SplitTrimmed(ns, before, after, trailingComma);
  }

  /** The split of the trimmed text gives the names back. */
  lemma SplitTrimmed(ns: seq<string>, before: seq<string>, after: seq<string>, trailingComma: bool)
    requires |ns| >= 1 && forall i :: 0 <= i < |ns| ==> IsCleanName(ns[i])
    requires |before| == |ns| && StrippablePadding(before, after)
    ensures SplitAtCommas(JoinWith(TrimmedPieces(ns, before, after, trailingComma), ',')) == ns
  {
    var pieces := TrimmedPieces(ns, before, after, trailingComma);
    TrimmedPiecesCommaFree(ns, before, after, trailingComma);
    if |pieces| == 1 {
      assert |ns| == 1 && !trailingComma;
      assert pieces[0] == [] + ns[0] + [] == ns[0];
      assert pieces == [ns[0]];
    } else {
      SplitOfJoin(pieces, ',');
      PiecesOfPadded(ns, before, after, trailingComma);
      DropTrailingComma(ns, trailingComma);
    }
  }

  lemma DropTrailingComma(ns: seq<string>, trailingComma: bool)
    requires |ns| >= 1 && ns[|ns| - 1] != []
    ensures DropTrailingEmpty(ns + (if trailingComma then [[]] else [])) == ns
  {
    var cut := ns + (if trailingComma then [[]] else []);
    if trailingComma {
      assert cut[..|cut| - 1] == ns;
    } else {
      assert cut == ns;
    }
  }

  // ---------------------------------------------------------------------
  // Editing a list when a project is deleted or renamed
  // ---------------------------------------------------------------------

  /** Position of the first occurrence of `x` in `xs`. */
  function IndexOf(xs: seq<string>, x: string): (k: nat)
    requires x in xs
    ensures k < |xs| && xs[k] == x && x !in xs[..k]
  {
    if xs[0] == x then 0
    else
      assert xs[1..][..IndexOf(xs[1..], x)] == xs[1..IndexOf(xs[1..], x) + 1];
      1 + IndexOf(xs[1..], x)
  }

  /** `List.remove(Object)`: removes the first element equal to `x`, if there is one. */
  function RemoveFirst(xs: seq<string>, x: string): (r: seq<string>)
    ensures x !in xs ==> r == xs
  {
    if xs == [] then []
    else if xs[0] == x then xs[1..]
    else [xs[0]] + RemoveFirst(xs[1..], x)
  }

  /** When `x` is listed, `RemoveFirst` cuts out exactly its first occurrence. */
  lemma {:induction false} RemoveFirstCutsFirst(xs: seq<string>, x: string)
    requires x in xs
    ensures RemoveFirst(xs, x) == xs[..IndexOf(xs, x)] + xs[IndexOf(xs, x) + 1..]
  {
    if xs[0] != x {
      RemoveFirstCutsFirst(xs[1..], x);
      var k := IndexOf(xs[1..], x);
      assert xs[..k + 1] == [xs[0]] + xs[1..][..k];
      assert xs[k + 2..] == xs[1..][k + 1..];
    }
  }

  /** `deleteProjectFromList`: the list without the first occurrence of `deletedName`. */
  function DeleteProjectFromList(deletedName: string, inputList: seq<string>): (r: seq<string>)
    ensures deletedName !in inputList ==> r == inputList
    ensures deletedName in inputList ==>
      var k := IndexOf(inputList, deletedName);
      r == inputList[..k] + inputList[k + 1..]
  {
    if deletedName in inputList then
      RemoveFirstCutsFirst(inputList, deletedName);
      RemoveFirst(inputList, deletedName)
    else inputList
  }

  /** Deleting takes exactly one copy of the name out of the list, when it holds one. */
  lemma DeleteRemovesOne(deletedName: string, inputList: seq<string>)
    ensures multiset(DeleteProjectFromList(deletedName, inputList)) == multiset(inputList) - multiset{deletedName}
  {
    if deletedName in inputList {
      var k := IndexOf(inputList, deletedName);
      assert inputList == inputList[..k] + [deletedName] + inputList[k + 1..];
    }
  }

  /** Only the first occurrence goes: the name survives exactly when it was listed twice or more. */
  lemma DeleteLeavesDuplicates(deletedName: string, inputList: seq<string>)
    ensures deletedName in DeleteProjectFromList(deletedName, inputList)
        <==> multiset(inputList)[deletedName] >= 2
  {
    var r := DeleteProjectFromList(deletedName, inputList);
    DeleteRemovesOne(deletedName, inputList);
    assert multiset(r)[deletedName] == if multiset(inputList)[deletedName] == 0 then 0
                                       else multiset(inputList)[deletedName] - 1;
  }

  /** The list with every `oldName` replaced by `newName` in place (`renameProjectInList`). */
  function Renamed(xs: seq<string>, oldName: string, newName: string): (r: seq<string>)
    ensures |r| == |xs|
    ensures forall i :: 0 <= i < |xs| ==> r[i] == if xs[i] == oldName then newName else xs[i]
  {
    if xs == [] then []
    else [if xs[0] == oldName then newName else xs[0]] + Renamed(xs[1..], oldName, newName)
  }

  /** The loop of `renameProjectInList`, which appends each entry or its replacement in turn. */
  method RenameProjectInList(oldName: string, newName: string, inputList: seq<string>)
    returns (projectList: seq<string>)
    ensures projectList == Renamed(inputList, oldName, newName)
  {
    projectList := [];
    var i := 0;
    while i < |inputList|
      invariant 0 <= i <= |inputList| && |projectList| == i
      invariant forall k :: 0 <= k < i ==>
        projectList[k] == if inputList[k] == oldName then newName else inputList[k]
    {
      if inputList[i] == oldName {
        projectList := projectList + [newName];
      } else {
        projectList := projectList + [inputList[i]];
      }
      i := i + 1;
    }
  }

  /** Renaming to a fresh name and back restores the list. */
  lemma RenameBack(xs: seq<string>, oldName: string, newName: string)
    requires newName !in xs
    ensures Renamed(Renamed(xs, oldName, newName), newName, oldName) == xs
  {
    var r := Renamed(xs, oldName, newName);
    var back := Renamed(r, newName, oldName);
    forall i | 0 <= i < |xs| ensures back[i] == xs[i] {
      assert xs[i] != newName;
    }
  }

  /** After a rename to a different name the old name is gone. */
  lemma RenameRemovesOldName(xs: seq<string>, oldName: string, newName: string)
    requires oldName != newName
    ensures oldName !in Renamed(xs, oldName, newName)
    ensures newName in Renamed(xs, oldName, newName) <==> newName in xs || oldName in xs
  {
    var r := Renamed(xs, oldName, newName);
    if newName in xs {
      var i :| 0 <= i < |xs| && xs[i] == newName;
      assert r[i] == newName;
    }
    if oldName in xs {
      var i :| 0 <= i < |xs| && xs[i] == oldName;
      assert r[i] == newName;
    }
  }

  // ---------------------------------------------------------------------
  // The configuration value
  // ---------------------------------------------------------------------

  /**
   * A project's BlockBuildJobProperty. A list field can be missing (null) in a
   * deserialised value; the accessors read a missing list as empty.
   */
  datatype Config = Config(
    blockUpstream: bool,
    finalUpstream: Option<seq<string>>,
    blockDownstream: bool,
    finalDownstream: Option<seq<string>>)
  {
    /** `getFinalUpstreamProjectsAsList`: the stored list, or an empty one when it is missing. */
    function FinalUpstreamAsList(): (r: seq<string>)
      ensures finalUpstream.Some? ==> r == finalUpstream.value
      ensures finalUpstream.None? ==> r == []
    {
      if finalUpstream.Some? then finalUpstream.value else []
    }

    /** `getFinalDownstreamProjectsAsList`. */
    function FinalDownstreamAsList(): (r: seq<string>)
      ensures finalDownstream.Some? ==> r == finalDownstream.value
      ensures finalDownstream.None? ==> r == []
    {
      if finalDownstream.Some? then finalDownstream.value else []
    }

    /** `getFinalUpstreamProjects`: the list joined with commas; a missing list joins to null. */
    function FinalUpstreamText(): (r: Option<string>)
      ensures r.None? <==> finalUpstream.None?
      ensures r.Some? ==> r.value == JoinWith(FinalUpstreamAsList(), ',')
    {
      if finalUpstream.Some? then Some(JoinWith(finalUpstream.value, ',')) else None
    }

    /** `getFinalDownstreamProjects`. */
    function FinalDownstreamText(): (r: Option<string>)
      ensures r.None? <==> finalDownstream.None?
      ensures r.Some? ==> r.value == JoinWith(FinalDownstreamAsList(), ',')
    {
      if finalDownstream.Some? then Some(JoinWith(finalDownstream.value, ',')) else None
    }

    /** `onDeleted`: a new value whose lists no longer hold the first occurrence of `deletedName`. */
    function OnDeleted(deletedName: string): (c: Config)
      ensures c.blockUpstream == blockUpstream && c.blockDownstream == blockDownstream
      ensures c.finalUpstream.Some? && c.finalDownstream.Some?
    {
      FromLists(
        blockUpstream, DeleteProjectFromList(deletedName, FinalUpstreamAsList()),
        blockDownstream, DeleteProjectFromList(deletedName, FinalDownstreamAsList()))
    }

    /** `onRenamed`: a new value whose lists carry `newName` wherever they carried `oldName`. */
    function OnRenamed(oldName: string, newName: string): (c: Config)
      ensures c.blockUpstream == blockUpstream && c.blockDownstream == blockDownstream
      ensures c.finalUpstream.Some? && c.finalDownstream.Some?
      ensures |c.FinalUpstreamAsList()| == |FinalUpstreamAsList()|
      ensures |c.FinalDownstreamAsList()| == |FinalDownstreamAsList()|
      ensures oldName !in FinalUpstreamAsList() ==> c.FinalUpstreamAsList() == FinalUpstreamAsList()
      ensures oldName !in FinalDownstreamAsList() ==> c.FinalDownstreamAsList() == FinalDownstreamAsList()
    {
      var up := FinalUpstreamAsList();
      var down := FinalDownstreamAsList();
      assert oldName !in up ==> Renamed(up, oldName, newName) == up;
      assert oldName !in down ==> Renamed(down, oldName, newName) == down;
      FromLists(
        blockUpstream, Renamed(up, oldName, newName),
        blockDownstream, Renamed(down, oldName, newName))
    }
  }

  /** `onDeleted` takes one copy of the name out of each list, and leaves a list without it as it was. */
  lemma OnDeletedRemovesOne(c: Config, deletedName: string)
    ensures var d := c.OnDeleted(deletedName);
      && multiset(d.FinalUpstreamAsList()) == multiset(c.FinalUpstreamAsList()) - multiset{deletedName}
      && multiset(d.FinalDownstreamAsList()) == multiset(c.FinalDownstreamAsList()) - multiset{deletedName}
      && (deletedName !in c.FinalUpstreamAsList() ==> d.FinalUpstreamAsList() == c.FinalUpstreamAsList())
      && (deletedName !in c.FinalDownstreamAsList() ==> d.FinalDownstreamAsList() == c.FinalDownstreamAsList())
  {
    DeleteRemovesOne(deletedName, c.FinalUpstreamAsList());
    DeleteRemovesOne(deletedName, c.FinalDownstreamAsList());
  }

  /** `onDeleted` removes the first occurrence and keeps the order of the other names. */
  lemma OnDeletedKeepsOrder(c: Config, deletedName: string)
    ensures var d := c.OnDeleted(deletedName);
      && (deletedName in c.FinalUpstreamAsList() ==>
            var k := IndexOf(c.FinalUpstreamAsList(), deletedName);
            d.FinalUpstreamAsList() == c.FinalUpstreamAsList()[..k] + c.FinalUpstreamAsList()[k + 1..])
      && (deletedName in c.FinalDownstreamAsList() ==>
            var k := IndexOf(c.FinalDownstreamAsList(), deletedName);
            d.FinalDownstreamAsList() == c.FinalDownstreamAsList()[..k] + c.FinalDownstreamAsList()[k + 1..])
  {
  }

  /** `onRenamed` keeps each list's length and order, replacing exactly the entries equal to `oldName`. */
  lemma OnRenamedLists(c: Config, oldName: string, newName: string)
    ensures var d := c.OnRenamed(oldName, newName);
      && |d.FinalUpstreamAsList()| == |c.FinalUpstreamAsList()|
      && |d.FinalDownstreamAsList()| == |c.FinalDownstreamAsList()|
      && (forall i :: 0 <= i < |c.FinalUpstreamAsList()| ==>
            d.FinalUpstreamAsList()[i] == if c.FinalUpstreamAsList()[i] == oldName then newName else c.FinalUpstreamAsList()[i])
      && (forall i :: 0 <= i < |c.FinalDownstreamAsList()| ==>
            d.FinalDownstreamAsList()[i] == if c.FinalDownstreamAsList()[i] == oldName then newName else c.FinalDownstreamAsList()[i])
  {
  }

  /** The list constructor: the toggles and the lists are kept exactly as given. */
  function FromLists(
    useBlockBuildUpstreamProject: bool, finalUpstreamProjectsList: seq<string>,
    useBlockBuildDownstreamProject: bool, finalDownstreamProjectsList: seq<string>): (c: Config)
    ensures c.blockUpstream == useBlockBuildUpstreamProject
    ensures c.blockDownstream == useBlockBuildDownstreamProject
    ensures c.FinalUpstreamAsList() == finalUpstreamProjectsList
    ensures c.FinalDownstreamAsList() == finalDownstreamProjectsList
    ensures c.FinalUpstreamText() == Some(JoinWith(finalUpstreamProjectsList, ','))
    ensures c.FinalDownstreamText() == Some(JoinWith(finalDownstreamProjectsList, ','))
  {
    Config(useBlockBuildUpstreamProject, Some(finalUpstreamProjectsList),
           useBlockBuildDownstreamProject, Some(finalDownstreamProjectsList))
  }

  /** The default constructor: nothing blocks and both lists are empty. */
  function Default(): (c: Config)
    ensures !c.blockUpstream && !c.blockDownstream
    ensures c.FinalUpstreamAsList() == [] && c.FinalDownstreamAsList() == []
    ensures c.FinalUpstreamText() == Some([]) && c.FinalDownstreamText() == Some([])
  {
    Config(false, Some([]), false, Some([]))
  }

  /** The form-bound constructor, which parses both comma-delimited fields. */
  method NewFromStrings(
    useBlockBuildUpstreamProject: bool, finalUpstreamProjects: Option<string>,
    useBlockBuildDownstreamProject: bool, finalDownstreamProjects: Option<string>) returns (c: Config)
    ensures c == Config(useBlockBuildUpstreamProject, Some(ParseNames(finalUpstreamProjects)),
                        useBlockBuildDownstreamProject, Some(ParseNames(finalDownstreamProjects)))
  {
    var up := ProjectsAsStringToList(finalUpstreamProjects);
    var down := ProjectsAsStringToList(finalDownstreamProjects);
    c := Config(useBlockBuildUpstreamProject, Some(up), useBlockBuildDownstreamProject, Some(down));
  }

  /** A missing list reads as empty and joins to null; it never reaches the caller as a list. */
  lemma MissingListReadsEmpty(c: Config)
    requires c.finalUpstream.None? && c.finalDownstream.None?
    ensures c.FinalUpstreamAsList() == [] && c.FinalDownstreamAsList() == []
    ensures c.FinalUpstreamText().None? && c.FinalDownstreamText().None?
  {
  }

  /** The text the form shows for a parsed value parses back to the same lists. */
  lemma FormRoundTrip(c: Config)
    requires c.finalUpstream.Some? && c.finalDownstream.Some?
    requires forall n :: n in c.FinalUpstreamAsList() ==> IsCleanName(n)
    requires forall n :: n in c.FinalDownstreamAsList() ==> IsCleanName(n)
    ensures ParseNames(c.FinalUpstreamText()) == c.FinalUpstreamAsList()
    ensures ParseNames(c.FinalDownstreamText()) == c.FinalDownstreamAsList()
  {
    ParseOfJoin(c.FinalUpstreamAsList());
    ParseOfJoin(c.FinalDownstreamAsList());
  }

  /** `getBlockBuildJobPropertyFromProject`: no project, no property; else the project's own. */
  function PropertyOf(properties: map<JobId, Config>, project: Option<JobId>): (r: Option<Config>)
    ensures r.Some? <==> project.Some? && project.value in properties
    ensures r.Some? ==> r.value == properties[project.value]
  {
    if project.Some? && project.value in properties then Some(properties[project.value]) else None
  }
}
