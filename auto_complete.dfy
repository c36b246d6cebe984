/**
 * AutoCompleteUtils: the project-name suggestions of the configuration
 * form, and the check of a comma-delimited list of names the user typed.
 */
module AutoComplete {
  import opened Wrappers
  import opened Strings

  /** `name.toLowerCase().startsWith(prefix.toLowerCase())`. */
  predicate StartsWithIgnoringCase(name: string, prefix: string, lower: string -> string) {
    lower(prefix) <= lower(name)
  }

  /** The names among `names` that start with `prefix` once both are lower-cased, in order. */
  function MatchingNames(names: seq<string>, prefix: string, lower: string -> string): seq<string>
  {
    if names == [] then []
    else
      var last := names[|names| - 1];
      MatchingNames(names[..|names| - 1], prefix, lower)
        + (if StartsWithIgnoringCase(last, prefix, lower) then [last] else [])
  }

  /** A name is suggested exactly when it is listed and starts with the input, ignoring case. */
  lemma {:induction false} MatchingNamesSpec(names: seq<string>, prefix: string, lower: string -> string)
    ensures |MatchingNames(names, prefix, lower)| <= |names|
    ensures forall n :: n in MatchingNames(names, prefix, lower) <==> n in names && lower(prefix) <= lower(n)
  {
    if names != [] {
      MatchingNamesSpec(names[..|names| - 1], prefix, lower);
      assert names == names[..|names| - 1] + [names[|names| - 1]];
    }
  }

  /**
   * `autoCompleteProjects`: the full names of all projects that start with
   * what the user typed, ignoring case, in the order the projects are listed.
   * `projectNames` stands for the projects' full names (`None` when the list
   * of projects is null) and `lower` for `String.toLowerCase`.
   */
  method AutoCompleteProjects(userInput: Option<string>, projectNames: Option<seq<string>>, lower: string -> string)
    returns (candidates: seq<string>)
    ensures projectNames.None? ==> candidates == []
    ensures projectNames.Some? ==> candidates == MatchingNames(projectNames.value, FixNull(userInput), lower)
  {
    var prefix := FixNull(userInput);
    if projectNames.None? {
      return [];
    }
    candidates := CollectMatching(projectNames.value, prefix, lower);
  }

  /** The loop of `autoCompleteProjects` over the projects. */
  method CollectMatching(projects: seq<string>, prefix: string, lower: string -> string) returns (candidates: seq<string>)
    ensures candidates == MatchingNames(projects, prefix, lower)
  {
    candidates := [];
    var i := 0;
    while i < |projects|
      invariant 0 <= i <= |projects|
      invariant candidates == MatchingNames(projects[..i], prefix, lower)
    {
      var projectName := projects[i];
      assert projects[..i + 1][..i] == projects[..i];
      if StartsWithIgnoringCase(projectName, prefix, lower) {
        candidates := candidates + [projectName];
      }
      i := i + 1;
    }
    assert projects[..i] == projects;
  }

  /** When lower-casing keeps the empty string empty, typing nothing suggests every project, in order. */
  lemma {:induction false} EmptyInputSuggestsAll(names: seq<string>, lower: string -> string)
    requires lower([]) == []
    ensures MatchingNames(names, [], lower) == names
  {
    if names != [] {
      EmptyInputSuggestsAll(names[..|names| - 1], lower);
      assert names[..|names| - 1] + [names[|names| - 1]] == names;
    }
  }

  /** What `Jenkins.getItem` finds for a name, relative to the project being configured. */
  datatype ItemKind = NoSuchItem | NotAProject | Project

  /** `FormValidation`: the list is accepted, or rejected with a message. */
  datatype Validation = Ok | Error(message: string)

  /** Java's string conversion of a possibly null string. */
  function Show(s: Option<string>): (r: string)
    ensures s.Some? ==> r == s.value
    ensures s.None? ==> r == "null"
  {
    if s.Some? then s.value else "null"
  }

  /** The message for a name that resolves to no item. */
  function InvalidMessage(project: string, userInput: Option<string>): string {
    "Invalid project: " + project + " | " + Show(userInput)
  }

  /** The message for a name that resolves to an item that cannot be built. */
  function NotBuildableMessage(project: string): string {
    "Project is not buildable: " + project
  }

  /**
   * The verdict on the tokens: the first non-empty token that is not a
   * project decides the error; with none, the list is accepted.
   */
  function CheckTokens(tokens: seq<string>, userInput: Option<string>, resolve: string -> ItemKind): Validation
  {
    if tokens == [] then Ok
    else
      var rest := CheckTokens(tokens[1..], userInput, resolve);
      if tokens[0] == [] then rest
      else match resolve(tokens[0])
        case NoSuchItem => Error(InvalidMessage(tokens[0], userInput))
        case NotAProject => Error(NotBuildableMessage(tokens[0]))
        case Project => rest
  }

  /** The list is accepted exactly when every non-empty token names a project. */
  lemma {:induction false} CheckTokensOk(tokens: seq<string>, userInput: Option<string>, resolve: string -> ItemKind)
    ensures CheckTokens(tokens, userInput, resolve) == Ok
        <==> forall i :: 0 <= i < |tokens| && tokens[i] != [] ==> resolve(tokens[i]) == Project
  {
    if tokens != [] {
      CheckTokensOk(tokens[1..], userInput, resolve);
      if CheckTokens(tokens, userInput, resolve) == Ok {
        forall i | 0 <= i < |tokens| && tokens[i] != [] ensures resolve(tokens[i]) == Project {
          if i > 0 {
            assert tokens[i] == tokens[1..][i - 1];
          }
        }
      }
    }
  }

  /** An error is about the first non-empty token that is not a project, and says which way it fails. */
  lemma {:induction false} CheckTokensError(tokens: seq<string>, userInput: Option<string>, resolve: string -> ItemKind)
    ensures var r := CheckTokens(tokens, userInput, resolve);
      r.Error? ==>
        exists i :: 0 <= i < |tokens| && tokens[i] != [] && resolve(tokens[i]) != Project
          && (forall k :: 0 <= k < i && tokens[k] != [] ==> resolve(tokens[k]) == Project)
          && r.message == if resolve(tokens[i]) == NoSuchItem then InvalidMessage(tokens[i], userInput)
                          else NotBuildableMessage(tokens[i])
  {
    if tokens != [] {
      var r := CheckTokens(tokens, userInput, resolve);
      if tokens[0] != [] && resolve(tokens[0]) != Project {
        assert 0 < |tokens| && tokens[0] != [] && resolve(tokens[0]) != Project;
      } else if r.Error? {
        CheckTokensError(tokens[1..], userInput, resolve);
        var rest := tokens[1..];
        var j :| 0 <= j < |rest| && rest[j] != [] && resolve(rest[j]) != Project
              && (forall k :: 0 <= k < j && rest[k] != [] ==> resolve(rest[k]) == Project)
              && r.message == if resolve(rest[j]) == NoSuchItem then InvalidMessage(rest[j], userInput)
                              else NotBuildableMessage(rest[j]);
        assert tokens[j + 1] == rest[j];
        forall k | 0 <= k < j + 1 && tokens[k] != [] ensures resolve(tokens[k]) == Project {
          if k > 0 {
            assert tokens[k] == rest[k - 1];
          }
        }
      }
    }
  }

  /**
   * `checkProjects`: splits the input as the property does and looks each
   * non-empty name up; `resolve` stands for `Jenkins.getItem` relative to the
   * current project.
   */
  method CheckProjects(userInput: Option<string>, resolve: string -> ItemKind) returns (r: Validation)
    ensures r == CheckTokens(NameTokens(userInput), userInput, resolve)
  {
    var projects := NameTokens(userInput);
    r := CheckEach(projects, userInput, resolve);
  }

  /** The loop of `checkProjects`: the first non-empty name that is not a project ends it with an error. */
  method CheckEach(projects: seq<string>, userInput: Option<string>, resolve: string -> ItemKind) returns (r: Validation)
    ensures r == CheckTokens(projects, userInput, resolve)
  {
    var i := 0;
    while i < |projects|
      invariant 0 <= i <= |projects|
      invariant CheckTokens(projects[i..], userInput, resolve) == CheckTokens(projects, userInput, resolve)
    {
      CheckStep(projects, i, userInput, resolve);
      var project := projects[i];
      if project != [] {
        var item := resolve(project);
        if item == NoSuchItem {
          return Error(InvalidMessage(project, userInput));
        }
        if item == NotAProject {
          return Error(NotBuildableMessage(project));
        }
      }
      i := i + 1;
    }
    return Ok;
  }

  lemma CheckStep(tokens: seq<string>, i: nat, userInput: Option<string>, resolve: string -> ItemKind)
    requires i < |tokens|
    ensures CheckTokens(tokens[i..], userInput, resolve)
      == if tokens[i] == [] || resolve(tokens[i]) == Project then CheckTokens(tokens[i + 1..], userInput, resolve)
         else if resolve(tokens[i]) == NoSuchItem then Error(InvalidMessage(tokens[i], userInput))
         else Error(NotBuildableMessage(tokens[i]))
  {
    assert tokens[i..][1..] == tokens[i + 1..];
  }
}
