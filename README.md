# Block Build Final Project — a Dafny model

The Jenkins plugin "Block Build Final Project" holds a queued project back
while a project upstream or downstream of it is building. Unlike Jenkins'
own blocking options, the search for those projects can stop at "final"
projects. A final project is still collected, but the walk goes no further
past it.

This project models the plugin's logic in Dafny and proves what it computes:

- **BlockBuild** (`block_build.dfy`). The depth-first walk over the
  dependency graph. It uses a stack and a visited set, collecting projects
  and never expanding a final one. It is a `method` with a `while` loop, and
  it is proved equal to `ReachableSet`: the projects reached by a path of at
  least one edge whose inner projects are not final. Around it:
  - the two checks that look for a collected project other than the
    candidate that is building or is an unblocked task of the queue;
  - lemmas that characterise the reachable set independently, as the least
    set closed under the walk's rule;
  - monotonicity in the final list;
  - the up/down mirror property of Jenkins' symmetric graph.
- **Dispatcher** (`dispatcher.dfy`). `canRun`: the upstream check first,
  then the downstream check, and otherwise the item may run.
- **JobProperty** (`job_property.dfy`). The immutable per-project property
  (`Config`), with:
  - its three constructors and its accessors;
  - parsing of the comma-delimited form fields:
    `fixNull(s).trim().split("\\s*,\\s*")`, then dropping empty tokens;
  - joining with `,`, and the round trip from the shown text back to the list;
  - `onDeleted`, which drops the first occurrence of a name;
  - `onRenamed`, which replaces every occurrence in place;
  - the lookup of a project's property.
- **ItemListener** (`item_listener.dfy`). A class `Instance` holding the
  projects and their properties in a mutable map. Its `OnDeleted` and
  `OnRenamed` loop over every project and replace each property in place.
  An update that Jenkins fails to save is logged and skipped, and the loop
  goes on. Which updates fail is a parameter. Each loop is proved equal to a
  map-level function.
- **AutoComplete** (`auto_complete.dfy`). Two form helpers:
  - the case-insensitive prefix filter over the project names;
  - the token-by-token check of a typed list, which reports the first
    failing token.
- **Strings** (`strings.dfy`). The Java string operations involved:
  `Util.fixNull`, `String.trim`, `String.split("\\s*,\\s*")` (with its
  trailing-empty-string rule) and `StringUtils.join`.
- **Scenarios** (`scenarios.dfy`). The situations of the plugin's own tests,
  stated over graphs and properties of the same shape.

A few inputs become parameters:

- The Jenkins instance is a `Graph`: project ids, each project's upstream
  and downstream lists, and full names.
- `isBuilding()` and the queue's unblocked tasks are two sets taken as
  inputs.
- `String.toLowerCase` is a parameter `lower: string -> string`.
- `Jenkins.getItem` is a parameter `resolve: string -> ItemKind`.
- A Java `null` string or list is `None`.

## Model

| member | source | states |
|---|---|---|
| BlockBuild.TransitiveProjectsFinal | src/main/java/org/jenkinsci/plugins/blockbuildfinalproject/BlockBuild.java:200-240 | The stack-and-visited walk returns exactly the projects reachable from the start by a path of at least one edge whose inner projects are not final. The start itself is included only when a cycle leads back to it. Terminates on any finite graph. |
| BlockBuild.VisitDependencies | src/main/java/org/jenkinsci/plugins/blockbuildfinalproject/BlockBuild.java:223-235 | Visiting one project's dependencies marks them all visited and marks nothing else. Exactly the newly visited non-final ones are pushed. The count of unvisited projects plus the stack size does not grow. |
| BlockBuild.TransitiveUpstreamProjectsFinal | src/main/java/org/jenkinsci/plugins/blockbuildfinalproject/BlockBuild.java:173-176 | The upstream walk's result is the upstream reachable set, with a null final list read as empty. |
| BlockBuild.TransitiveDownstreamProjectsFinal | src/main/java/org/jenkinsci/plugins/blockbuildfinalproject/BlockBuild.java:184-187 | The downstream walk's result is the downstream reachable set, with a null final list read as empty. |
| BlockBuild.CheckFinalProjectsForNull | src/main/java/org/jenkinsci/plugins/blockbuildfinalproject/BlockBuild.java:248-256 | A null list of final projects becomes the empty list; any other list is returned as it is. |
| BlockBuild.ReachableIsClosed | src/main/java/org/jenkinsci/plugins/blockbuildfinalproject/BlockBuild.java:217-235 | The start's neighbours are collected even when the start's own name is final. The neighbours of every collected non-final project are collected too. |
| BlockBuild.ReachableIsLeast | src/main/java/org/jenkinsci/plugins/blockbuildfinalproject/BlockBuild.java:212-237 | The result is contained in every set closed under that rule. Together with ReachableIsClosed, this is a reference definition of the walk that does not depend on traversal order. |
| BlockBuild.MoreFinalsCollectLess | src/main/java/org/jenkinsci/plugins/blockbuildfinalproject/BlockBuild.java:227-233 | Listing more final projects never makes the walk collect more. |
| BlockBuild.NoNeighborsCollectsNothing | src/main/java/org/jenkinsci/plugins/blockbuildfinalproject/BlockBuild.java:217-222 | A project with no neighbours in the walked direction collects nothing. |
| BlockBuild.UpstreamDownstreamDual | src/main/java/org/jenkinsci/plugins/blockbuildfinalproject/BlockBuild.java:217-222 | On a graph where A lists B downstream exactly when B lists A upstream, for the same final projects, y is collected upstream from x exactly when x is collected downstream from y. |
| BlockBuild.Enabled | src/main/java/org/jenkinsci/plugins/blockbuildfinalproject/BlockBuild.java:78 | The upstream check reads the upstream toggle and the downstream check (BlockBuild.java:127) the downstream toggle. |
| BlockBuild.FinalsAsList | src/main/java/org/jenkinsci/plugins/blockbuildfinalproject/BlockBuild.java:90 | The upstream check walks with the upstream final list and the downstream check (BlockBuild.java:140) with the downstream one, each read through its null-safe accessor. |
| BlockBuild.CheckBuilding | src/main/java/org/jenkinsci/plugins/blockbuildfinalproject/BlockBuild.java:74-103 | With no property, or with the direction switched off, the result is null (`NotBlocked`). Otherwise it blocks exactly when some collected project other than the candidate is building or is an unblocked queue task, and the culprit it names is such a project. The same member covers the downstream check at BlockBuild.java:123-153. |
| Dispatcher.CanRun | src/main/java/org/jenkinsci/plugins/blockbuildfinalproject/BlockBuildQueueTaskDispatcher.java:64-87 | A task that is not a project may always run. An upstream blockage wins. The downstream check decides only when there is no upstream culprit. With neither, the project may run. |
| JobProperty.ParseNames | src/main/java/org/jenkinsci/plugins/blockbuildfinalproject/BlockBuildJobProperty.java:97-106 | Every parsed name is non-empty, holds no comma, and neither starts nor ends with a `\s` character. |
| JobProperty.ProjectsAsStringToList | src/main/java/org/jenkinsci/plugins/blockbuildfinalproject/BlockBuildJobProperty.java:97-106 | The loop that keeps the non-empty tokens of the split text computes `ParseNames`. |
| JobProperty.KeepNonEmpty | src/main/java/org/jenkinsci/plugins/blockbuildfinalproject/BlockBuildJobProperty.java:100-104 | Appending each non-empty token in turn yields exactly the non-empty tokens, in order. |
| JobProperty.ParseOfJoin | src/main/java/org/jenkinsci/plugins/blockbuildfinalproject/BlockBuildJobProperty.java:97-106 | Parsing the `,`-joined text of non-empty, comma-free, trimmed names gives back the same list. |
| JobProperty.ParsePadded | src/main/java/org/jenkinsci/plugins/blockbuildfinalproject/BlockBuildJobProperty.java:97-106 | Clean names typed with any `\s` run on either side of each comma, any blanks up to U+0020 before the first name, `\s` after the last, and with or without a trailing comma, parse back to exactly those names, in order. |
| JobProperty.TokensOfPadded | src/main/java/org/jenkinsci/plugins/blockbuildfinalproject/BlockBuildJobProperty.java:99 | For that padded text, `trim` followed by `split("\\s*,\\s*")` yields exactly the names: the trailing empty token of a final comma is dropped by `split` itself. |
| JobProperty.FormRoundTrip | src/main/java/org/jenkinsci/plugins/blockbuildfinalproject/BlockBuildJobProperty.java:164-173 | The text the form shows for a property whose names are clean parses back to the property's lists. |
| JobProperty.NewFromStrings | src/main/java/org/jenkinsci/plugins/blockbuildfinalproject/BlockBuildJobProperty.java:79-89 | The form-bound constructor keeps both toggles and stores the parsed form of each field. |
| JobProperty.FromLists | src/main/java/org/jenkinsci/plugins/blockbuildfinalproject/BlockBuildJobProperty.java:117-133 | The list constructor keeps both toggles and both lists exactly. The upstream and the downstream text the form shows are each the `,`-join of the list given. |
| JobProperty.Default | src/main/java/org/jenkinsci/plugins/blockbuildfinalproject/BlockBuildJobProperty.java:138-145 | The default property blocks nothing, and both lists are empty. |
| JobProperty.MissingListReadsEmpty | src/main/java/org/jenkinsci/plugins/blockbuildfinalproject/BlockBuildJobProperty.java:179-203 | A missing (null) list is read as the empty list. |
| JobProperty.Config.FinalUpstreamAsList | src/main/java/org/jenkinsci/plugins/blockbuildfinalproject/BlockBuildJobProperty.java:179-188 | A present upstream list is returned as it is; a null one reads as the empty list. |
| JobProperty.Config.FinalDownstreamAsList | src/main/java/org/jenkinsci/plugins/blockbuildfinalproject/BlockBuildJobProperty.java:194-203 | A present downstream list is returned as it is; a null one reads as the empty list. |
| JobProperty.Config.FinalUpstreamText | src/main/java/org/jenkinsci/plugins/blockbuildfinalproject/BlockBuildJobProperty.java:164-166 | `StringUtils.join` of a null list is null, and only then. Otherwise the text is the upstream list joined with `,`. |
| JobProperty.Config.FinalDownstreamText | src/main/java/org/jenkinsci/plugins/blockbuildfinalproject/BlockBuildJobProperty.java:171-173 | The same for the downstream list. |
| JobProperty.IndexOf | src/main/java/org/jenkinsci/plugins/blockbuildfinalproject/BlockBuildJobProperty.java:234 | The position found holds the name, and no earlier position does. |
| JobProperty.RemoveFirst | src/main/java/org/jenkinsci/plugins/blockbuildfinalproject/BlockBuildJobProperty.java:234 | `List.remove(Object)` leaves a list without the name unchanged. |
| JobProperty.RemoveFirstCutsFirst | src/main/java/org/jenkinsci/plugins/blockbuildfinalproject/BlockBuildJobProperty.java:234 | When the name is listed, `List.remove(Object)` cuts out exactly its first occurrence, and the other names keep their order. |
| JobProperty.DeleteProjectFromList | src/main/java/org/jenkinsci/plugins/blockbuildfinalproject/BlockBuildJobProperty.java:230-239 | An absent name leaves the list as it is. A present one loses its first occurrence, and the other names keep their order. |
| JobProperty.DeleteRemovesOne | src/main/java/org/jenkinsci/plugins/blockbuildfinalproject/BlockBuildJobProperty.java:230-239 | As multisets, the result is the input minus one copy of the name. |
| JobProperty.DeleteLeavesDuplicates | src/main/java/org/jenkinsci/plugins/blockbuildfinalproject/BlockBuildJobProperty.java:233-234 | The name is still present after deletion exactly when it was listed at least twice. |
| JobProperty.Renamed | src/main/java/org/jenkinsci/plugins/blockbuildfinalproject/BlockBuildJobProperty.java:267-290 | Renaming keeps the length and puts the new name at exactly the positions that held the old one. |
| JobProperty.RenameProjectInList | src/main/java/org/jenkinsci/plugins/blockbuildfinalproject/BlockBuildJobProperty.java:267-290 | The loop that appends each entry or its replacement computes `Renamed`. |
| JobProperty.RenameBack | src/main/java/org/jenkinsci/plugins/blockbuildfinalproject/BlockBuildJobProperty.java:267-290 | Renaming to a name the list does not hold, then back, restores the list. |
| JobProperty.RenameRemovesOldName | src/main/java/org/jenkinsci/plugins/blockbuildfinalproject/BlockBuildJobProperty.java:279-287 | After a rename to a different name, the old name is gone. The new name is present exactly when it, or the old name, was present before. |
| JobProperty.Config.OnDeleted | src/main/java/org/jenkinsci/plugins/blockbuildfinalproject/BlockBuildJobProperty.java:212-221 | Deletion returns a new value with the same toggles and both lists present. |
| JobProperty.OnDeletedRemovesOne | src/main/java/org/jenkinsci/plugins/blockbuildfinalproject/BlockBuildJobProperty.java:212-221 | Each list of the new value is the old one minus one copy of the name. A list without the name is unchanged. |
| JobProperty.OnDeletedKeepsOrder | src/main/java/org/jenkinsci/plugins/blockbuildfinalproject/BlockBuildJobProperty.java:212-239 | Each list of the new value is the old one with its first occurrence of the name cut out, in order. |
| JobProperty.Config.OnRenamed | src/main/java/org/jenkinsci/plugins/blockbuildfinalproject/BlockBuildJobProperty.java:248-257 | Renaming returns a new value with the same toggles and list lengths. A list without the old name is unchanged. |
| JobProperty.OnRenamedLists | src/main/java/org/jenkinsci/plugins/blockbuildfinalproject/BlockBuildJobProperty.java:248-290 | Each list of the new value has the new name exactly where the old list had the old name, and the old entries elsewhere. |
| JobProperty.PropertyOf | src/main/java/org/jenkinsci/plugins/blockbuildfinalproject/BlockBuildJobProperty.java:298-305 | A null project has no property. Otherwise the lookup returns the project's property if it has one. |
| ItemListener.Instance.UpdateProperty | src/main/java/org/jenkinsci/plugins/blockbuildfinalproject/BlockBuildJobProperty.java:315-323 | When Jenkins saves the change, removing the property and adding the new one leaves the project holding exactly the new property, and no other project changes. When it throws, the exception is swallowed and every property stays as it was. |
| ItemListener.Instance.OnDeleted | src/main/java/org/jenkinsci/plugins/blockbuildfinalproject/BlockBuildItemListener.java:64-83 | For a deleted project, the properties become `AfterDelete` of the old ones, for whichever set of projects' updates throws; the loop carries on past a failure. A non-project item changes nothing. Each project is still listed once. |
| ItemListener.Instance.ForgetIn | src/main/java/org/jenkinsci/plugins/blockbuildfinalproject/BlockBuildItemListener.java:73-78 | One turn of the deletion loop: a project holding the property ends with `onDeleted(name)` of it when the update is saved. A failed update, a project without the property, and every other project are unchanged. |
| ItemListener.Instance.OnRenamed | src/main/java/org/jenkinsci/plugins/blockbuildfinalproject/BlockBuildItemListener.java:101-115 | For a renamed project, the properties become `AfterRename` of the old ones, including the renamed project's own, for whichever set of projects' updates throws. A non-project item changes nothing. Each project is still listed once. |
| ItemListener.AfterDelete | src/main/java/org/jenkinsci/plugins/blockbuildfinalproject/BlockBuildItemListener.java:70-80 | After a deletion, with any updates failing, the same projects hold a property as before. |
| ItemListener.AfterRename | src/main/java/org/jenkinsci/plugins/blockbuildfinalproject/BlockBuildItemListener.java:105-112 | After a rename, with any updates failing, the same projects hold a property as before. |
| ItemListener.DeleteFailuresStayLocal | src/main/java/org/jenkinsci/plugins/blockbuildfinalproject/BlockBuildItemListener.java:70-80 | Every listed project other than the deleted one whose own update is saved ends with `onDeleted(name)` of its property, exactly as if no update had failed, wherever the failures fall. A project whose update throws keeps its property (BlockBuildJobProperty.java:316-322). |
| ItemListener.RenameFailuresStayLocal | src/main/java/org/jenkinsci/plugins/blockbuildfinalproject/BlockBuildItemListener.java:105-112 | Every listed project whose own update is saved ends with `onRenamed(oldName, newName)` of its property, exactly as if no update had failed. A project whose update throws keeps its property. |
| ItemListener.DeletedProjectUntouched | src/main/java/org/jenkinsci/plugins/blockbuildfinalproject/BlockBuildItemListener.java:71-72 | The deleted project's own property is left as it was. |
| ItemListener.DeleteForgetsName | src/main/java/org/jenkinsci/plugins/blockbuildfinalproject/BlockBuildItemListener.java:70-80 | Take any other listed project whose update is saved and whose lists named the deleted project at most once. After the deletion, neither of its lists names it. |
| ItemListener.RenameForgetsOldName | src/main/java/org/jenkinsci/plugins/blockbuildfinalproject/BlockBuildItemListener.java:105-112 | After a rename to a different name, no listed project whose update is saved holds the old name. |
| ItemListener.RenameAndBack | src/main/java/org/jenkinsci/plugins/blockbuildfinalproject/BlockBuildItemListener.java:105-112 | Renaming to a name no list uses, then back, restores every list, provided a project's update fails in both directions or in neither. |
| AutoComplete.AutoCompleteProjects | src/main/java/org/jenkinsci/plugins/blockbuildfinalproject/AutoCompleteUtils.java:63-80 | A null project list gives no candidates. Otherwise the candidates are `MatchingNames` of the full names and the null-fixed input. |
| AutoComplete.CollectMatching | src/main/java/org/jenkinsci/plugins/blockbuildfinalproject/AutoCompleteUtils.java:72-77 | The loop that adds each matching full name computes `MatchingNames`. |
| AutoComplete.MatchingNamesSpec | src/main/java/org/jenkinsci/plugins/blockbuildfinalproject/AutoCompleteUtils.java:72-77 | A name is suggested exactly when it is listed and its lower-cased form starts with the lower-cased input. There are never more suggestions than names. |
| AutoComplete.EmptyInputSuggestsAll | src/main/java/org/jenkinsci/plugins/blockbuildfinalproject/AutoCompleteUtils.java:64-77 | A null or empty input suggests every project, in order, provided lower-casing keeps the empty string empty. |
| AutoComplete.Show | src/main/java/org/jenkinsci/plugins/blockbuildfinalproject/AutoCompleteUtils.java:99 | Concatenating a null input into the message writes `null`; any other input is written as it is. |
| AutoComplete.CheckProjects | src/main/java/org/jenkinsci/plugins/blockbuildfinalproject/AutoCompleteUtils.java:90-108 | The verdict is `CheckTokens` of the input split in the same way as the property's parser. |
| AutoComplete.CheckEach | src/main/java/org/jenkinsci/plugins/blockbuildfinalproject/AutoCompleteUtils.java:93-107 | The loop with early returns computes `CheckTokens`. |
| AutoComplete.CheckTokensOk | src/main/java/org/jenkinsci/plugins/blockbuildfinalproject/AutoCompleteUtils.java:93-107 | The list is accepted exactly when every non-empty token resolves to a project. |
| AutoComplete.CheckTokensError | src/main/java/org/jenkinsci/plugins/blockbuildfinalproject/AutoCompleteUtils.java:98-103 | A rejection concerns the first non-empty token that is not a project. Its message is "Invalid project: token \| input" when nothing was found, and "Project is not buildable: token" otherwise. |
| Strings.FixNull | src/main/java/org/jenkinsci/plugins/blockbuildfinalproject/BlockBuildJobProperty.java:99 | A null string reads as empty; any other string is returned as it is. |
| Strings.StripLeft | src/main/java/org/jenkinsci/plugins/blockbuildfinalproject/BlockBuildJobProperty.java:99 | The result is a suffix of the input that does not start with a dropped character. Every character removed is a dropped one. |
| Strings.StripRight | src/main/java/org/jenkinsci/plugins/blockbuildfinalproject/BlockBuildJobProperty.java:99 | The result is a prefix of the input that does not end with a dropped character. Every character removed is a dropped one. |
| Strings.Trim | src/main/java/org/jenkinsci/plugins/blockbuildfinalproject/BlockBuildJobProperty.java:99 | `String.trim`: the result neither starts nor ends with a character up to U+0020. |
| Strings.TrimIsSlice | src/main/java/org/jenkinsci/plugins/blockbuildfinalproject/BlockBuildJobProperty.java:99 | What `trim` keeps is a contiguous slice of the input; only characters up to U+0020 are cut from either side of it. |
| Strings.TrimJoin | src/main/java/org/jenkinsci/plugins/blockbuildfinalproject/BlockBuildJobProperty.java:99 | Trimming text joined at a non-blank separator trims only the start of the first part and the end of the last part. |
| Strings.StripUnpadded | src/main/java/org/jenkinsci/plugins/blockbuildfinalproject/BlockBuildJobProperty.java:99 | A string that neither starts nor ends with a dropped character is left unchanged by trimming. |
| Strings.RegexSpaceIsTrimmed | src/main/java/org/jenkinsci/plugins/blockbuildfinalproject/BlockBuildJobProperty.java:99 | Every character of the regular-expression class `\s` is one `trim` removes. |
| Strings.SplitOn | src/main/java/org/jenkinsci/plugins/blockbuildfinalproject/BlockBuildJobProperty.java:99 | Splitting at a separator gives at least one piece, and no piece holds the separator. A string without the separator is one piece. |
| Strings.JoinWith | src/main/java/org/jenkinsci/plugins/blockbuildfinalproject/BlockBuildJobProperty.java:165 | `StringUtils.join`: a non-empty join starts with its first part. |
| Strings.JoinSeparators | src/main/java/org/jenkinsci/plugins/blockbuildfinalproject/BlockBuildJobProperty.java:165 | When no part holds the separator, the separator occurs in the join exactly when there are at least two parts. |
| Strings.JoinOfSplit | src/main/java/org/jenkinsci/plugins/blockbuildfinalproject/BlockBuildJobProperty.java:165 | Joining the pieces of a split with the same separator rebuilds the string. |
| Strings.SplitOfJoin | src/main/java/org/jenkinsci/plugins/blockbuildfinalproject/BlockBuildJobProperty.java:165 | Splitting the join of separator-free pieces gives back those pieces. |
| Strings.DropTrailingEmpty | src/main/java/org/jenkinsci/plugins/blockbuildfinalproject/BlockBuildJobProperty.java:99 | `split` drops only trailing empty pieces. What remains is a prefix of the pieces that does not end with an empty one. |
| Strings.SplitAtCommas | src/main/java/org/jenkinsci/plugins/blockbuildfinalproject/BlockBuildJobProperty.java:99 | No token of `split("\\s*,\\s*")` contains a comma. |
| Strings.SplitAtCommasUnpadded | src/main/java/org/jenkinsci/plugins/blockbuildfinalproject/BlockBuildJobProperty.java:99 | Splitting trimmed text at `\s*,\s*` gives tokens that neither start nor end with a `\s` character. |
| Strings.NameTokens | src/main/java/org/jenkinsci/plugins/blockbuildfinalproject/AutoCompleteUtils.java:91 | `fixNull(s).trim().split("\\s*,\\s*")`: a null input gives the single empty token; no token holds a comma, and no non-empty token starts or ends with a `\s` character. |
| Strings.NonEmpty | src/main/java/org/jenkinsci/plugins/blockbuildfinalproject/BlockBuildJobProperty.java:100-104 | The kept tokens are exactly the non-empty ones, and there are no more of them than tokens. |
| Scenarios.GrandparentCollectsAll | src/test/java/org/jenkinsci/plugins/blockbuildfinalproject/BlockBuildIntTest.java:246-284 | In the downstream test pipeline, the grandparent with no final projects collects its five descendants. |
| Scenarios.GrandparentAtMost | src/test/java/org/jenkinsci/plugins/blockbuildfinalproject/BlockBuildIntTest.java:246-284 | Whatever the final list, the grandparent collects only its descendants. |
| Scenarios.GrandparentStopsAtParents | src/test/java/org/jenkinsci/plugins/blockbuildfinalproject/BlockBuildIntTest.java:309-324 | With brian and chad final, exactly those two are collected. |
| Scenarios.ChildCollectsNothing | src/test/java/org/jenkinsci/plugins/blockbuildfinalproject/BlockBuildIntTest.java:292-301 | A child with nothing downstream collects nothing. |
| Scenarios.ChildAtMost | src/test/java/org/jenkinsci/plugins/blockbuildfinalproject/BlockBuildIntTest.java:332-347 | Whatever the final list, neil collects only its ancestors. |
| Scenarios.ChildCollectsAllUpstream | src/test/java/org/jenkinsci/plugins/blockbuildfinalproject/BlockBuildIntTest.java:332-347 | In the upstream test pipeline, neil collects its four ancestors. |
| Scenarios.ChildStopsAtParents | src/test/java/org/jenkinsci/plugins/blockbuildfinalproject/BlockBuildIntTest.java:355-370 | With katie and chad final, the walk up from neil collects just those two. |
| Scenarios.AandBCulprits | src/test/java/org/jenkinsci/plugins/blockbuildfinalproject/BlockBuildIntTest.java:165-191 | For project-a -> project-b: while b builds, b is a's only downstream culprit and a has no upstream culprit. While a builds, a is b's only upstream culprit. |
| Scenarios.ProjectAWaitsForB | src/test/java/org/jenkinsci/plugins/blockbuildfinalproject/BlockBuildIntTest.java:420-438 | project-a, queued while project-b builds, is blocked by b, downstream. |
| Scenarios.ProjectBWaitsForA | src/test/java/org/jenkinsci/plugins/blockbuildfinalproject/BlockBuildIntTest.java:511-528 | project-b, queued while project-a builds, is blocked by a, upstream. |
| Scenarios.FormExampleParses | src/test/java/org/jenkinsci/plugins/blockbuildfinalproject/BlockBuildJobPropertyUnitTest.java:29-34 | The upstream field "  project1,   project 2   ," parses to project1 and "project 2". |
| Scenarios.SingleNameParses | src/test/java/org/jenkinsci/plugins/blockbuildfinalproject/BlockBuildJobPropertyUnitTest.java:29-34 | A single clean name such as projectA parses to itself. |
| Scenarios.DataBoundConstructorExample | src/test/java/org/jenkinsci/plugins/blockbuildfinalproject/BlockBuildJobPropertyUnitTest.java:29-50 | The form constructor given "  project1,   project 2   ," and "projectA" keeps both toggles, lists project1 and "project 2" upstream and projectA downstream, and shows them as "project1,project 2" and "projectA". |
| Scenarios.DeleteExample | src/test/java/org/jenkinsci/plugins/blockbuildfinalproject/BlockBuildJobPropertyUnitTest.java:86-99 | Deleting C from A,B,C and C,D,E leaves A,B and D,E, with the toggles kept. |
| Scenarios.DeleteAbsentExample | src/test/java/org/jenkinsci/plugins/blockbuildfinalproject/BlockBuildJobPropertyUnitTest.java:105-117 | Deleting a name no list holds changes nothing. |
| Scenarios.RenameExample | src/test/java/org/jenkinsci/plugins/blockbuildfinalproject/BlockBuildJobPropertyUnitTest.java:123-136 | Renaming C to F in A,B,C and C,D,E gives A,B,F and F,D,E. |
| Scenarios.ListenerDeleteExample | src/test/java/org/jenkinsci/plugins/blockbuildfinalproject/BlockBuildItemListenerIntTest.java:60-77 | After deleted-project is deleted, a project listing "other-project, deleted-project" lists only other-project. |
| Scenarios.ListenerRenameExample | src/test/java/org/jenkinsci/plugins/blockbuildfinalproject/BlockBuildItemListenerIntTest.java:80-101 | After old-name is renamed, both the renamed project's own list and another project's list carry new-name in its place. |
| Scenarios.ResolvesToProjectsOk | src/main/java/org/jenkinsci/plugins/blockbuildfinalproject/AutoCompleteUtils.java:91-107 | A comma-delimited list of clean names that all resolve to projects is accepted. |
| Scenarios.PaddedResolvesToProjectsOk | src/test/java/org/jenkinsci/plugins/blockbuildfinalproject/AutoCompleteUtilsUnitTest.java:191-211 | The same list typed with `\s` padding around the names and a trailing comma, as in "  search-one  , search-two, search-three,", is accepted. |
| Scenarios.SingleCleanName | src/main/java/org/jenkinsci/plugins/blockbuildfinalproject/AutoCompleteUtils.java:91 | A clean name typed alone splits into exactly that one token. |
| Scenarios.InvalidProjectExample | src/test/java/org/jenkinsci/plugins/blockbuildfinalproject/AutoCompleteUtilsUnitTest.java:217-233 | A single name that resolves to nothing is rejected with "Invalid project: name \| name". |
| Scenarios.NotBuildableExample | src/test/java/org/jenkinsci/plugins/blockbuildfinalproject/AutoCompleteUtilsUnitTest.java:239-255 | A single name that resolves to a non-project item is rejected with "Project is not buildable: name". |

## Left out

- The Javadoc of `onDeleted` and `deleteProjectFromList` (BlockBuildJobProperty.java:210 and 228) promises a list "without deletedName". The code at BlockBuildJobProperty.java:234 calls `List.remove(Object)`, which removes only the first occurrence. The model follows the code: `DeleteLeavesDuplicates` shows that a name listed twice survives.
- `ItemListener.Instance.UpdateProperty`: a failed update is modelled as leaving the old property in place. Whether Jenkins' `removeProperty` had already taken effect before `addProperty` threw is decided by Jenkins code that is not part of this model. Which updates fail is a parameter (`failing`).
- `ItemListener.Instance.OnDeleted` and `ItemListener.Instance.OnRenamed`: their results are stated for the projects listed in the instance only. Projects missing from `getAbstractProjects` keep their properties.
- `JenkinsWrapper` is not part of this model. Its results, the project list and the unblocked tasks, are inputs to the methods. It returns empty collections when Jenkins is unavailable (JenkinsWrapper.java:61-71, 79-89). The `projects == null` branch of `autoCompleteProjects` (AutoCompleteUtils.java:67) is a defensive check that only a mocked wrapper reaches; the model keeps it as the `None` case.
- `BlockBuildJobProperty.DescriptorImpl` is not part of this model. It covers the web form's display name, applicability, the toggle checks and the delegation to `AutoCompleteUtils`.
- Logging is not modelled, including the `logMessageIfAdvancedProjectOptions*` helpers, because it has no effect on any result.
- `CauseOfBlockage` and its message text are replaced by `Blocked(direction, culprit)`.
- The base `QueueTaskDispatcher.canRun` is modelled as its documented answer: the item may run (`NotBlocked`).
- `BlockBuild.CheckBuilding`: the source returns the first culprit in `HashSet` iteration order. The model promises only that some culprit is named, because that order is unspecified.
- `String.toLowerCase` and `Jenkins.getItem` are abstract parameters, so Unicode case mapping and item resolution relative to the current project are not modelled. The `assert jenkins != null` in `checkProjects` is not modelled either.
- Concurrency is not modelled: the graph, the building set and the unblocked tasks are one snapshot. The timing-based test `testProjectBlocking` concerns real time.
- `ImmutableList.Builder` rejects null elements in the list constructor. The model's lists cannot hold a null name.
