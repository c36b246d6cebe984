/**
 * The scenarios of the plugin's own tests, stated over graphs and
 * properties of the same shape: the two pipelines the walk is tried on, the
 * pair project-a -> project-b that blocks both ways, and the examples of
 * editing, renaming and checking lists of names.
 */
module Scenarios {
  import opened Wrappers
  import opened Strings
  import opened JobProperty
  import opened BlockBuild
  import opened Dispatcher
  import opened AutoComplete
  import opened ItemListener

  // ---------------------------------------------------------------------
  // The walk on the downstream and upstream test pipelines
  // ---------------------------------------------------------------------

  /** The downstream pipeline of the tests: 0 triggers 1 and 3, 1 triggers 2, 3 triggers 4 and 5. */
  ghost predicate DownstreamPipeline(g: Graph) {
    g.Valid() && g.jobs == {0, 1, 2, 3, 4, 5}
    && g.downstream[0] == [1, 3] && g.downstream[1] == [2] && g.downstream[2] == []
    && g.downstream[3] == [4, 5] && g.downstream[4] == [] && g.downstream[5] == []
    && g.fullName[1] == "downstream-parent-brian" && g.fullName[3] == "downstream-parent-chad"
  }

  /** Whatever the final projects, the walk down from the grandparent stays among its descendants. */
  lemma GrandparentAtMost(g: Graph, finals: seq<string>)
    requires DownstreamPipeline(g)
    ensures ReachableSet(g, Down, finals, 0) <= {1, 2, 3, 4, 5}
  {
    var s := {1, 2, 3, 4, 5};
    forall x, y | x in s && x in g.jobs && y in g.Neighbors(Down, x) ensures y in s {
      assert x == 1 || x == 2 || x == 3 || x == 4 || x == 5;
    }
    ReachableIsLeast(g, Down, finals, 0, s);
  }

  /** No final projects: all five descendants of the grandparent are collected. */
  lemma GrandparentCollectsAll(g: Graph)
    requires DownstreamPipeline(g)
    ensures ReachableSet(g, Down, [], 0) == {1, 2, 3, 4, 5}
  {
    ReachableIsClosed(g, Down, [], 0);
    assert 1 in g.Neighbors(Down, 0) && 3 in g.Neighbors(Down, 0);
    assert 2 in g.Neighbors(Down, 1) && 4 in g.Neighbors(Down, 3) && 5 in g.Neighbors(Down, 3);
    GrandparentAtMost(g, []);
  }

  /** With brian and chad final, the walk collects them and goes no further. */
  lemma GrandparentStopsAtParents(g: Graph)
    requires DownstreamPipeline(g)
    ensures ReachableSet(g, Down, ["downstream-parent-brian", "downstream-parent-chad"], 0) == {1, 3}
  {
    var finals := ["downstream-parent-brian", "downstream-parent-chad"];
    var s := {1, 3};
    ReachableIsLeast(g, Down, finals, 0, s);
    ReachableIsClosed(g, Down, finals, 0);
    assert 1 in g.Neighbors(Down, 0) && 3 in g.Neighbors(Down, 0);
  }

  /** A project that triggers nothing collects nothing downstream. */
  lemma ChildCollectsNothing(g: Graph)
    requires DownstreamPipeline(g)
    ensures ReachableSet(g, Down, [], 2) == {}
  {
    NoNeighborsCollectsNothing(g, Down, [], 2);
  }

  /** The upstream pipeline of the tests: 4 is triggered by 2 and 3, and 2 by 0 and 1. */
  ghost predicate UpstreamPipeline(g: Graph) {
    g.Valid() && g.jobs == {0, 1, 2, 3, 4}
    && g.upstream[4] == [2, 3] && g.upstream[2] == [0, 1] && g.upstream[3] == []
    && g.upstream[0] == [] && g.upstream[1] == []
    && g.fullName[2] == "upstream-parent-katie" && g.fullName[3] == "upstream-parent-chad"
  }

  /** Whatever the final projects, the walk up from neil stays among its ancestors. */
  lemma ChildAtMost(g: Graph, finals: seq<string>)
    requires UpstreamPipeline(g)
    ensures ReachableSet(g, Up, finals, 4) <= {0, 1, 2, 3}
  {
    var s := {0, 1, 2, 3};
    forall x, y | x in s && x in g.jobs && y in g.Neighbors(Up, x) ensures y in s {
      assert x == 0 || x == 1 || x == 2 || x == 3;
    }
    ReachableIsLeast(g, Up, finals, 4, s);
  }

  /** No final projects: all four ancestors of neil are collected. */
  lemma ChildCollectsAllUpstream(g: Graph)
    requires UpstreamPipeline(g)
    ensures ReachableSet(g, Up, [], 4) == {0, 1, 2, 3}
  {
    ReachableIsClosed(g, Up, [], 4);
    assert 2 in g.Neighbors(Up, 4) && 3 in g.Neighbors(Up, 4);
    assert 0 in g.Neighbors(Up, 2) && 1 in g.Neighbors(Up, 2);
    ChildAtMost(g, []);
  }

  /** With katie and chad final, the walk up collects the two parents only. */
  lemma ChildStopsAtParents(g: Graph)
    requires UpstreamPipeline(g)
    ensures ReachableSet(g, Up, ["upstream-parent-katie", "upstream-parent-chad"], 4) == {2, 3}
  {
    var finals := ["upstream-parent-katie", "upstream-parent-chad"];
    ReachableIsLeast(g, Up, finals, 4, {2, 3});
    ReachableIsClosed(g, Up, finals, 4);
    assert 2 in g.Neighbors(Up, 4) && 3 in g.Neighbors(Up, 4);
  }

  // ---------------------------------------------------------------------
  // The dispatcher on project-a -> project-b
  // ---------------------------------------------------------------------

  /** project-a (0) triggers project-b (1); a blocks on its downstream, b on its upstream. */
  ghost predicate ProjectsAandB(g: Graph, properties: map<JobId, Config>) {
    g.Valid() && g.jobs == {0, 1}
    && g.downstream[0] == [1] && g.downstream[1] == [] && g.upstream[0] == [] && g.upstream[1] == [0]
    && g.fullName[0] == "project-a" && g.fullName[1] == "project-b"
    && properties == map[0 := Config(false, Some([]), true, Some(["project-b"])),
                         1 := Config(true, Some(["project-a"]), false, Some([]))]
  }

  /** While b builds, only b holds a back, downstream; while a builds, a holds b back, upstream. */
  lemma AandBCulprits(g: Graph, properties: map<JobId, Config>)
    requires ProjectsAandB(g, properties)
    ensures Culprits(g, Up, properties, 0, {1}, {}) == {}
    ensures Culprits(g, Down, properties, 0, {1}, {}) == {1}
    ensures Culprits(g, Up, properties, 1, {0}, {}) == {0}
  {
    assert PropertyOf(properties, Some(0)) == Some(properties[0]);
    assert PropertyOf(properties, Some(1)) == Some(properties[1]);
    assert FinalsAsList(properties[0], Down) == ["project-b"];
    assert FinalsAsList(properties[1], Up) == ["project-a"];
    ReachableIsClosed(g, Down, ["project-b"], 0);
    assert 1 in g.Neighbors(Down, 0);
    ReachableIsLeast(g, Down, ["project-b"], 0, {1});
    ReachableIsClosed(g, Up, ["project-a"], 1);
    assert 0 in g.Neighbors(Up, 1);
    ReachableIsLeast(g, Up, ["project-a"], 1, {0});
  }

  /** project-a is queued while project-b builds: it waits on its downstream project. */
  method ProjectAWaitsForB(g: Graph, properties: map<JobId, Config>) returns (r: Blockage)
    requires ProjectsAandB(g, properties)
    ensures r == Blocked(Down, 1)
  {
    AandBCulprits(g, properties);
    r := CanRun(g, properties, ProjectTask(0), {1}, {});
  }

  /** project-b is queued while project-a builds: it waits on its upstream project. */
  method ProjectBWaitsForA(g: Graph, properties: map<JobId, Config>) returns (r: Blockage)
    requires ProjectsAandB(g, properties)
    ensures r == Blocked(Up, 0)
  {
    AandBCulprits(g, properties);
    r := CanRun(g, properties, ProjectTask(1), {0}, {});
  }

  // ---------------------------------------------------------------------
  // Editing and checking lists of names
  // ---------------------------------------------------------------------

  /** Five distinct project names, as the unit tests' A, B, C, D and E. */
  predicate Distinct5(a: string, b: string, c: string, d: string, e: string) {
    a != b && a != c && a != d && a != e && b != c && b != d && b != e && c != d && c != e && d != e
  }

  /** Deleting C from "A, B, C" and "C, D, E" leaves A, B and D, E, in order. */
  lemma DeleteExample(a: string, b: string, c: string, d: string, e: string)
    requires Distinct5(a, b, c, d, e)
    ensures var p := Config(true, Some([a, b, c]), false, Some([c, d, e])).OnDeleted(c);
      p == Config(true, Some([a, b]), false, Some([d, e]))
  {
    var up := [a, b, c];
    assert up[2] == c && c !in up[..2];
    assert DeleteProjectFromList(c, up) == [a, b];
    var down := [c, d, e];
    assert down[0] == c && down[..0] == [];
    assert DeleteProjectFromList(c, down) == [d, e];
  }

  /** Deleting a name no list holds changes nothing. */
  lemma DeleteAbsentExample(c: string, d: string, e: string, f: string)
    requires f != c && f != d && f != e
    ensures Config(true, Some([]), false, Some([c, d, e])).OnDeleted(f)
         == Config(true, Some([]), false, Some([c, d, e]))
  {
  }

  /** Renaming C to F in "A, B, C" and "C, D, E" gives A, B, F and F, D, E. */
  lemma RenameExample(a: string, b: string, c: string, d: string, e: string, f: string)
    requires Distinct5(a, b, c, d, e)
    ensures var p := Config(true, Some([a, b, c]), false, Some([c, d, e])).OnRenamed(c, f);
      p == Config(true, Some([a, b, f]), false, Some([f, d, e]))
  {
    var up := Renamed([a, b, c], c, f);
    assert up[0] == a && up[1] == b && up[2] == f;
    assert up == [a, b, f];
    var down := Renamed([c, d, e], c, f);
    assert down[0] == f && down[1] == d && down[2] == e;
    assert down == [f, d, e];
  }

  /** The listener's deletion: a project listing "other-project, deleted-project" keeps only "other-project". */
  lemma ListenerDeleteExample(properties: map<JobId, Config>, projects: seq<JobId>, deleted: JobId, user: JobId,
                              other: string, name: string)
    requires user in properties && user in projects && user != deleted && other != name
    requires properties[user] == Config(true, Some([other, name]), false, Some([]))
    ensures AfterDelete(properties, projects, deleted, name, {})[user] == Config(true, Some([other]), false, Some([]))
  {
    var up := [other, name];
    assert up[1] == name && name !in up[..1];
    assert DeleteProjectFromList(name, up) == [other];
  }

  /** The listener's rename: the renamed project's own list and another project's list both follow. */
  lemma ListenerRenameExample(properties: map<JobId, Config>, projects: seq<JobId>, renamed: JobId, user: JobId,
                              other: string, oldName: string, another: string, newName: string)
    requires renamed in properties && renamed in projects && user in properties && user in projects
    requires other != oldName && another != oldName
    requires properties[renamed] == Config(true, Some([oldName]), false, Some([]))
    requires properties[user] == Config(true, Some([other, oldName, another]), false, Some([]))
    ensures var after := AfterRename(properties, projects, oldName, newName, {});
      after[renamed] == Config(true, Some([newName]), false, Some([]))
      && after[user] == Config(true, Some([other, newName, another]), false, Some([]))
  {
    var own := Renamed([oldName], oldName, newName);
    assert own[0] == newName && own == [newName];
    var up := Renamed([other, oldName, another], oldName, newName);
    assert up[0] == other && up[1] == newName && up[2] == another;
    assert up == [other, newName, another];
    assert Renamed([], oldName, newName) == [];
  }

  /** The padding of "  project1,   project 2   ,": blanks before, after and between the names. */
  lemma FormExamplePadding()
    ensures var typed := JoinWith(PaddedNames(["project1", "project 2"], ["  ", "   "], ["", "   "]), ',') + [','];
      typed == "  project1,   project 2   ,"
  {
    var padded := PaddedNames(["project1", "project 2"], ["  ", "   "], ["", "   "]);
    assert padded[0] == "  project1";
    assert padded[1] == "   project 2   ";
    assert padded == ["  project1", "   project 2   "];
    assert JoinWith(padded, ',') == "  project1" + [','] + "   project 2   ";
  }

  /** The upstream field of the form-constructor test parses to project1 and "project 2". */
  lemma FormExampleParses()
    ensures ParseNames(Some("  project1,   project 2   ,")) == ["project1", "project 2"]
  {
    var ns := ["project1", "project 2"];
    assert IsCleanName(ns[0]) && IsCleanName(ns[1]);
    assert AllIn("   ", IsRegexSpace);
    FormExamplePadding();
    ParsePadded(ns, ["  ", "   "], ["", "   "], true);
  }

  /** A single clean name typed alone parses to itself. */
  lemma SingleNameParses(s: string)
    requires IsCleanName(s)
    ensures ParseNames(Some(s)) == [s]
  {
    var padded := PaddedNames([s], [""], [""]);
    assert padded[0] == "" + s + "" == s;
    assert padded == [s];
    ParsePadded([s], [""], [""], false);
  }

  /** "projectA" is a clean name. */
  lemma ProjectAIsClean()
    ensures IsCleanName("projectA")
  {
    var n := "projectA";
    assert n[0] == 'p' && n[|n| - 1] == 'A';
    assert !IsTrimChar(n[0]) && !IsTrimChar(n[|n| - 1]);
    assert forall i :: 0 <= i < |n| ==> n[i] != ',';
  }

  /** Two names joined with a comma, as the form shows them. */
  lemma JoinTwo(a: string, b: string)
    ensures JoinWith([a, b], ',') == a + "," + b
  {
  }

  /**
   * The form constructor reads "  project1,   project 2   ," as the two names
   * project1 and "project 2", and shows them back as "project1,project 2".
   */
  method DataBoundConstructorExample() returns (c: Config)
    ensures c.blockUpstream && c.blockDownstream
    ensures c.FinalUpstreamAsList() == ["project1", "project 2"]
    ensures c.FinalDownstreamAsList() == ["projectA"]
    ensures c.FinalUpstreamText() == Some("project1" + "," + "project 2")
    ensures c.FinalDownstreamText() == Some("projectA")
  {
    FormExampleParses();
    ProjectAIsClean();
    SingleNameParses("projectA");
    c := NewFromStrings(true, Some("  project1,   project 2   ,"), true, Some("projectA"));
    JoinTwo("project1", "project 2");
  }

  /** A comma-delimited list of clean names that all resolve to projects is accepted. */
  lemma ResolvesToProjectsOk(names: seq<string>, resolve: string -> ItemKind)
    requires forall i :: 0 <= i < |names| ==> IsCleanName(names[i]) && resolve(names[i]) == Project
    ensures CheckTokens(NameTokens(Some(JoinWith(names, ','))), Some(JoinWith(names, ',')), resolve) == Ok
  {
    var s := JoinWith(names, ',');
    TrimOfJoin(names);
    if names == [] {
      assert NameTokens(Some(s)) == [[]];
    } else {
      SplitAtCommasOfJoin(names);
    }
    CheckTokensOk(NameTokens(Some(s)), Some(s), resolve);
  }

  /**
   * The same list typed with spaces around the names and a trailing comma, as in
   * "  search-one  , search-two, search-three,", is accepted as well.
   */
  lemma PaddedResolvesToProjectsOk(names: seq<string>, before: seq<string>, after: seq<string>,
                                   trailingComma: bool, resolve: string -> ItemKind)
    requires |names| >= 1 && forall i :: 0 <= i < |names| ==> IsCleanName(names[i]) && resolve(names[i]) == Project
    requires |before| == |names| && StrippablePadding(before, after)
    ensures var typed := JoinWith(PaddedNames(names, before, after), ',') + (if trailingComma then [','] else []);
      CheckTokens(NameTokens(Some(typed)), Some(typed), resolve) == Ok
  {
    var typed := JoinWith(PaddedNames(names, before, after), ',') + (if trailingComma then [','] else []);
    TokensOfPadded(names, before, after, trailingComma);
    CheckTokensOk(NameTokens(Some(typed)), Some(typed), resolve);
  }

  /** A clean name typed alone is read back as exactly that one name. */
  lemma SingleCleanName(s: string)
    requires IsCleanName(s)
    ensures NameTokens(Some(s)) == [s]
  {
    assert JoinWith([s], ',') == s;
    TrimOfJoin([s]);
    SplitAtCommasOfJoin([s]);
  }

  /** A single name that resolves to nothing is rejected, echoing what was typed. */
  method InvalidProjectExample(s: string, resolve: string -> ItemKind) returns (r: Validation)
    requires IsCleanName(s) && resolve(s) == NoSuchItem
    ensures r == Error("Invalid project: " + s + " | " + s)
  {
    SingleCleanName(s);
    r := CheckProjects(Some(s), resolve);
  }

  /** A single name that resolves to an item that cannot be built is rejected as such. */
  method NotBuildableExample(s: string, resolve: string -> ItemKind) returns (r: Validation)
    requires IsCleanName(s) && resolve(s) == NotAProject
    ensures r == Error("Project is not buildable: " + s)
  {
    SingleCleanName(s);
    r := CheckProjects(Some(s), resolve);
  }
}
