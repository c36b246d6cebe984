/**
 * BlockBuild: the walk over the dependency graph that collects the upstream
 * or downstream projects of a project, stopping at "final" projects, and the
 * two checks that block a project while one of those projects is building
 * or waiting unblocked in the queue.
 */
module BlockBuild {
  import opened Wrappers
  import opened JobProperty

  /** `SearchDirection`: which edges of the dependency graph the walk follows. */
  datatype Direction = Up | Down

  /**
   * The dependency graph as the projects expose it: each project's upstream
   * and downstream projects, in the order `getUpstreamProjects` and
   * `getDownstreamProjects` list them, and each project's full name.
   */
  datatype Graph = Graph(
    jobs: set<JobId>,
    upstream: map<JobId, seq<JobId>>,
    downstream: map<JobId, seq<JobId>>,
    fullName: map<JobId, string>)
  {
    /** Every project has both lists and a name, and the lists only name projects. */
    ghost predicate Valid() {
      upstream.Keys == jobs && downstream.Keys == jobs && fullName.Keys == jobs
      && (forall j, k :: j in upstream && k in upstream[j] ==> k in jobs)
      && (forall j, k :: j in downstream && k in downstream[j] ==> k in jobs)
    }

    function Neighbors(dir: Direction, j: JobId): (r: seq<JobId>)
      requires Valid() && j in jobs
      ensures forall k :: k in r ==> k in jobs
    {
      if dir == Up then upstream[j] else downstream[j]
    }

    /** The graph that Jenkins builds: A lists B downstream exactly when B lists A upstream. */
    ghost predicate Symmetric()
      requires Valid()
    {
      forall a, b :: a in jobs && b in jobs ==> (b in downstream[a] <==> a in upstream[b])
    }
  }

  /** `checkFinalProjectsForNull`: a missing list of final projects is the empty list. */
  function CheckFinalProjectsForNull(finalProjects: Option<seq<string>>): (r: seq<string>)
    ensures finalProjects.None? ==> r == []
    ensures finalProjects.Some? ==> r == finalProjects.value
  {
    if finalProjects.Some? then finalProjects.value else []
  }

  /**
   * `p` is a walk of at least one edge along `dir` whose inner projects are
   * not final: the walk may end at a final project but never goes through one.
   */
  ghost predicate IsStopPath(g: Graph, dir: Direction, finals: seq<string>, p: seq<JobId>)
    requires g.Valid()
  {
    |p| >= 2
    && (forall i :: 0 <= i < |p| ==> p[i] in g.jobs)
    && (forall i, j :: 0 <= i && j == i + 1 && j < |p| ==> p[i] in g.jobs && p[j] in g.Neighbors(dir, p[i]))
    && (forall i :: 0 < i < |p| - 1 ==> g.fullName[p[i]] !in finals)
  }

  ghost predicate Reaches(g: Graph, dir: Direction, finals: seq<string>, start: JobId, j: JobId)
    requires g.Valid()
  {
    exists p :: IsStopPath(g, dir, finals, p) && p[0] == start && p[|p| - 1] == j
  }

  /** The projects the walk from `start` collects: those reached without passing a final project. */
  ghost function ReachableSet(g: Graph, dir: Direction, finals: seq<string>, start: JobId): set<JobId>
    requires g.Valid()
  {
    set j | j in g.jobs && Reaches(g, dir, finals, start, j)
  }

  lemma DirectReaches(g: Graph, dir: Direction, finals: seq<string>, start: JobId, j: JobId)
    requires g.Valid() && start in g.jobs && j in g.Neighbors(dir, start)
    ensures Reaches(g, dir, finals, start, j)
  {
    var p := [start, j];
    assert IsStopPath(g, dir, finals, p);
  }

  lemma StepReaches(g: Graph, dir: Direction, finals: seq<string>, start: JobId, x: JobId, y: JobId)
    requires g.Valid() && x in g.jobs && Reaches(g, dir, finals, start, x)
    requires g.fullName[x] !in finals && y in g.Neighbors(dir, x)
    ensures Reaches(g, dir, finals, start, y)
  {
    var p :| IsStopPath(g, dir, finals, p) && p[0] == start && p[|p| - 1] == x;
    var q := p + [y];
    assert IsStopPath(g, dir, finals, q);
  }

  /** The projects a step of the walk adds are reached from `start`. */
  lemma NeighborsReach(g: Graph, dir: Direction, finals: seq<string>, start: JobId, current: JobId,
                       visited0: set<JobId>, visited: set<JobId>)
    requires g.Valid() && current in g.jobs
    requires current == start || (Reaches(g, dir, finals, start, current) && g.fullName[current] !in finals)
    requires forall y :: y in visited && y !in visited0 ==> y in g.Neighbors(dir, current)
    ensures forall y :: y in visited && y !in visited0 ==> Reaches(g, dir, finals, start, y)
  {
    forall y | y in visited && y !in visited0 ensures Reaches(g, dir, finals, start, y) {
      if current == start {
        DirectReaches(g, dir, finals, start, y);
      } else {
        StepReaches(g, dir, finals, start, current, y);
      }
    }
  }

  /**
   * Every walk from `start` stays inside `visited` when `done` holds `start`
   * and every visited non-final project, and `done`'s neighbours are visited.
   */
  lemma {:induction false} PathInside(g: Graph, dir: Direction, finals: seq<string>, start: JobId,
                                      visited: set<JobId>, done: set<JobId>, p: seq<JobId>, n: nat)
    requires g.Valid() && start in done
    requires forall x, y :: x in done && x in g.jobs && y in g.Neighbors(dir, x) ==> y in visited
    requires forall x :: x in visited && x in g.jobs && g.fullName[x] !in finals ==> x in done
    requires IsStopPath(g, dir, finals, p) && p[0] == start
    requires 1 <= n < |p|
    ensures p[n] in visited
  {
    if n > 1 {
      PathInside(g, dir, finals, start, visited, done, p, n - 1);
    }
    var i, j := n - 1, n;
    assert p[j] in g.Neighbors(dir, p[i]);
  }

  lemma ClosedContainsReach(g: Graph, dir: Direction, finals: seq<string>, start: JobId,
                            visited: set<JobId>, done: set<JobId>)
    requires g.Valid() && start in done
    requires forall x, y :: x in done && x in g.jobs && y in g.Neighbors(dir, x) ==> y in visited
    requires forall x :: x in visited && x in g.jobs && g.fullName[x] !in finals ==> x in done
    ensures ReachableSet(g, dir, finals, start) <= visited
  {
    forall j | j in ReachableSet(g, dir, finals, start) ensures j in visited {
      var p :| IsStopPath(g, dir, finals, p) && p[0] == start && p[|p| - 1] == j;
      PathInside(g, dir, finals, start, visited, done, p, |p| - 1);
    }
  }

  /**
   * The effect of visiting `dependencyProjects`: all of them are visited,
   * only they are newly visited, and the stack has gained exactly the newly
   * visited non-final ones.
   */
  ghost predicate DependenciesVisited(jobs: set<JobId>, fullName: map<JobId, string>, finals: seq<string>,
                                      dependencyProjects: seq<JobId>, visited0: set<JobId>, queue0: seq<JobId>,
                                      visited: set<JobId>, queue: seq<JobId>)
    requires jobs <= fullName.Keys
  {
    visited0 <= visited <= jobs
    && (forall y :: y in dependencyProjects ==> y in visited)
    && (forall y :: y in visited && y !in visited0 ==> y in dependencyProjects)
    && (forall x :: x in queue ==> x in queue0 || (x in visited && x !in visited0 && fullName[x] !in finals))
    && (forall x :: x in visited && x !in visited0 && fullName[x] !in finals ==> x in queue)
    && (forall x :: x in queue0 ==> x in queue)
  }

  /**
   * The inner loop of `getTransitiveUpOrDownstreamProjectsFinal`: every
   * dependency not seen before is added to `visited` and, unless it is final,
   * pushed on the stack.
   */
  method VisitDependencies(jobs: set<JobId>, fullName: map<JobId, string>, finals: seq<string>,
                           dependencyProjects: seq<JobId>, visited0: set<JobId>, queue0: seq<JobId>)
    returns (visited: set<JobId>, queue: seq<JobId>)
    requires visited0 <= jobs && jobs <= fullName.Keys
    requires forall y :: y in dependencyProjects ==> y in jobs
    ensures DependenciesVisited(jobs, fullName, finals, dependencyProjects, visited0, queue0, visited, queue)
    ensures |jobs - visited| + |queue| <= |jobs - visited0| + |queue0|
  {
    visited, queue := visited0, queue0;
    var i := 0;
    while i < |dependencyProjects|
      invariant 0 <= i <= |dependencyProjects|
      invariant visited0 <= visited <= jobs
      invariant forall k :: 0 <= k < i ==> dependencyProjects[k] in visited
      invariant forall y :: y in visited && y !in visited0 ==> y in dependencyProjects[..i]
      invariant forall x :: x in queue ==> x in queue0 || (x in visited && x !in visited0 && fullName[x] !in finals)
      invariant forall x :: x in visited && x !in visited0 && fullName[x] !in finals ==> x in queue
      invariant forall x :: x in queue0 ==> x in queue
      invariant |jobs - visited| + |queue| <= |jobs - visited0| + |queue0|
    {
      var childProject := dependencyProjects[i];
      assert dependencyProjects[..i + 1] == dependencyProjects[..i] + [childProject];
      if childProject !in visited {
        assert jobs - visited == (jobs - (visited + {childProject})) + {childProject};
        visited := visited + {childProject};
        if fullName[childProject] !in finals {
          queue := queue + [childProject];
        }
      }
      i := i + 1;
    }
    assert dependencyProjects[..i] == dependencyProjects;
  }

  /**
   * What the walk from `project` keeps true: `visited` holds only reached
   * projects; the stack holds `project` or visited non-final projects;
   * `done` (the expanded projects) has all its neighbours visited; and
   * `project` and every visited non-final project are expanded or stacked.
   */
  ghost predicate WalkInvariant(g: Graph, dir: Direction, finals: seq<string>, project: JobId,
                                visited: set<JobId>, queue: seq<JobId>, done: set<JobId>)
    requires g.Valid()
  {
    visited <= g.jobs && done <= g.jobs
    && (forall x :: x in queue ==> x in g.jobs && (x == project || (x in visited && g.fullName[x] !in finals)))
    && (forall x :: x in visited ==> Reaches(g, dir, finals, project, x))
    && (forall x, y :: x in done && x in g.jobs && y in g.Neighbors(dir, x) ==> y in visited)
    && (project in done || project in queue)
    && (forall x :: x in visited && x in g.jobs && g.fullName[x] !in finals ==> x in done || x in queue)
  }

  /** Popping `current` and visiting its dependencies keeps the walk's invariant. */
  lemma WalkStep(g: Graph, dir: Direction, finals: seq<string>, project: JobId,
                 visited0: set<JobId>, queue0: seq<JobId>, current: JobId, rest: seq<JobId>, done: set<JobId>,
                 visited: set<JobId>, queue: seq<JobId>)
    requires g.Valid() && project in g.jobs && queue0 != []
    requires WalkInvariant(g, dir, finals, project, visited0, queue0, done)
    requires current == queue0[|queue0| - 1] && rest == queue0[..|queue0| - 1]
    requires current in g.jobs
    requires DependenciesVisited(g.jobs, g.fullName, finals, g.Neighbors(dir, current), visited0, rest, visited, queue)
    ensures WalkInvariant(g, dir, finals, project, visited, queue, done + {current})
  {
    assert queue0 == rest + [current];
    NeighborsReach(g, dir, finals, project, current, visited0, visited);
  }

  /** With the stack empty, the walk has collected exactly the reachable set. */
  lemma WalkComplete(g: Graph, dir: Direction, finals: seq<string>, project: JobId,
                     visited: set<JobId>, done: set<JobId>)
    requires g.Valid() && WalkInvariant(g, dir, finals, project, visited, [], done)
    ensures visited == ReachableSet(g, dir, finals, project)
  {
    ClosedContainsReach(g, dir, finals, project, visited, done);
  }

  /**
   * `getTransitiveUpOrDownstreamProjectsFinal`: a depth-first walk with a
   * stack from `project`; each newly seen project is collected and, unless
   * its full name is among the final projects, pushed to be expanded. The
   * project itself is collected only when a cycle leads back to it.
   */
  method TransitiveProjectsFinal(g: Graph, project: JobId, finalProjects: Option<seq<string>>,
                                 direction: Direction) returns (visited: set<JobId>)
    requires g.Valid() && project in g.jobs
    ensures visited == ReachableSet(g, direction, CheckFinalProjectsForNull(finalProjects), project)
  {
    var finals := CheckFinalProjectsForNull(finalProjects);
    visited := {};
    var queue := [project];
    ghost var done: set<JobId> := {};
    while queue != []
      invariant WalkInvariant(g, direction, finals, project, visited, queue, done)
      decreases |g.jobs - visited| + |queue|
    {
      var current := queue[|queue| - 1];
      var rest := queue[..|queue| - 1];
      ghost var queue0 := queue;
      var dependencyProjects := if direction == Up then g.upstream[current] else g.downstream[current];
      ghost var visited0 := visited;
      visited, queue := VisitDependencies(g.jobs, g.fullName, finals, dependencyProjects, visited, rest);
      WalkStep(g, direction, finals, project, visited0, queue0, current, rest, done, visited, queue);
      done := done + {current};
    }
    WalkComplete(g, direction, finals, project, visited, done);
  }

  /** `getTransitiveUpstreamProjectsFinal`. */
  method TransitiveUpstreamProjectsFinal(g: Graph, project: JobId, finalProjects: Option<seq<string>>)
    returns (visited: set<JobId>)
    requires g.Valid() && project in g.jobs
    ensures visited == ReachableSet(g, Up, CheckFinalProjectsForNull(finalProjects), project)
  {
    visited := TransitiveProjectsFinal(g, project, finalProjects, Up);
  }

  /** `getTransitiveDownstreamProjectsFinal`. */
  method TransitiveDownstreamProjectsFinal(g: Graph, project: JobId, finalProjects: Option<seq<string>>)
    returns (visited: set<JobId>)
    requires g.Valid() && project in g.jobs
    ensures visited == ReachableSet(g, Down, CheckFinalProjectsForNull(finalProjects), project)
  {
    visited := TransitiveProjectsFinal(g, project, finalProjects, Down);
  }

  // ---------------------------------------------------------------------
  // The reachable set: an independent characterisation and its properties
  // ---------------------------------------------------------------------

  /** `start`'s neighbours are reached, and so are the neighbours of every reached non-final project. */
  lemma ReachableIsClosed(g: Graph, dir: Direction, finals: seq<string>, start: JobId)
    requires g.Valid() && start in g.jobs
    ensures forall y :: y in g.Neighbors(dir, start) ==> y in ReachableSet(g, dir, finals, start)
    ensures forall x, y ::
      x in ReachableSet(g, dir, finals, start) && g.fullName[x] !in finals && y in g.Neighbors(dir, x)
      ==> y in ReachableSet(g, dir, finals, start)
  {
    forall y | y in g.Neighbors(dir, start) ensures y in ReachableSet(g, dir, finals, start) {
      DirectReaches(g, dir, finals, start, y);
    }
    forall x, y | x in ReachableSet(g, dir, finals, start) && g.fullName[x] !in finals && y in g.Neighbors(dir, x)
      ensures y in ReachableSet(g, dir, finals, start)
    {
      StepReaches(g, dir, finals, start, x, y);
    }
  }

  /** ... and it is the least such set: any set closed in the same way contains it. */
  lemma ReachableIsLeast(g: Graph, dir: Direction, finals: seq<string>, start: JobId, s: set<JobId>)
    requires g.Valid() && start in g.jobs
    requires forall y :: y in g.Neighbors(dir, start) ==> y in s
    requires forall x, y :: x in s && x in g.jobs && g.fullName[x] !in finals && y in g.Neighbors(dir, x) ==> y in s
    ensures ReachableSet(g, dir, finals, start) <= s
  {
    var done := {start} + set x | x in s && x in g.jobs && g.fullName[x] !in finals;
    ClosedContainsReach(g, dir, finals, start, s, done);
  }

  /** Stopping at more final projects collects fewer projects. */
  lemma MoreFinalsCollectLess(g: Graph, dir: Direction, finals: seq<string>, moreFinals: seq<string>, start: JobId)
    requires g.Valid()
    requires forall n :: n in finals ==> n in moreFinals
    ensures ReachableSet(g, dir, moreFinals, start) <= ReachableSet(g, dir, finals, start)
  {
    forall j | j in ReachableSet(g, dir, moreFinals, start) ensures j in ReachableSet(g, dir, finals, start) {
      var p :| IsStopPath(g, dir, moreFinals, p) && p[0] == start && p[|p| - 1] == j;
      assert IsStopPath(g, dir, finals, p);
    }
  }

  /** A project without neighbours in the walked direction collects nothing. */
  lemma NoNeighborsCollectsNothing(g: Graph, dir: Direction, finals: seq<string>, start: JobId)
    requires g.Valid() && start in g.jobs && g.Neighbors(dir, start) == []
    ensures ReachableSet(g, dir, finals, start) == {}
  {
    ReachableIsLeast(g, dir, finals, start, {});
  }

  function Reverse(p: seq<JobId>): (r: seq<JobId>)
    ensures |r| == |p| && forall i :: 0 <= i < |p| ==> r[i] == p[|p| - 1 - i]
  {
    if p == [] then [] else Reverse(p[1..]) + [p[0]]
  }

  function Opposite(dir: Direction): Direction {
    if dir == Up then Down else Up
  }

  lemma ReversedPath(g: Graph, dir: Direction, finals: seq<string>, p: seq<JobId>)
    requires g.Valid() && g.Symmetric() && IsStopPath(g, dir, finals, p)
    ensures IsStopPath(g, Opposite(dir), finals, Reverse(p))
  {
    var r := Reverse(p);
    forall i, j | 0 <= i && j == i + 1 && j < |r| ensures r[i] in g.jobs && r[j] in g.Neighbors(Opposite(dir), r[i]) {
      var a, b := |p| - 1 - j, |p| - 1 - i;
      assert p[b] in g.Neighbors(dir, p[a]);
    }
  }

  /**
   * In Jenkins' graph the walks are mirror images: `y` is among the upstream
   * projects `x` collects exactly when `x` is among the downstream projects
   * `y` collects, for the same final projects.
   */
  lemma UpstreamDownstreamDual(g: Graph, finals: seq<string>, x: JobId, y: JobId)
    requires g.Valid() && g.Symmetric()
    ensures y in ReachableSet(g, Up, finals, x) <==> x in ReachableSet(g, Down, finals, y)
  {
    if y in ReachableSet(g, Up, finals, x) {
      var p :| IsStopPath(g, Up, finals, p) && p[0] == x && p[|p| - 1] == y;
      ReversedPath(g, Up, finals, p);
      assert Reverse(p)[0] == y && Reverse(p)[|p| - 1] == x;
    }
    if x in ReachableSet(g, Down, finals, y) {
      var p :| IsStopPath(g, Down, finals, p) && p[0] == y && p[|p| - 1] == x;
      ReversedPath(g, Down, finals, p);
      assert Reverse(p)[0] == x && Reverse(p)[|p| - 1] == y;
    }
  }

  // ---------------------------------------------------------------------
  // checkBuildingUpstream and checkBuildingDownstream
  // ---------------------------------------------------------------------

  /** `null` (the project may run) or the project found building in the given direction. */
  datatype Blockage = NotBlocked | Blocked(direction: Direction, culprit: JobId)

  /** `isUseBlockBuildUpstreamProject` or `isUseBlockBuildDownstreamProject`. */
  function Enabled(c: Config, dir: Direction): (r: bool)
    ensures dir == Up ==> r == c.blockUpstream
    ensures dir == Down ==> r == c.blockDownstream
  {
    if dir == Up then c.blockUpstream else c.blockDownstream
  }

  /** `getFinalUpstreamProjectsAsList` or `getFinalDownstreamProjectsAsList`. */
  function FinalsAsList(c: Config, dir: Direction): (r: seq<string>)
    ensures dir == Up ==> r == c.FinalUpstreamAsList()
    ensures dir == Down ==> r == c.FinalDownstreamAsList()
  {
    if dir == Up then c.FinalUpstreamAsList() else c.FinalDownstreamAsList()
  }

  /** Another project that is building or is an unblocked task of the queue. */
  predicate IsCulprit(project: JobId, j: JobId, building: set<JobId>, unblocked: set<JobId>) {
    j != project && (j in building || j in unblocked)
  }

  /** The projects that make `project` wait in direction `dir`. */
  ghost function Culprits(g: Graph, dir: Direction, properties: map<JobId, Config>, project: JobId,
                          building: set<JobId>, unblocked: set<JobId>): set<JobId>
    requires g.Valid()
  {
    var property := PropertyOf(properties, Some(project));
    if property.None? || !Enabled(property.value, dir) then {}
    else set j | j in ReachableSet(g, dir, FinalsAsList(property.value, dir), project)
                 && IsCulprit(project, j, building, unblocked)
  }

  /**
   * `checkBuildingUpstream` (`dir == Up`) and `checkBuildingDownstream`
   * (`dir == Down`): with the option switched on, the collected projects are
   * searched, in no particular order, for one that is building or unblocked.
   * `building` holds the projects whose `isBuilding()` holds and `unblocked`
   * the queue's unblocked tasks.
   */
  method CheckBuilding(g: Graph, dir: Direction, properties: map<JobId, Config>, project: JobId,
                       building: set<JobId>, unblocked: set<JobId>) returns (r: Blockage)
    requires g.Valid() && project in g.jobs
    ensures r.NotBlocked? <==> Culprits(g, dir, properties, project, building, unblocked) == {}
    ensures r.Blocked? ==> r.direction == dir && r.culprit in Culprits(g, dir, properties, project, building, unblocked)
  {
    var property := PropertyOf(properties, Some(project));
    if property.None? || !Enabled(property.value, dir) {
      return NotBlocked;
    }
    var finalProjects := FinalsAsList(property.value, dir);
    var projects := TransitiveProjectsFinal(g, project, Some(finalProjects), dir);
    ghost var culprits := Culprits(g, dir, properties, project, building, unblocked);
    assert culprits == set j | j in projects && IsCulprit(project, j, building, unblocked);
    var rest := projects;
    while rest != {}
      invariant rest <= projects
      invariant forall j :: j in projects && j !in rest ==> !IsCulprit(project, j, building, unblocked)
      decreases |rest|
    {
      var j :| j in rest;
      if IsCulprit(project, j, building, unblocked) {
        assert j in culprits;
        return Blocked(dir, j);
      }
      rest := rest - {j};
    }
    return NotBlocked;
  }
}
