/**
 * BlockBuildQueueTaskDispatcher: the queue asks whether an item may start;
 * a project is held back first by its upstream check, then by its
 * downstream check, and otherwise may run.
 */
module Dispatcher {
  import opened Wrappers
  import opened JobProperty
  import opened BlockBuild

  /** What a queue item runs: a project, or some other kind of work. */
  datatype QueueItem = ProjectTask(project: JobId) | OtherTask

  /**
   * `canRun`. Tasks that are not projects, and projects that neither check
   * blocks, get the answer of the base dispatcher, which lets every item run.
   */
  method CanRun(g: Graph, properties: map<JobId, Config>, item: QueueItem,
                building: set<JobId>, unblocked: set<JobId>) returns (r: Blockage)
    requires g.Valid()
    requires item.ProjectTask? ==> item.project in g.jobs
    ensures item.OtherTask? ==> r == NotBlocked
    ensures item.ProjectTask? ==>
      var up := Culprits(g, Up, properties, item.project, building, unblocked);
      var down := Culprits(g, Down, properties, item.project, building, unblocked);
      (up != {} ==> r.Blocked? && r.direction == Up && r.culprit in up)
      && (up == {} && down != {} ==> r.Blocked? && r.direction == Down && r.culprit in down)
      && (up == {} && down == {} ==> r == NotBlocked)
  {
    if item.OtherTask? {
      return NotBlocked;
    }
    var project := item.project;
    var blockage := CheckBuilding(g, Up, properties, project, building, unblocked);
    if blockage.Blocked? {
      return blockage;
    }
    blockage := CheckBuilding(g, Down, properties, project, building, unblocked);
    if blockage.Blocked? {
      return blockage;
    }
    return NotBlocked;
  }

  /** A project whose property switches both checks off is never held back. */
  lemma UnconfiguredProjectRuns(g: Graph, properties: map<JobId, Config>, project: JobId,
                                building: set<JobId>, unblocked: set<JobId>)
    requires g.Valid()
    requires project !in properties
      || (!properties[project].blockUpstream && !properties[project].blockDownstream)
    ensures Culprits(g, Up, properties, project, building, unblocked) == {}
    ensures Culprits(g, Down, properties, project, building, unblocked) == {}
  {
  }

  /** Nothing building and nothing unblocked in the queue: every project may run. */
  lemma IdleInstanceRunsEverything(g: Graph, dir: Direction, properties: map<JobId, Config>, project: JobId)
    requires g.Valid()
    ensures Culprits(g, dir, properties, project, {}, {}) == {}
  {
  }
}
