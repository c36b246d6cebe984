/**
 * BlockBuildItemListener together with `updateBlockBuildJobPropertyInProject`:
 * when a project is deleted or renamed, every project's BlockBuildJobProperty
 * is replaced by one whose final-project lists follow the change.
 */
module ItemListener {
  import opened Wrappers
  import opened JobProperty

  /** The item an event is about: a project, or some other kind of item (a folder, a view). */
  datatype Item = ProjectItem(id: JobId) | OtherItem

  /**
   * The properties after `onDeleted`: every listed project other than the
   * deleted one drops `name`, except the projects in `failing`, whose update
   * threw and which keep the property they had.
   */
  function AfterDelete(properties: map<JobId, Config>, projects: seq<JobId>, deleted: JobId, name: string,
                       failing: set<JobId>): (r: map<JobId, Config>)
    ensures r.Keys == properties.Keys
  {
    map p | p in properties ::
      if p in projects && p != deleted && p !in failing then properties[p].OnDeleted(name) else properties[p]
  }

  /**
   * The properties after `onRenamed`: every listed project renames `oldName`
   * to `newName`, except the projects in `failing`, whose update threw.
   */
  function AfterRename(properties: map<JobId, Config>, projects: seq<JobId>, oldName: string, newName: string,
                       failing: set<JobId>): (r: map<JobId, Config>)
    ensures r.Keys == properties.Keys
  {
    map p | p in properties ::
      if p in projects && p !in failing then properties[p].OnRenamed(oldName, newName) else properties[p]
  }

  /** `now` is `before` with the deletion applied to the projects in `done`. */
  ghost predicate DeletedSoFar(before: map<JobId, Config>, now: map<JobId, Config>, done: seq<JobId>,
                               deleted: JobId, name: string, failing: set<JobId>)
  {
    now.Keys == before.Keys
    && forall q :: q in before ==>
      now[q] == if q in done && q != deleted && q !in failing then before[q].OnDeleted(name) else before[q]
  }

  /** `now` is `before` with the rename applied to the projects in `done`. */
  ghost predicate RenamedSoFar(before: map<JobId, Config>, now: map<JobId, Config>, done: seq<JobId>,
                               oldName: string, newName: string, failing: set<JobId>)
  {
    now.Keys == before.Keys
    && forall q :: q in before ==>
      now[q] == if q in done && q !in failing then before[q].OnRenamed(oldName, newName) else before[q]
  }

  /** Handling one more project, not handled before, rewrites that project's property alone. */
  lemma DeletedSoFarStep(before: map<JobId, Config>, now: map<JobId, Config>, done: seq<JobId>, current: JobId,
                         deleted: JobId, name: string, failing: set<JobId>, next: map<JobId, Config>)
    requires DeletedSoFar(before, now, done, deleted, name, failing) && current !in done
    requires next == if current in now && current != deleted && current !in failing
                     then now[current := now[current].OnDeleted(name)] else now
    ensures DeletedSoFar(before, next, done + [current], deleted, name, failing)
  {
  }

  /** The same for renaming. */
  lemma RenamedSoFarStep(before: map<JobId, Config>, now: map<JobId, Config>, done: seq<JobId>, current: JobId,
                         oldName: string, newName: string, failing: set<JobId>, next: map<JobId, Config>)
    requires RenamedSoFar(before, now, done, oldName, newName, failing) && current !in done
    requires next == if current in now && current !in failing
                     then now[current := now[current].OnRenamed(oldName, newName)] else now
    ensures RenamedSoFar(before, next, done + [current], oldName, newName, failing)
  {
  }

  /** Once every listed project is handled, the map is `AfterDelete`. */
  lemma DeletedAll(before: map<JobId, Config>, now: map<JobId, Config>, projects: seq<JobId>,
                   deleted: JobId, name: string, failing: set<JobId>)
    requires DeletedSoFar(before, now, projects, deleted, name, failing)
    ensures now == AfterDelete(before, projects, deleted, name, failing)
  {
  }

  /** Once every listed project is handled, the map is `AfterRename`. */
  lemma RenamedAll(before: map<JobId, Config>, now: map<JobId, Config>, projects: seq<JobId>,
                   oldName: string, newName: string, failing: set<JobId>)
    requires RenamedSoFar(before, now, projects, oldName, newName, failing)
    ensures now == AfterRename(before, projects, oldName, newName, failing)
  {
  }

  /**
   * The Jenkins instance as the listener sees it: its projects in the order
   * `getAbstractProjects` returns them, their full names, and the
   * BlockBuildJobProperty each project currently holds (absent: none).
   */
  class Instance {
    const projects: seq<JobId>
    const fullName: map<JobId, string>
    var properties: map<JobId, Config>

    /** Each project appears once and has a full name. */
    ghost predicate Valid()
      reads this
    {
      (forall i, j :: 0 <= i < j < |projects| ==> projects[i] != projects[j])
      && (forall p :: p in projects ==> p in fullName)
    }

    constructor (projects: seq<JobId>, fullName: map<JobId, string>, properties: map<JobId, Config>)
      requires forall i, j :: 0 <= i < j < |projects| ==> projects[i] != projects[j]
      requires forall p :: p in projects ==> p in fullName
      ensures Valid()
      ensures this.projects == projects && this.fullName == fullName && this.properties == properties
    {
      this.projects := projects;
      this.fullName := fullName;
      this.properties := properties;
    }

    /**
     * `updateBlockBuildJobPropertyInProject`: remove the project's property,
     * then add the new one. `saved` is whether Jenkins accepts the change;
     * when it throws, the exception is logged and swallowed, and the project
     * keeps the property it had.
     */
    method UpdateProperty(project: JobId, newProperty: Config, saved: bool)
      modifies this
      ensures properties == if saved then old(properties)[project := newProperty] else old(properties)
    {
      if saved {
        properties := map p | p in properties && p != project :: properties[p];
        properties := properties[project := newProperty];
      }
    }

    /**
     * `onDeleted`: every other project with the property forgets the deleted
     * project's name. `failing` holds the projects whose update throws; the
     * loop goes on past them.
     */
    method OnDeleted(item: Item, failing: set<JobId>)
      requires Valid()
      requires item.ProjectItem? ==> item.id in fullName
      modifies this
      ensures Valid()
      ensures item.OtherItem? ==> properties == old(properties)
      ensures item.ProjectItem? ==>
        properties == AfterDelete(old(properties), projects, item.id, fullName[item.id], failing)
    {
      if item.OtherItem? {
        return;
      }
      var deletedProject := item.id;
      var oldName := fullName[deletedProject];
      ghost var before := properties;
      var i := 0;
      while i < |projects|
        invariant 0 <= i <= |projects|
        invariant DeletedSoFar(before, properties, projects[..i], deletedProject, oldName, failing)
      {
        var currentProject := projects[i];
        assert projects[..i + 1] == projects[..i] + [currentProject];
        assert currentProject !in projects[..i];
        ghost var now := properties;
        if currentProject != deletedProject {
          ForgetIn(currentProject, oldName, currentProject !in failing);
        }
        DeletedSoFarStep(before, now, projects[..i], currentProject, deletedProject, oldName, failing, properties);
        i := i + 1;
      }
      assert projects[..i] == projects;
      DeletedAll(before, properties, projects, deletedProject, oldName, failing);
    }

    /** One turn of `onDeleted`'s loop: a project holding the property gets `onDeleted(name)` of it, if saved. */
    method ForgetIn(project: JobId, name: string, saved: bool)
      modifies this
      ensures properties == if project in old(properties) && saved
                            then old(properties)[project := old(properties)[project].OnDeleted(name)]
                            else old(properties)
    {
      var property := PropertyOf(properties, Some(project));
      if property.Some? {
        UpdateProperty(project, property.value.OnDeleted(name), saved);
      }
    }

    /**
     * `onRenamed`: every project with the property renames `oldName` to
     * `newName` in its lists; the projects in `failing` keep theirs.
     */
    method OnRenamed(item: Item, oldName: string, newName: string, failing: set<JobId>)
      requires Valid()
      modifies this
      ensures Valid()
      ensures item.OtherItem? ==> properties == old(properties)
      ensures item.ProjectItem? ==> properties == AfterRename(old(properties), projects, oldName, newName, failing)
    {
      if item.OtherItem? {
        return;
      }
      ghost var before := properties;
      var i := 0;
      while i < |projects|
        invariant 0 <= i <= |projects|
        invariant RenamedSoFar(before, properties, projects[..i], oldName, newName, failing)
      {
        var currentProject := projects[i];
        assert projects[..i + 1] == projects[..i] + [currentProject];
        assert currentProject !in projects[..i];
        ghost var now := properties;
        var property := PropertyOf(properties, Some(currentProject));
        if property.Some? {
          UpdateProperty(currentProject, property.value.OnRenamed(oldName, newName), currentProject !in failing);
        }
        RenamedSoFarStep(before, now, projects[..i], currentProject, oldName, newName, failing, properties);
        i := i + 1;
      }
      assert projects[..i] == projects;
      RenamedAll(before, properties, projects, oldName, newName, failing);
    }
  }

  /**
   * A failed update stays local: a listed project whose own update succeeds
   * is rewritten exactly as if no update had failed, wherever in the loop the
   * failures fall, and a project whose update fails keeps its property.
   */
  lemma DeleteFailuresStayLocal(properties: map<JobId, Config>, projects: seq<JobId>, deleted: JobId, name: string,
                                failing: set<JobId>, p: JobId)
    requires p in properties
    ensures p !in failing ==>
      AfterDelete(properties, projects, deleted, name, failing)[p] == AfterDelete(properties, projects, deleted, name, {})[p]
    ensures p in failing ==> AfterDelete(properties, projects, deleted, name, failing)[p] == properties[p]
    ensures p in projects && p != deleted && p !in failing ==>
      AfterDelete(properties, projects, deleted, name, failing)[p] == properties[p].OnDeleted(name)
  {
  }

  /** The same for renaming. */
  lemma RenameFailuresStayLocal(properties: map<JobId, Config>, projects: seq<JobId>, oldName: string, newName: string,
                                failing: set<JobId>, p: JobId)
    requires p in properties
    ensures p !in failing ==>
      AfterRename(properties, projects, oldName, newName, failing)[p] == AfterRename(properties, projects, oldName, newName, {})[p]
    ensures p in failing ==> AfterRename(properties, projects, oldName, newName, failing)[p] == properties[p]
    ensures p in projects && p !in failing ==>
      AfterRename(properties, projects, oldName, newName, failing)[p] == properties[p].OnRenamed(oldName, newName)
  {
  }

  /** The deleted project's own property is left alone, and nobody gains or loses a property. */
  lemma DeletedProjectUntouched(properties: map<JobId, Config>, projects: seq<JobId>, deleted: JobId, name: string,
                                failing: set<JobId>)
    requires deleted in properties
    ensures AfterDelete(properties, projects, deleted, name, failing)[deleted] == properties[deleted]
  {
  }

  /**
   * After a deletion no other listed project whose update succeeded refers to
   * the deleted name, provided each of its lists named it at most once.
   */
  lemma DeleteForgetsName(properties: map<JobId, Config>, projects: seq<JobId>, deleted: JobId, name: string,
                          failing: set<JobId>, p: JobId)
    requires p in properties && p in projects && p != deleted && p !in failing
    requires multiset(properties[p].FinalUpstreamAsList())[name] <= 1
    requires multiset(properties[p].FinalDownstreamAsList())[name] <= 1
    ensures var c := AfterDelete(properties, projects, deleted, name, failing)[p];
      name !in c.FinalUpstreamAsList() && name !in c.FinalDownstreamAsList()
  {
    var c := properties[p];
    DeleteLeavesDuplicates(name, c.FinalUpstreamAsList());
    DeleteLeavesDuplicates(name, c.FinalDownstreamAsList());
  }

  /** After a rename to a different name no listed project whose update succeeded refers to the old name. */
  lemma RenameForgetsOldName(properties: map<JobId, Config>, projects: seq<JobId>, oldName: string, newName: string,
                             failing: set<JobId>, p: JobId)
    requires p in properties && p in projects && p !in failing && oldName != newName
    ensures var c := AfterRename(properties, projects, oldName, newName, failing)[p];
      oldName !in c.FinalUpstreamAsList() && oldName !in c.FinalDownstreamAsList()
  {
    var c := properties[p];
    RenameRemovesOldName(c.FinalUpstreamAsList(), oldName, newName);
    RenameRemovesOldName(c.FinalDownstreamAsList(), oldName, newName);
  }

  /** Renaming to a name no list uses and back restores every list, whichever updates fail. */
  lemma RenameAndBack(properties: map<JobId, Config>, projects: seq<JobId>, oldName: string, newName: string,
                      failing: set<JobId>, failingBack: set<JobId>, p: JobId)
    requires p in properties
    requires newName !in properties[p].FinalUpstreamAsList() && newName !in properties[p].FinalDownstreamAsList()
    requires p in failing <==> p in failingBack
    ensures var c := AfterRename(AfterRename(properties, projects, oldName, newName, failing),
                                 projects, newName, oldName, failingBack)[p];
      c.FinalUpstreamAsList() == properties[p].FinalUpstreamAsList()
      && c.FinalDownstreamAsList() == properties[p].FinalDownstreamAsList()
  {
    var c := properties[p];
    RenameBack(c.FinalUpstreamAsList(), oldName, newName);
    RenameBack(c.FinalDownstreamAsList(), oldName, newName);
  }
}
