/**
 * The projects section: creating, replacing and deleting projects, the
 * status filter tabs and the count each tab shows.
 */
module ProjectsSection {
  import opened Common
  import opened Seqs
  import opened Entities
  import opened Helpers

  /** The new-project form. */
  datatype ProjectForm = ProjectForm(name: string, description: string, status: ProjectStatus)

  /** The form as it opens and as it is reset after a project is created. */
  const EmptyProjectForm: ProjectForm := ProjectForm("", "", Active)

  /** `handleSubmit`: the form's fields, a fresh id and an empty task list go at the end. */
  function CreateProject(projects: seq<Project>, form: ProjectForm, freshId: Id): (r: seq<Project>)
    ensures |r| == |projects| + 1 && r[..|projects|] == projects
    ensures r[|projects|].id == freshId && r[|projects|].name == form.name
    ensures r[|projects|].description == form.description && r[|projects|].status == form.status
    ensures ProjectProgress(r[|projects|].tasks) == 0
  {
    projects + [Project(freshId, form.name, form.description, form.status, Some([]))]
  }

  /** `updateProject`: every project with the updated one's id is replaced by it. */
  function UpdateProject(projects: seq<Project>, updated: Project): (r: seq<Project>)
    ensures |r| == |projects|
    ensures forall i :: 0 <= i < |projects| ==>
      r[i] == (if projects[i].id == updated.id then updated else projects[i])
  {
    seq(|projects|, i requires 0 <= i < |projects| =>
      if projects[i].id == updated.id then updated else projects[i])
  }

  /** `deleteProject` once confirmed. */
  function DeleteProject(projects: seq<Project>, id: Id): (r: seq<Project>)
    ensures |r| <= |projects|
    ensures forall i :: 0 <= i < |r| ==> r[i] in projects && r[i].id != id
    ensures forall i :: 0 <= i < |projects| && projects[i].id != id ==> projects[i] in r
  {
    Without(projects, ProjectId, id)
  }

  /** The filter tabs: `'all'` or one status. */
  datatype ProjectFilter = AllProjects | WithStatus(status: ProjectStatus)

  /** `filteredProjects`: the projects the selected tab lists, in their stored order. */
  function FilteredProjects(projects: seq<Project>, filter: ProjectFilter): (r: seq<Project>)
    ensures filter.AllProjects? ==> r == projects
    ensures filter.WithStatus? ==>
      |r| <= |projects|
      && (forall i :: 0 <= i < |r| ==> r[i] in projects && r[i].status == filter.status)
      && (forall i :: 0 <= i < |projects| && projects[i].status == filter.status ==> projects[i] in r)
  {
    match filter
    case AllProjects => projects
    case WithStatus(s) => Where(projects, ProjectStatusOf, s)
  }

  /** The counts shown on the four tabs. */
  datatype ProjectCounts = ProjectCounts(all: nat, active: nat, paused: nat, completed: nat)

  /** `projectCounts`. */
  function CountProjects(projects: seq<Project>): (counts: ProjectCounts)
    ensures counts.all == |projects|
    ensures counts.active + counts.paused + counts.completed == counts.all
  {
    StatusCountsAddUp(projects);
    ProjectCounts(
      |projects|,
      |Where(projects, ProjectStatusOf, Active)|,
      |Where(projects, ProjectStatusOf, Paused)|,
      |Where(projects, ProjectStatusOf, Completed)|)
  }

  /** The count on a tab. */
  function TabCount(counts: ProjectCounts, filter: ProjectFilter): (n: nat)
    ensures counts.active + counts.paused + counts.completed == counts.all ==> n <= counts.all
  {
    match filter
    case AllProjects => counts.all
    case WithStatus(Active) => counts.active
    case WithStatus(Paused) => counts.paused
    case WithStatus(Completed) => counts.completed
  }

  /** Each status's projects counted separately add up to all projects. */
  lemma {:induction false} StatusCountsAddUp(projects: seq<Project>)
    ensures |Where(projects, ProjectStatusOf, Active)| + |Where(projects, ProjectStatusOf, Paused)|
          + |Where(projects, ProjectStatusOf, Completed)| == |projects|
  {
    if projects != [] {
      var init, last := projects[..|projects| - 1], projects[|projects| - 1];
      assert projects == init + [last];
      StatusCountsAddUp(init);
      WhereConcat(init, [last], ProjectStatusOf, Active);
      WhereConcat(init, [last], ProjectStatusOf, Paused);
      WhereConcat(init, [last], ProjectStatusOf, Completed);
      WhereSingle(last, ProjectStatusOf, Active);
      WhereSingle(last, ProjectStatusOf, Paused);
      WhereSingle(last, ProjectStatusOf, Completed);
      assert |Where([last], ProjectStatusOf, Active)| + |Where([last], ProjectStatusOf, Paused)|
           + |Where([last], ProjectStatusOf, Completed)| == 1 by {
        match last.status
        case Active =>
        case Paused =>
        case Completed =>
      }
    }
  }

  /** The count on every tab is the number of projects the tab lists. */
  lemma TabCountMatchesList(projects: seq<Project>, filter: ProjectFilter)
    ensures TabCount(CountProjects(projects), filter) == |FilteredProjects(projects, filter)|
  {
  }

  /** Filtering commutes with appending: a new project never reorders a tab. */
  lemma FilterAppend(projects: seq<Project>, p: Project, filter: ProjectFilter)
    ensures FilteredProjects(projects + [p], filter)
         == FilteredProjects(projects, filter) + FilteredProjects([p], filter)
  {
    if filter.WithStatus? {
      WhereConcat(projects, [p], ProjectStatusOf, filter.status);
    }
  }

  /** Adding a project under a fresh id keeps the ids unique. */
  lemma CreateProjectKeepsIdsUnique(projects: seq<Project>, form: ProjectForm, freshId: Id)
    requires UniqueBy(projects, ProjectId)
    requires forall i :: 0 <= i < |projects| ==> projects[i].id != freshId
    ensures UniqueBy(CreateProject(projects, form, freshId), ProjectId)
  {
    AppendKeepsUnique(projects, Project(freshId, form.name, form.description, form.status, Some([])), ProjectId);
  }

  /** With unique ids, replacing a listed project changes that slot only. */
  lemma UpdateProjectReplacesOne(projects: seq<Project>, k: nat, updated: Project)
    requires UniqueBy(projects, ProjectId) && k < |projects| && updated.id == projects[k].id
    ensures UpdateProject(projects, updated) == projects[k := updated]
    ensures UniqueBy(UpdateProject(projects, updated), ProjectId)
  {
    var r := UpdateProject(projects, updated);
    forall i | 0 <= i < |projects| && i != k ensures r[i] == projects[i] {
      if i < k {
        assert ProjectId(projects[i]) != ProjectId(projects[k]);
      } else {
        assert ProjectId(projects[k]) != ProjectId(projects[i]);
      }
    }
  }

  /** With unique ids, deleting a listed project removes exactly that one. */
  lemma DeleteProjectRemovesOne(projects: seq<Project>, k: nat)
    requires UniqueBy(projects, ProjectId) && k < |projects|
    ensures DeleteProject(projects, projects[k].id) == projects[..k] + projects[k + 1..]
  {
    WithoutRemovesOne(projects, ProjectId, k);
  }
}
