/**
 * A project card: the progress bar it shows and the way its task list
 * edits flow back to the section as a replaced project.
 */
module ProjectCard {
  import opened Common
  import opened Seqs
  import opened Entities
  import opened Helpers
  import opened TaskList
  import opened ProjectsSection

  /** `calculateProjectProgress(project.tasks || [])`. */
  function CardProgress(project: Project): (percent: int)
    ensures 0 <= percent <= 100
    ensures project.tasks.None? ==> percent == 0
  {
    ProjectProgress(Some(TasksOf(project)))
  }

  /** The bar turns green exactly at `progress === 100`. */
  predicate ShowsComplete(project: Project)
    ensures ShowsComplete(project) ==> project.tasks.Some? && TasksOf(project) != []
  {
    CardProgress(project) == 100
  }

  /** `updateTasks`: the same project with the new task list. */
  function UpdateTasks(project: Project, newTasks: seq<Task>): (p: Project)
    ensures p.id == project.id && p.name == project.name && p.description == project.description
    ensures p.status == project.status && TasksOf(p) == newTasks
  {
    project.(tasks := Some(newTasks))
  }

  /**
   * A task list edit made on card k reaches the section as a replacement of
   * project k alone; every other project is untouched.
   */
  lemma CardEditReplacesOne(projects: seq<Project>, k: nat, newTasks: seq<Task>)
    requires UniqueBy(projects, ProjectId) && k < |projects|
    ensures UpdateProject(projects, UpdateTasks(projects[k], newTasks))
         == projects[k := projects[k].(tasks := Some(newTasks))]
  {
    UpdateProjectReplacesOne(projects, k, UpdateTasks(projects[k], newTasks));
  }

  /** A card whose project never had a task list gains one on the first added task. */
  lemma FirstTaskOnMissingList(project: Project, text: string, freshId: Id)
    requires project.tasks.None? && !IsBlank(text)
    ensures UpdateTasks(project, AddTask(TasksOf(project), text, freshId)).tasks
         == Some([Task(freshId, text, false)])
  {
  }

  /** Once every task of a non-empty list is ticked the bar shows complete. */
  lemma AllDoneShowsComplete(project: Project)
    requires TasksOf(project) != []
    requires forall i :: 0 <= i < |TasksOf(project)| ==> TasksOf(project)[i].completed
    ensures ShowsComplete(project)
  {
    ProgressAllDone(TasksOf(project));
  }

  /** With fewer than 200 tasks, a complete bar means every task is ticked. */
  lemma CompleteMeansAllDone(project: Project)
    requires |TasksOf(project)| < 200 && ShowsComplete(project)
    ensures forall i :: 0 <= i < |TasksOf(project)| ==> TasksOf(project)[i].completed
  {
    ProgressFullMeansAllDone(TasksOf(project));
  }

  /** A card without tasks never shows complete. */
  lemma EmptyCardNotComplete(project: Project)
    requires TasksOf(project) == []
    ensures !ShowsComplete(project)
  {
  }
}
