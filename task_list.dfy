/** The task list inside a project card: add, tick and delete tasks. */
module TaskList {
  import opened Common
  import opened Seqs
  import opened Entities
  import opened Helpers

  /** `addTask`: a blank text changes nothing; otherwise an open task goes at the end. */
  function AddTask(tasks: seq<Task>, text: string, freshId: Id): (r: seq<Task>)
    ensures IsBlank(text) ==> r == tasks
    ensures !IsBlank(text) ==>
      |r| == |tasks| + 1 && r[..|tasks|] == tasks
      && r[|tasks|].id == freshId && r[|tasks|].text == text && !r[|tasks|].completed
  {
    if IsBlank(text) then tasks else tasks + [Task(freshId, text, false)]
  }

  /** `toggleTask`: the tasks with the id flip their completed flag; nothing else changes. */
  function ToggleTask(tasks: seq<Task>, id: Id): (r: seq<Task>)
    ensures |r| == |tasks|
    ensures forall i :: 0 <= i < |tasks| ==>
      r[i].id == tasks[i].id && r[i].text == tasks[i].text
      && (r[i].completed <==> (tasks[i].completed <==> tasks[i].id != id))
  {
    seq(|tasks|, i requires 0 <= i < |tasks| =>
      if tasks[i].id == id then tasks[i].(completed := !tasks[i].completed) else tasks[i])
  }

  /** `deleteTask`: every task with the id goes, the rest keep their order. */
  function DeleteTask(tasks: seq<Task>, id: Id): (r: seq<Task>)
    ensures |r| <= |tasks|
    ensures forall i :: 0 <= i < |r| ==> r[i] in tasks && r[i].id != id
    ensures forall i :: 0 <= i < |tasks| && tasks[i].id != id ==> tasks[i] in r
  {
    Without(tasks, TaskId, id)
  }

  /** Ticking a task twice restores the list. */
  lemma ToggleTaskTwice(tasks: seq<Task>, id: Id)
    ensures ToggleTask(ToggleTask(tasks, id), id) == tasks
  {
    var twice := ToggleTask(ToggleTask(tasks, id), id);
    assert forall i :: 0 <= i < |tasks| ==> twice[i] == tasks[i];
  }

  /** The number of completed tasks in a one-element list. */
  lemma CompletedCountSingle(t: Task)
    ensures CompletedCount([t]) == if t.completed then 1 else 0
  {
    WhereSingle(t, TaskDone, true);
  }

  /**
   * With unique ids, ticking a listed task moves the completed count by
   * one: up when it was open, down when it was done.
   */
  lemma ToggleTaskCount(tasks: seq<Task>, k: nat)
    requires UniqueBy(tasks, TaskId) && k < |tasks|
    ensures CompletedCount(ToggleTask(tasks, tasks[k].id))
         == CompletedCount(tasks) + (if tasks[k].completed then -1 else 1)
  {
    var id := tasks[k].id;
    var r := ToggleTask(tasks, id);
    var front, back := tasks[..k], tasks[k + 1..];
    assert r[..k] == front by {
      forall i | 0 <= i < k ensures r[i] == tasks[i] {
        assert tasks[i].id != id;
      }
    }
    assert r[k + 1..] == back by {
      forall i | k < i < |tasks| ensures r[i] == tasks[i] {
        assert tasks[i].id != id;
      }
    }
    assert tasks == front + [tasks[k]] + back;
    assert r == front + [r[k]] + back;
    WhereConcat(front + [tasks[k]], back, TaskDone, true);
    WhereConcat(front, [tasks[k]], TaskDone, true);
    WhereConcat(front + [r[k]], back, TaskDone, true);
    WhereConcat(front, [r[k]], TaskDone, true);
    CompletedCountSingle(tasks[k]);
    CompletedCountSingle(r[k]);
  }

  /** Adding a task under a fresh id keeps the ids unique. */
  lemma AddTaskKeepsIdsUnique(tasks: seq<Task>, text: string, freshId: Id)
    requires UniqueBy(tasks, TaskId)
    requires forall i :: 0 <= i < |tasks| ==> tasks[i].id != freshId
    ensures UniqueBy(AddTask(tasks, text, freshId), TaskId)
  {
    if !IsBlank(text) {
      AppendKeepsUnique(tasks, Task(freshId, text, false), TaskId);
    }
  }

  /** With unique ids, deleting a listed task removes exactly that one. */
  lemma DeleteTaskRemovesOne(tasks: seq<Task>, k: nat)
    requires UniqueBy(tasks, TaskId) && k < |tasks|
    ensures DeleteTask(tasks, tasks[k].id) == tasks[..k] + tasks[k + 1..]
  {
    WithoutRemovesOne(tasks, TaskId, k);
  }
}
