/** The immutable updates of the goal list and of the goal draft: each builds a new
    list (`map`, `filter`, spread, `splice` on a copy) from the old one. */
module Goals {
  import opened Domain
  import opened Text
  import opened Seqs

  /** Ids come from crypto.randomUUID, so within one list they are distinct. */
  predicate UniqueGoalIds(goals: seq<Goal>) {
    forall i, j :: 0 <= i < j < |goals| ==> goals[i].id != goals[j].id
  }

  predicate UniqueTaskIds(tasks: seq<Task>) {
    forall i, j :: 0 <= i < j < |tasks| ==> tasks[i].id != tasks[j].id
  }

  /** The filter predicates of deleteGoal and deleteTask. */
  function KeepGoal(goalId: string): Goal -> bool {
    (g: Goal) => g.id != goalId
  }

  function KeepTask(taskId: string): Task -> bool {
    (t: Task) => t.id != taskId
  }

  // ---------------------------------------------------------------- toggleTask

  /** Flip `completed` on the tasks whose id is `taskId`. */
  function ToggleTasks(tasks: seq<Task>, taskId: string): seq<Task> {
    seq(|tasks|, j requires 0 <= j < |tasks| =>
      if tasks[j].id == taskId then tasks[j].(completed := !tasks[j].completed) else tasks[j])
  }

  /** toggleTask: only the `completed` flag of the task `taskId` inside the goal
      `goalId` changes; every other goal, task and field stays as it was. */
  function ToggleTask(goals: seq<Goal>, goalId: string, taskId: string): (r: seq<Goal>)
    ensures |r| == |goals|
    ensures forall i :: 0 <= i < |goals| ==>
      && r[i] == goals[i].(tasks := r[i].tasks)
      && |r[i].tasks| == |goals[i].tasks|
      && (goals[i].id != goalId ==> r[i] == goals[i])
    ensures forall i, j :: 0 <= i < |goals| && 0 <= j < |goals[i].tasks| ==>
      && r[i].tasks[j] == goals[i].tasks[j].(completed := r[i].tasks[j].completed)
      && ((r[i].tasks[j].completed != goals[i].tasks[j].completed)
          <==> (goals[i].id == goalId && goals[i].tasks[j].id == taskId))
  {
    seq(|goals|, i requires 0 <= i < |goals| =>
      if goals[i].id == goalId then goals[i].(tasks := ToggleTasks(goals[i].tasks, taskId)) else goals[i])
  }

  /** Toggling the same task twice gives back the original list. */
  lemma ToggleTaskTwice(goals: seq<Goal>, goalId: string, taskId: string)
    ensures ToggleTask(ToggleTask(goals, goalId, taskId), goalId, taskId) == goals
  {
    var once := ToggleTask(goals, goalId, taskId);
    var twice := ToggleTask(once, goalId, taskId);
    forall i | 0 <= i < |goals|
      ensures twice[i] == goals[i]
    {
      assert twice[i].tasks == goals[i].tasks;
    }
  }

  // ----------------------------------------------------------- getGoalProgress

  /** The number of completed tasks (`tasks.filter(t => t.completed).length`). */
  function CompletedCount(tasks: seq<Task>): (count: nat)
    ensures count <= |tasks|
    ensures count == |tasks| <==> forall j :: 0 <= j < |tasks| ==> tasks[j].completed
    ensures count == 0 <==> forall j :: 0 <= j < |tasks| ==> !tasks[j].completed
  {
    if tasks == [] then 0
    else (if tasks[0].completed then 1 else 0) + CompletedCount(tasks[1..])
  }

  lemma ToggleTasksAbsent(tasks: seq<Task>, taskId: string)
    requires forall j :: 0 <= j < |tasks| ==> tasks[j].id != taskId
    ensures ToggleTasks(tasks, taskId) == tasks
  {
  }

  /** Toggling one task of a goal moves its completed count by exactly one. */
  lemma {:induction false} ToggleTasksCount(tasks: seq<Task>, taskId: string, k: int)
    requires UniqueTaskIds(tasks) && 0 <= k < |tasks| && tasks[k].id == taskId
    ensures CompletedCount(ToggleTasks(tasks, taskId))
         == CompletedCount(tasks) + (if tasks[k].completed then -1 else 1)
  {
    var toggled := ToggleTasks(tasks, taskId);
    assert toggled[1..] == ToggleTasks(tasks[1..], taskId);
    if k == 0 {
      ToggleTasksAbsent(tasks[1..], taskId);
    } else {
      ToggleTasksCount(tasks[1..], taskId, k - 1);
    }
  }

  // ---------------------------------------------------------------- deleteGoal

  /** deleteGoal: keep the goals whose id is not `goalId`, in order. */
  function DeleteGoal(goals: seq<Goal>, goalId: string): (r: seq<Goal>)
    ensures |r| <= |goals|
    ensures forall g :: g in r <==> g in goals && g.id != goalId
  {
    FilterMembers(goals, KeepGoal(goalId));
    Filter(goals, KeepGoal(goalId))
  }

  /** With distinct ids, deleting goal k removes exactly that goal and keeps the
      order of the others. */
  lemma DeleteGoalRemovesOne(goals: seq<Goal>, k: int)
    requires UniqueGoalIds(goals) && 0 <= k < |goals|
    ensures DeleteGoal(goals, goals[k].id) == RemoveAt(goals, k)
  {
    FilterRemovesOne(goals, KeepGoal(goals[k].id), k);
  }

  /** Deleting an id no goal has leaves the list as it is. */
  lemma DeleteGoalUnknown(goals: seq<Goal>, goalId: string)
    requires forall i :: 0 <= i < |goals| ==> goals[i].id != goalId
    ensures DeleteGoal(goals, goalId) == goals
  {
    FilterKeepsAll(goals, KeepGoal(goalId));
  }

  // ---------------------------------------------------------------- deleteTask

  /** deleteTask: in the goal `goalId`, keep the tasks whose id is not `taskId`;
      every other goal, and every other field of that goal, is unchanged. */
  function DeleteTask(goals: seq<Goal>, goalId: string, taskId: string): (r: seq<Goal>)
    ensures |r| == |goals|
    ensures forall i :: 0 <= i < |goals| ==>
      && r[i] == goals[i].(tasks := r[i].tasks)
      && |r[i].tasks| <= |goals[i].tasks|
      && (goals[i].id != goalId ==> r[i] == goals[i])
  {
    seq(|goals|, i requires 0 <= i < |goals| =>
      if goals[i].id == goalId then goals[i].(tasks := Filter(goals[i].tasks, KeepTask(taskId))) else goals[i])
  }

  /** The matching goal keeps exactly its tasks whose id differs from `taskId`. */
  lemma DeleteTaskMembers(goals: seq<Goal>, goalId: string, taskId: string, i: int)
    requires 0 <= i < |goals| && goals[i].id == goalId
    ensures forall t :: t in DeleteTask(goals, goalId, taskId)[i].tasks <==> t in goals[i].tasks && t.id != taskId
  {
    FilterMembers(goals[i].tasks, KeepTask(taskId));
  }

  /** With distinct task ids, deleting task k of the goal removes exactly that task
      and keeps the order of its siblings. */
  lemma DeleteTaskRemovesOne(goals: seq<Goal>, i: int, k: int)
    requires 0 <= i < |goals| && UniqueTaskIds(goals[i].tasks) && 0 <= k < |goals[i].tasks|
    ensures DeleteTask(goals, goals[i].id, goals[i].tasks[k].id)[i].tasks == RemoveAt(goals[i].tasks, k)
  {
    FilterRemovesOne(goals[i].tasks, KeepTask(goals[i].tasks[k].id), k);
  }

  /** Deleting a task id that no goal holds leaves the list as it is. */
  lemma DeleteTaskUnknown(goals: seq<Goal>, goalId: string, taskId: string)
    requires forall i, j :: 0 <= i < |goals| && 0 <= j < |goals[i].tasks| ==> goals[i].tasks[j].id != taskId
    ensures DeleteTask(goals, goalId, taskId) == goals
  {
    var r := DeleteTask(goals, goalId, taskId);
    forall i | 0 <= i < |goals| && goals[i].id == goalId
      ensures r[i] == goals[i]
    {
      FilterKeepsAll(goals[i].tasks, KeepTask(taskId));
    }
  }

  // ----------------------------------------------------- addTaskToExistingGoal

  /** addTaskToExistingGoal: with a non-blank title, append one undated, not
      completed task to the end of the goal `goalId`; nothing else changes. */
  function AddTaskToGoal(goals: seq<Goal>, goalId: string, form: TaskForm, freshId: string): (r: seq<Goal>)
    ensures |r| == |goals|
    ensures IsBlank(form.title) ==> r == goals
    ensures forall i :: 0 <= i < |goals| && goals[i].id != goalId ==> r[i] == goals[i]
    ensures !IsBlank(form.title) ==> forall i :: 0 <= i < |goals| && goals[i].id == goalId ==>
      var n := |goals[i].tasks|;
      && r[i] == goals[i].(tasks := r[i].tasks)
      && |r[i].tasks| == n + 1
      && r[i].tasks[..n] == goals[i].tasks
      && r[i].tasks[n] == Task(freshId, form.title, form.duration, false, None, None)
  {
    if IsBlank(form.title) then goals
    else
      var added := Task(freshId, form.title, form.duration, false, None, None);
      seq(|goals|, i requires 0 <= i < |goals| =>
        if goals[i].id == goalId then goals[i].(tasks := goals[i].tasks + [added]) else goals[i])
  }

  /** Deleting the task just added (under a fresh id) restores the goal list. */
  lemma AddThenDeleteTask(goals: seq<Goal>, goalId: string, form: TaskForm, freshId: string)
    requires forall i, j :: 0 <= i < |goals| && goals[i].id == goalId && 0 <= j < |goals[i].tasks|
               ==> goals[i].tasks[j].id != freshId
    ensures DeleteTask(AddTaskToGoal(goals, goalId, form, freshId), goalId, freshId) == goals
  {
    var added := AddTaskToGoal(goals, goalId, form, freshId);
    var r := DeleteTask(added, goalId, freshId);
    forall i | 0 <= i < |goals| && goals[i].id == goalId
      ensures r[i] == goals[i]
    {
      var keep := KeepTask(freshId);
      FilterKeepsAll(goals[i].tasks, keep);
      if !IsBlank(form.title) {
        var t := added[i].tasks[|goals[i].tasks|];
        assert added[i].tasks == goals[i].tasks + [t];
        FilterAppend(goals[i].tasks, [t], keep);
        assert Filter([t], keep) == [];
      }
    }
  }

  // ---------------------------------------- addTaskToNewGoal / removeTaskFromNewGoal

  /** addTaskToNewGoal: with a non-blank title, append the form's task, not
      completed, to the draft's task list (the title is kept untrimmed). */
  function AddDraftTask(tasks: seq<DraftTask>, form: TaskForm): (r: seq<DraftTask>)
    ensures IsBlank(form.title) ==> r == tasks
    ensures !IsBlank(form.title) ==>
      && |r| == |tasks| + 1
      && r[..|tasks|] == tasks
      && r[|tasks|] == DraftTask(form.title, form.duration, false)
  {
    if IsBlank(form.title) then tasks else tasks + [DraftTask(form.title, form.duration, false)]
  }

  /** removeTaskFromNewGoal: keep the draft tasks whose position is not `index`. */
  function RemoveDraftTask(tasks: seq<DraftTask>, index: int): (r: seq<DraftTask>)
    ensures 0 <= index < |tasks| ==> r == RemoveAt(tasks, index)
    ensures !(0 <= index < |tasks|) ==> r == tasks
  {
    if tasks == [] then []
    else (if index == 0 then [] else [tasks[0]]) + RemoveDraftTask(tasks[1..], index - 1)
  }

  /** Removing the draft task just added gives back the draft's task list. */
  lemma RemoveAddedDraftTask(tasks: seq<DraftTask>, form: TaskForm)
    ensures RemoveDraftTask(AddDraftTask(tasks, form), |tasks|) == tasks
  {
    if !IsBlank(form.title) {
      assert RemoveAt(AddDraftTask(tasks, form), |tasks|) == tasks;
    }
  }

  // ----------------------------------------------------------------- onDragEnd

  /** onDragEnd: on a copy of the goal list, splice the goal at `source` out and
      splice it back in at the destination; without a destination, do nothing. */
  method Reorder(goals: seq<Goal>, source: int, destination: Option<int>) returns (items: seq<Goal>)
    requires destination.Some? ==> 0 <= source < |goals| && 0 <= destination.value < |goals|
    ensures destination.None? ==> items == goals
    ensures destination.Some? ==> items == Moved(goals, source, destination.value)
  {
    if destination.None? {
      return goals;
    }
    items := goals;
    var reorderedItem := items[source];
    items := items[..source] + items[source + 1..];
    items := items[..destination.value] + [reorderedItem] + items[destination.value..];
  }
}
