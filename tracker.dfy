/** The state of the ProgressTracker page and its event handlers. Saving is
    "the new user data becomes the state"; ids and the clock are parameters. The
    draft and task-form fields are set from outside: their input handlers are not
    part of this model. */
module Tracker {
  import opened Domain
  import opened Text
  import opened Seqs
  import opened Scheduler
  import opened Goals

  class ProgressTracker {
    /** The signed-in user and their goals; `None` before a name was entered. */
    var userData: Option<UserData>
    /** The "new goal" dialog. */
    var newGoal: Draft
    /** The "new task" fields, shared by the draft and by an existing goal. */
    var newTask: TaskForm

    /** Page start: the user data read from storage, if any, and empty forms. */
    constructor (stored: Option<UserData>)
      ensures userData == stored && newGoal == EmptyDraft && newTask == EmptyTaskForm
    {
      userData := stored;
      newGoal := EmptyDraft;
      newTask := EmptyTaskForm;
    }

    /** handleNameSubmit: a non-blank name starts a user with no goals. */
    method SubmitName(userName: string)
      modifies this`userData
      ensures IsBlank(userName) ==> userData == old(userData)
      ensures !IsBlank(userName) ==> userData == Some(UserData(Trim(userName), []))
    {
      if !IsBlank(userName) {
        userData := Some(UserData(Trim(userName), []));
      }
    }

    /** addTaskToNewGoal: a non-blank task joins the draft and the fields reset. */
    method AddTaskToNewGoal()
      modifies this`newGoal, this`newTask
      ensures newGoal == old(newGoal).(tasks := AddDraftTask(old(newGoal.tasks), old(newTask)))
      ensures newTask == if IsBlank(old(newTask.title)) then old(newTask) else EmptyTaskForm
    {
      if !IsBlank(newTask.title) {
        newGoal := newGoal.(tasks := AddDraftTask(newGoal.tasks, newTask));
        newTask := EmptyTaskForm;
      }
    }

    /** removeTaskFromNewGoal: drop the draft task at `index`. */
    method RemoveTaskFromNewGoal(index: int)
      modifies this`newGoal
      ensures newGoal == old(newGoal).(tasks := RemoveDraftTask(old(newGoal.tasks), index))
    {
      newGoal := newGoal.(tasks := RemoveDraftTask(newGoal.tasks, index));
    }

    /** addTaskToExistingGoal: without a user or with a blank title nothing happens;
        otherwise the task is appended to the goal and the fields reset. */
    method AddTaskToExistingGoal(goalId: string, freshId: string)
      modifies this`userData, this`newTask
      ensures old(userData).None? || IsBlank(old(newTask.title)) ==>
        userData == old(userData) && newTask == old(newTask)
      ensures old(userData).Some? && !IsBlank(old(newTask.title)) ==>
        && userData == Some(old(userData).value.(goals :=
             AddTaskToGoal(old(userData).value.goals, goalId, old(newTask), freshId)))
        && newTask == EmptyTaskForm
    {
      if userData.None? || IsBlank(newTask.title) {
        return;
      }
      var updatedGoals := AddTaskToGoal(userData.value.goals, goalId, newTask, freshId);
      userData := Some(userData.value.(goals := updatedGoals));
      newTask := EmptyTaskForm;
    }

    /** The guard of createGoal: a non-blank title, both dates filled in, a user. */
    predicate CanCreateGoal()
      reads this
    {
      !IsBlank(newGoal.title) && newGoal.startDate.Some? && newGoal.endDate.Some? && userData.Some?
    }

    /** createGoal: schedule the draft's tasks over the goal's span, append the goal
        to the user's goals and clear the draft. */
    method CreateGoal(goalId: string, taskIds: seq<string>, now: int)
      requires CanCreateGoal() ==> |taskIds| == |newGoal.tasks|
      requires CanCreateGoal() && newGoal.tasks != [] ==> TotalDuration(newGoal.tasks) != 0
      modifies this`userData, this`newGoal
      ensures !old(CanCreateGoal()) ==> userData == old(userData) && newGoal == old(newGoal)
      ensures old(CanCreateGoal()) ==>
        var draft := old(newGoal);
        var start, end := draft.startDate.value, draft.endDate.value;
        var tasks := Schedule(draft.tasks, taskIds, start, end - start, TotalDuration(draft.tasks));
        && userData == Some(old(userData).value.(goals := old(userData).value.goals
             + [Goal(goalId, draft.title, draft.description, start, end, tasks, now)]))
        && newGoal == EmptyDraft
    {
      if !CanCreateGoal() {
        return;
      }
      var startDate, endDate := newGoal.startDate.value, newGoal.endDate.value;
      var tasksWithDates := ScheduleTasks(newGoal.tasks, taskIds, startDate, endDate);
      var goal := Goal(goalId, newGoal.title, newGoal.description, startDate, endDate, tasksWithDates, now);
      userData := Some(userData.value.(goals := userData.value.goals + [goal]));
      newGoal := EmptyDraft;
    }

    /** toggleTask, applied to the user's goals when there is a user. */
    method ToggleTask(goalId: string, taskId: string)
      modifies this`userData
      ensures old(userData).None? ==> userData == old(userData)
      ensures old(userData).Some? ==>
        userData == Some(old(userData).value.(goals := Goals.ToggleTask(old(userData).value.goals, goalId, taskId)))
    {
      if userData.None? {
        return;
      }
      userData := Some(userData.value.(goals := Goals.ToggleTask(userData.value.goals, goalId, taskId)));
    }

    /** deleteGoal, applied to the user's goals when there is a user. */
    method DeleteGoal(goalId: string)
      modifies this`userData
      ensures old(userData).None? ==> userData == old(userData)
      ensures old(userData).Some? ==>
        userData == Some(old(userData).value.(goals := Goals.DeleteGoal(old(userData).value.goals, goalId)))
    {
      if userData.None? {
        return;
      }
      userData := Some(userData.value.(goals := Goals.DeleteGoal(userData.value.goals, goalId)));
    }

    /** deleteTask, applied to the user's goals when there is a user. */
    method DeleteTask(goalId: string, taskId: string)
      modifies this`userData
      ensures old(userData).None? ==> userData == old(userData)
      ensures old(userData).Some? ==>
        userData == Some(old(userData).value.(goals := Goals.DeleteTask(old(userData).value.goals, goalId, taskId)))
    {
      if userData.None? {
        return;
      }
      userData := Some(userData.value.(goals := Goals.DeleteTask(userData.value.goals, goalId, taskId)));
    }

    /** onDragEnd: move the dragged goal; nothing happens without a destination
        or without a user. The drag library reports indices into the list. */
    method OnDragEnd(source: int, destination: Option<int>)
      requires userData.Some? && destination.Some? ==>
        0 <= source < |userData.value.goals| && 0 <= destination.value < |userData.value.goals|
      modifies this`userData
      ensures old(userData).None? || destination.None? ==> userData == old(userData)
      ensures old(userData).Some? && destination.Some? ==>
        userData == Some(old(userData).value.(goals := Moved(old(userData).value.goals, source, destination.value)))
    {
      if destination.None? || userData.None? {
        return;
      }
      var items := Reorder(userData.value.goals, source, destination);
      userData := Some(userData.value.(goals := items));
    }
  }
}
