/** "Today's task": the first goal (in list order) whose span contains today and
    that has an incomplete, dated task whose range contains today. */
module Recommender {
  import opened Domain

  datatype Recommendation = Recommendation(goal: Goal, task: Task)

  /** The goal's inclusive date range contains `today`. */
  predicate IsActive(g: Goal, today: Day) {
    g.startDate <= today <= g.endDate
  }

  /** The task may be recommended: not completed, dated, and its inclusive range
      contains `today`. Undated tasks never qualify. */
  predicate IsEligible(t: Task, today: Day) {
    && !t.completed
    && t.startDate.Some? && t.endDate.Some?
    && t.startDate.value <= today <= t.endDate.value
  }

  /** The goal both contains today and has a task eligible today. */
  predicate HasCurrentTask(g: Goal, today: Day) {
    IsActive(g, today) && exists j :: 0 <= j < |g.tasks| && IsEligible(g.tasks[j], today)
  }

  /** `tasks.find(...)`: the first eligible task, if any. */
  function FindCurrentTask(tasks: seq<Task>, today: Day): (r: Option<Task>)
    ensures r.Some? ==> r.value in tasks && IsEligible(r.value, today)
    ensures r.None? <==> forall j :: 0 <= j < |tasks| ==> !IsEligible(tasks[j], today)
  {
    if tasks == [] then None
    else if IsEligible(tasks[0], today) then Some(tasks[0])
    else FindCurrentTask(tasks[1..], today)
  }

  /** The task found is the first eligible one in list order. */
  lemma {:induction false} FindCurrentTaskIsFirst(tasks: seq<Task>, today: Day, j: int)
    requires 0 <= j < |tasks| && IsEligible(tasks[j], today)
    requires forall k :: 0 <= k < j ==> !IsEligible(tasks[k], today)
    ensures FindCurrentTask(tasks, today) == Some(tasks[j])
  {
    if j > 0 {
      FindCurrentTaskIsFirst(tasks[1..], today, j - 1);
    }
  }

  /** The recommendation: first goal in list order that contains today and has an
      eligible task; a goal that contains today without one is skipped. */
  function Recommend(goals: seq<Goal>, today: Day): (r: Option<Recommendation>)
    ensures r.Some? ==> && r.value.goal in goals && IsActive(r.value.goal, today)
                        && r.value.task in r.value.goal.tasks && IsEligible(r.value.task, today)
  {
    if goals == [] then None
    else if IsActive(goals[0], today) && FindCurrentTask(goals[0].tasks, today).Some? then
      Some(Recommendation(goals[0], FindCurrentTask(goals[0].tasks, today).value))
    else Recommend(goals[1..], today)
  }

  /** There is no recommendation exactly when no goal has a current task. */
  lemma {:induction false} RecommendNoneIff(goals: seq<Goal>, today: Day)
    ensures Recommend(goals, today).None? <==> forall i :: 0 <= i < |goals| ==> !HasCurrentTask(goals[i], today)
  {
    if goals != [] {
      RecommendNoneIff(goals[1..], today);
      assert forall i :: 1 <= i < |goals| ==> goals[i] == goals[1..][i - 1];
      var t := FindCurrentTask(goals[0].tasks, today);
      if t.Some? {
        var j :| 0 <= j < |goals[0].tasks| && goals[0].tasks[j] == t.value;
      }
    }
  }

  /** The recommendation is the first goal with a current task, paired with that
      goal's first eligible task. */
  lemma {:induction false} RecommendIsFirst(goals: seq<Goal>, today: Day, i: int, j: int)
    requires 0 <= i < |goals| && IsActive(goals[i], today)
    requires forall k :: 0 <= k < i ==> !HasCurrentTask(goals[k], today)
    requires 0 <= j < |goals[i].tasks| && IsEligible(goals[i].tasks[j], today)
    requires forall k :: 0 <= k < j ==> !IsEligible(goals[i].tasks[k], today)
    ensures Recommend(goals, today) == Some(Recommendation(goals[i], goals[i].tasks[j]))
  {
    if i == 0 {
      FindCurrentTaskIsFirst(goals[0].tasks, today, j);
    } else {
      assert !HasCurrentTask(goals[0], today);
      RecommendIsFirst(goals[1..], today, i - 1, j);
    }
  }

  /** The recommendation lookup of a render pass: a loop over the goals in order
      that returns on the first goal with a current task. */
  method CurrentRecommendation(user: Option<UserData>, today: Day) returns (r: Option<Recommendation>)
    ensures user.None? ==> r.None?
    ensures user.Some? ==> r == Recommend(user.value.goals, today)
  {
    if user.None? {
      return None;
    }
    var goals := user.value.goals;
    for i := 0 to |goals|
      invariant Recommend(goals[i..], today) == Recommend(goals, today)
    {
      assert goals[i..][0] == goals[i] && goals[i..][1..] == goals[i + 1..];
      var goal := goals[i];
      if IsActive(goal, today) {
        var currentTask := FindCurrentTask(goal.tasks, today);
        if currentTask.Some? {
          return Some(Recommendation(goal, currentTask.value));
        }
      }
    }
    assert goals[|goals|..] == [];
    return None;
  }
}
