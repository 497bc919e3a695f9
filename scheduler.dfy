/** The proportional scheduler run once when a goal is created: it splits the goal's
    span among its tasks by duration weight, left to right, with a moving cursor. */
module Scheduler {
  import opened Domain

  /** Ceiling of the exact quotient a / b (Math.ceil of the division). */
  function CeilDiv(a: int, b: int): (q: int)
    requires b != 0
    ensures b > 0 ==> (q - 1) * b < a <= q * b
    ensures b < 0 ==> q * b <= a < (q - 1) * b
  {
    if b > 0 then -((-a) / b) else -(a / (-b))
  }

  /** The number of days given to a task of weight `duration`:
      ceil(duration / totalDuration * totalDays), computed exactly. */
  function Span(duration: int, totalDays: int, totalDuration: int): int
    requires totalDuration != 0
  {
    CeilDiv(duration * totalDays, totalDuration)
  }

  /** The sum of the task durations (the `reduce` over the draft tasks). */
  function TotalDuration(tasks: seq<DraftTask>): (total: int)
    ensures (forall i :: 0 <= i < |tasks| ==> tasks[i].duration >= 1) ==> total >= |tasks|
  {
    if tasks == [] then 0 else tasks[0].duration + TotalDuration(tasks[1..])
  }

  /** A draft task with an id and a date range: title, duration and completion are kept. */
  function Dated(t: DraftTask, id: string, start: Day, end: Day): Task {
    Task(id, t.title, t.duration, t.completed, Some(start), Some(end))
  }

  /** What the scheduling pass produces: each task starts at the cursor and ends
      `Span` days later, where the next task starts. */
  function Schedule(tasks: seq<DraftTask>, ids: seq<string>, cursor: Day, totalDays: int, totalDuration: int): (r: seq<Task>)
    requires |ids| == |tasks| && (tasks != [] ==> totalDuration != 0)
    ensures |r| == |tasks|
  {
    if tasks == [] then []
    else
      var next := cursor + Span(tasks[0].duration, totalDays, totalDuration);
      [Dated(tasks[0], ids[0], cursor, next)] + Schedule(tasks[1..], ids[1..], next, totalDays, totalDuration)
  }

  /** Days consumed by a run of tasks. */
  function SpanSum(tasks: seq<DraftTask>, totalDays: int, totalDuration: int): int
    requires tasks != [] ==> totalDuration != 0
  {
    if tasks == [] then 0
    else Span(tasks[0].duration, totalDays, totalDuration) + SpanSum(tasks[1..], totalDays, totalDuration)
  }

  lemma {:induction false} SpanSumSnoc(tasks: seq<DraftTask>, t: DraftTask, totalDays: int, totalDuration: int)
    requires totalDuration != 0
    ensures SpanSum(tasks + [t], totalDays, totalDuration)
         == SpanSum(tasks, totalDays, totalDuration) + Span(t.duration, totalDays, totalDuration)
  {
    if tasks == [] {
      assert ([] + [t])[1..] == [];
    } else {
      assert (tasks + [t])[1..] == tasks[1..] + [t];
      SpanSumSnoc(tasks[1..], t, totalDays, totalDuration);
    }
  }

  /** Task i is dated from the cursor plus the spans of the tasks before it to the
      cursor plus the spans up to and including it; its other fields are the draft's. */
  lemma {:induction false} ScheduleAt(tasks: seq<DraftTask>, ids: seq<string>, cursor: Day, totalDays: int, totalDuration: int, i: int)
    requires |ids| == |tasks| && (tasks != [] ==> totalDuration != 0)
    requires 0 <= i < |tasks|
    ensures Schedule(tasks, ids, cursor, totalDays, totalDuration)[i]
         == Dated(tasks[i], ids[i],
                  cursor + SpanSum(tasks[..i], totalDays, totalDuration),
                  cursor + SpanSum(tasks[..i + 1], totalDays, totalDuration))
  {
    var first := Span(tasks[0].duration, totalDays, totalDuration);
    if i == 0 {
      assert tasks[..1] == [tasks[0]];
      assert tasks[..1][1..] == [];
    } else {
      ScheduleAt(tasks[1..], ids[1..], cursor + first, totalDays, totalDuration, i - 1);
      assert tasks[..i][1..] == tasks[1..][..i - 1];
      assert tasks[..i + 1][1..] == tasks[1..][..i];
    }
  }

  /** Contiguity and proportionality: the first task starts at the goal start, each
      later task starts where the previous one ended, and task i lasts exactly
      ceil(duration_i * totalDays / totalDuration) days. */
  lemma {:induction false} ScheduleIsContiguous(tasks: seq<DraftTask>, ids: seq<string>, start: Day, totalDays: int, totalDuration: int)
    requires |ids| == |tasks| && (tasks != [] ==> totalDuration != 0)
    ensures var r := Schedule(tasks, ids, start, totalDays, totalDuration);
      && (forall i :: 0 <= i < |r| ==>
            && r[i].startDate.Some? && r[i].endDate.Some?
            && r[i].endDate.value - r[i].startDate.value == Span(tasks[i].duration, totalDays, totalDuration))
      && (tasks != [] ==> r[0].startDate == Some(start))
      && (forall i :: 0 < i < |r| ==> r[i].startDate == r[i - 1].endDate)
  {
    var r := Schedule(tasks, ids, start, totalDays, totalDuration);
    forall i | 0 <= i < |r|
      ensures r[i].startDate.Some? && r[i].endDate.Some?
      ensures r[i].endDate.value - r[i].startDate.value == Span(tasks[i].duration, totalDays, totalDuration)
      ensures i > 0 ==> r[i].startDate == r[i - 1].endDate
      ensures i == 0 ==> r[i].startDate == Some(start)
    {
      ScheduleAt(tasks, ids, start, totalDays, totalDuration, i);
      assert tasks[..i + 1] == tasks[..i] + [tasks[i]];
      SpanSumSnoc(tasks[..i], tasks[i], totalDays, totalDuration);
      if i > 0 {
        ScheduleAt(tasks, ids, start, totalDays, totalDuration, i - 1);
      }
    }
  }

  /** Scheduling keeps the task count and order and only adds an id and dates. */
  lemma {:induction false} ScheduleKeepsTasks(tasks: seq<DraftTask>, ids: seq<string>, start: Day, totalDays: int, totalDuration: int)
    requires |ids| == |tasks| && (tasks != [] ==> totalDuration != 0)
    ensures var r := Schedule(tasks, ids, start, totalDays, totalDuration);
      && |r| == |tasks|
      && forall i :: 0 <= i < |r| ==>
           && r[i].id == ids[i]
           && DraftTask(r[i].title, r[i].duration, r[i].completed) == tasks[i]
  {
    var r := Schedule(tasks, ids, start, totalDays, totalDuration);
    forall i | 0 <= i < |r|
      ensures r[i].id == ids[i] && DraftTask(r[i].title, r[i].duration, r[i].completed) == tasks[i]
    {
      ScheduleAt(tasks, ids, start, totalDays, totalDuration, i);
    }
  }

  /** One task's span times the total weight is within one weight unit short of a
      whole day above its exact share. */
  lemma SpanBracket(duration: int, totalDays: int, totalDuration: int)
    requires totalDuration != 0
    ensures var q, x := Span(duration, totalDays, totalDuration), duration * totalDays;
      && (totalDuration > 0 ==> x <= q * totalDuration <= x + totalDuration - 1)
      && (totalDuration < 0 ==> q * totalDuration <= x <= q * totalDuration - totalDuration - 1)
  {
    var q := Span(duration, totalDays, totalDuration);
    assert (q - 1) * totalDuration == q * totalDuration - totalDuration;
  }

  lemma Distribute(a: int, b: int, c: int)
    ensures (a + b) * c == a * c + b * c
  {
  }

  /** Each ceiling rounds up by less than one day, so the spans of a run of tasks
      bracket their exact share of `totalDays` (scaled by totalDuration). */
  lemma {:induction false} SpanSumBracket(tasks: seq<DraftTask>, totalDays: int, totalDuration: int)
    requires totalDuration != 0
    ensures var s, x := SpanSum(tasks, totalDays, totalDuration), TotalDuration(tasks) * totalDays;
      && (totalDuration > 0 ==> x <= s * totalDuration <= x + |tasks| * (totalDuration - 1))
      && (totalDuration < 0 ==> s * totalDuration <= x <= s * totalDuration + |tasks| * (-totalDuration - 1))
  {
    if tasks != [] {
      SpanSumBracket(tasks[1..], totalDays, totalDuration);
      var d := tasks[0].duration;
      var rest := TotalDuration(tasks[1..]);
      var q := Span(d, totalDays, totalDuration);
      var s' := SpanSum(tasks[1..], totalDays, totalDuration);
      SpanBracket(d, totalDays, totalDuration);
      Distribute(d, rest, totalDays);
      Distribute(q, s', totalDuration);
      Distribute(1, |tasks[1..]|, totalDuration - 1);
      Distribute(1, |tasks[1..]|, -totalDuration - 1);
    }
  }

  /** No clamp to the goal end: the last task ends at or after start + totalDays,
      and ceiling rounding over-runs it by fewer days than there are tasks. */
  lemma ScheduleOverruns(tasks: seq<DraftTask>, ids: seq<string>, start: Day, totalDays: int)
    requires |ids| == |tasks| && tasks != [] && TotalDuration(tasks) != 0
    ensures var r := Schedule(tasks, ids, start, totalDays, TotalDuration(tasks));
      && r[|r| - 1].endDate.Some?
      && start + totalDays <= r[|r| - 1].endDate.value <= start + totalDays + |tasks| - 1
  {
    var n, t := |tasks|, TotalDuration(tasks);
    ScheduleAt(tasks, ids, start, totalDays, t, n - 1);
    assert tasks[..n] == tasks;
    SpanSumBracket(tasks, totalDays, t);
    Unscale(SpanSum(tasks, totalDays, t), totalDays, t, n);
  }

  /** Dividing the bracket of SpanSumBracket by the total weight (when the weight
      is the whole total) gives whole days. */
  lemma Unscale(s: int, days: int, t: int, n: nat)
    requires t != 0 && n >= 1
    requires t > 0 ==> t * days <= s * t <= t * days + n * (t - 1)
    requires t < 0 ==> s * t <= t * days <= s * t + n * (-t - 1)
    ensures days <= s <= days + n - 1
  {
    Distribute(s, -days, t);
    Distribute(days + n, -s, t);
    Distribute(n, 0, t);
    if t > 0 {
      assert (s - days) * t >= 0;
      assert (days + n - s) * t >= n;
    } else {
      assert (s - days) * t <= 0;
      assert (days + n - s) * t + n <= 0;
    }
  }

  /** With positive durations and an end date on or after the start date, every
      scheduled task ends on or after the day it starts. */
  lemma ScheduleRangesOrdered(tasks: seq<DraftTask>, ids: seq<string>, start: Day, end: Day)
    requires |ids| == |tasks| && start <= end
    requires forall i :: 0 <= i < |tasks| ==> tasks[i].duration >= 1
    ensures var r := Schedule(tasks, ids, start, end - start, TotalDuration(tasks));
      forall i :: 0 <= i < |r| ==> r[i].startDate.Some? && r[i].endDate.Some? && r[i].startDate.value <= r[i].endDate.value
  {
    var t := TotalDuration(tasks);
    ScheduleIsContiguous(tasks, ids, start, end - start, t);
    forall i | 0 <= i < |tasks|
      ensures Span(tasks[i].duration, end - start, t) >= 0
    {
      var q := Span(tasks[i].duration, end - start, t);
      assert tasks[i].duration * (end - start) >= 0;
      assert q * t >= 0;
    }
  }

  /** Durations 1, 2, 3 over a 9-day goal starting on day 0 get 2, 3 and 5 days
      (ceil of 1.5, 3 and 4.5): the last task ends on day 10, one day past the goal. */
  lemma ScheduleExample(a: string, b: string, c: string)
    ensures var tasks := [DraftTask(a, 1, false), DraftTask(b, 2, false), DraftTask(c, 3, false)];
      Schedule(tasks, ["1", "2", "3"], 0, 9, TotalDuration(tasks))
        == [Dated(tasks[0], "1", 0, 2), Dated(tasks[1], "2", 2, 5), Dated(tasks[2], "3", 5, 10)]
  {
    var tasks := [DraftTask(a, 1, false), DraftTask(b, 2, false), DraftTask(c, 3, false)];
    var ids := ["1", "2", "3"];
    assert tasks[1..] == [tasks[1], tasks[2]] && ids[1..] == ["2", "3"];
    assert tasks[2..] == [tasks[2]] && ids[2..] == ["3"];
    assert tasks[1..][1..] == tasks[2..] && ids[1..][1..] == ids[2..];
    assert tasks[2..][1..] == [] && ids[2..][1..] == [];
    assert TotalDuration(tasks[2..]) == 3;
    assert TotalDuration(tasks[1..]) == 5;
    assert TotalDuration(tasks) == 6;
    assert Span(1, 9, 6) == 2 && Span(2, 9, 6) == 3 && Span(3, 9, 6) == 5;
    assert Schedule(tasks[2..], ids[2..], 5, 9, 6) == [Dated(tasks[2], "3", 5, 10)];
    assert Schedule(tasks[1..], ids[1..], 2, 9, 6) == [Dated(tasks[1], "2", 2, 5), Dated(tasks[2], "3", 5, 10)];
  }

  /** The same tasks on a goal that ends 9 days before it starts: nothing rejects it,
      and every task ends before it starts (spans -1, -3 and -4). */
  lemma ScheduleBackwardsExample(a: string, b: string, c: string)
    ensures var tasks := [DraftTask(a, 1, false), DraftTask(b, 2, false), DraftTask(c, 3, false)];
      Schedule(tasks, ["1", "2", "3"], 0, -9, TotalDuration(tasks))
        == [Dated(tasks[0], "1", 0, -1), Dated(tasks[1], "2", -1, -4), Dated(tasks[2], "3", -4, -8)]
  {
    var tasks := [DraftTask(a, 1, false), DraftTask(b, 2, false), DraftTask(c, 3, false)];
    var ids := ["1", "2", "3"];
    assert tasks[1..] == [tasks[1], tasks[2]] && ids[1..] == ["2", "3"];
    assert tasks[2..] == [tasks[2]] && ids[2..] == ["3"];
    assert tasks[1..][1..] == tasks[2..] && ids[1..][1..] == ids[2..];
    assert tasks[2..][1..] == [] && ids[2..][1..] == [];
    assert TotalDuration(tasks[2..]) == 3;
    assert TotalDuration(tasks[1..]) == 5;
    assert TotalDuration(tasks) == 6;
    assert Span(1, -9, 6) == -1 && Span(2, -9, 6) == -3 && Span(3, -9, 6) == -4;
    assert Schedule(tasks[2..], ids[2..], -4, -9, 6) == [Dated(tasks[2], "3", -4, -8)];
    assert Schedule(tasks[1..], ids[1..], -1, -9, 6) == [Dated(tasks[1], "2", -1, -4), Dated(tasks[2], "3", -4, -8)];
  }

  /** One step of the pass: the schedule of tasks[i..] is task i's dated copy
      followed by the schedule of the rest from the advanced cursor. */
  lemma ScheduleStep(tasks: seq<DraftTask>, ids: seq<string>, i: int, cursor: Day, totalDays: int, totalDuration: int)
    requires |ids| == |tasks| && 0 <= i < |tasks| && totalDuration != 0
    ensures var next := cursor + Span(tasks[i].duration, totalDays, totalDuration);
      Schedule(tasks[i..], ids[i..], cursor, totalDays, totalDuration)
        == [Dated(tasks[i], ids[i], cursor, next)] + Schedule(tasks[i + 1..], ids[i + 1..], next, totalDays, totalDuration)
  {
    assert tasks[i..][0] == tasks[i] && ids[i..][0] == ids[i];
    assert tasks[i..][1..] == tasks[i + 1..] && ids[i..][1..] == ids[i + 1..];
  }

  /** The scheduling pass of goal creation: a cursor starts at the goal start and
      advances by each task's scaled duration, in list order. */
  method ScheduleTasks(tasks: seq<DraftTask>, ids: seq<string>, startDate: Day, endDate: Day) returns (dated: seq<Task>)
    requires |ids| == |tasks|
    requires tasks != [] ==> TotalDuration(tasks) != 0
    ensures dated == Schedule(tasks, ids, startDate, endDate - startDate, TotalDuration(tasks))
  {
    var totalDays := endDate - startDate;
    var totalDuration := TotalDuration(tasks);
    var cursor := startDate;
    dated := [];
    var i := 0;
    while i < |tasks|
      invariant 0 <= i <= |tasks|
      invariant dated + Schedule(tasks[i..], ids[i..], cursor, totalDays, totalDuration)
             == Schedule(tasks, ids, startDate, totalDays, totalDuration)
    {
      var taskStart := cursor;
      var scaled := CeilDiv(tasks[i].duration * totalDays, totalDuration);
      cursor := cursor + scaled;
      ScheduleStep(tasks, ids, i, taskStart, totalDays, totalDuration);
      dated := dated + [Dated(tasks[i], ids[i], taskStart, cursor)];
      i := i + 1;
    }
    assert tasks[i..] == [];
  }
}
