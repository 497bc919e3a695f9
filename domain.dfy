/** The records of the tracker: tasks, goals, the user's data and the goal-creation form. */
module Domain {

  datatype Option<T> = None | Some(value: T)

  /** Dates are whole day numbers (days since some fixed epoch). */
  type Day = int

  /** A task of a goal. `startDate`/`endDate` are present only when the scheduler
      dated the task at goal creation; tasks added later stay undated. */
  datatype Task = Task(
    id: string,
    title: string,
    duration: int,
    completed: bool,
    startDate: Option<Day>,
    endDate: Option<Day>)

  /** A goal with its calendar span and its ordered tasks; `createdAt` is the
      creation timestamp. */
  datatype Goal = Goal(
    id: string,
    title: string,
    description: string,
    startDate: Day,
    endDate: Day,
    tasks: seq<Task>,
    createdAt: int)

  datatype UserData = UserData(name: string, goals: seq<Goal>)

  /** A task of the goal being drafted: a task without id and without dates. */
  datatype DraftTask = DraftTask(title: string, duration: int, completed: bool)

  /** The "new task" input fields (title and duration in days). */
  datatype TaskForm = TaskForm(title: string, duration: int)

  /** The "new goal" dialog; an empty date field is `None`. */
  datatype Draft = Draft(
    title: string,
    description: string,
    startDate: Option<Day>,
    endDate: Option<Day>,
    tasks: seq<DraftTask>)

  const EmptyTaskForm := TaskForm("", 1)
  const EmptyDraft := Draft("", "", None, None, [])
}
