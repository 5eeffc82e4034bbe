/** The schedule record the planner's core works on. */
module Tasks {

  /**
    One item of a schedule: a task from the user's to-do list
    (`isUserTask`) or an existing calendar event. `eisenhowerCategory`
    is free text and only meaningful for user tasks.
   */
  datatype Task = Task(
    description: string,
    startTime: string,
    endTime: string,
    isUserTask: bool,
    eisenhowerCategory: string)
}
