/** The single domain entity of the task manager (src/models/task.model.ts). */
module TaskModel {
  import opened Prelude

  /** The three statuses; the source spells them 'À faire', 'En cours' and 'Terminée'. */
  datatype TaskStatus = ToDo | InProgress | Completed

  /** A to-do record as it is stored. `dueDate` is an ISO `yyyy-MM-dd` string,
      and the empty string is the falsy "no date". Timestamps are ISO
      datetime strings supplied by the caller. */
  datatype Task = Task(
    id: string,
    title: string,
    description: Option<string>,
    dueDate: string,
    status: TaskStatus,
    createdAt: string,
    updatedAt: Option<string>)

  /** No two stored tasks share an id (what `uuidv4()` provides). */
  predicate DistinctIds(s: seq<Task>)
  {
    forall i, j :: 0 <= i < j < |s| ==> s[i].id != s[j].id
  }

  /** Some task of `s` carries `id`. */
  predicate HasId(s: seq<Task>, id: string)
  {
    exists k :: 0 <= k < |s| && s[k].id == id
  }
}
