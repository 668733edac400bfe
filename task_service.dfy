/** The storage-backed service layer (src/services/taskService.ts). The
    collection stored under 'appTaskManager.tasks' is the `tasks` field of
    `TaskService`; every operation reads it whole and, if it changes it,
    writes it back whole. Ids and timestamps come in as parameters. */
module Service {
  import opened Prelude
  import opened TaskModel
  import opened DueOrder
  import opened Paging

  /** How a service promise ends for the caller that awaits it. */
  datatype Reply<+T> = Ok(value: T) | Rejected

  /** As written, each operation does its work inside a `setTimeout`
      callback that only ever calls `resolve`. An exception thrown there
      (by `localStorage.getItem` or `setItem`) escapes to the event loop and
      the promise never settles: `None` below. */
  function SettleAsWritten<T>(storageThrows: bool, value: T): Option<Reply<T>>
  {
    if storageThrows then None else Some(Ok(value))
  }

  /** As written, no storage failure ever reaches an awaiting caller as a
      rejection: a throwing storage leaves the promise pending for good. */
  lemma StorageFaultNeverRejects<T>(value: T, storageThrows: bool)
    ensures SettleAsWritten(storageThrows, value) != Some(Rejected)
    ensures storageThrows ==> SettleAsWritten(storageThrows, value) == None
  {
  }

  /** The evidently intended behaviour, used by `TaskService`: a storage
      failure rejects the promise, and nothing is written. */
  function Settle<T>(storageThrows: bool, value: T): (r: Reply<T>)
    ensures r.Rejected? <==> storageThrows
    ensures r.Ok? ==> r.value == value
  {
    if storageThrows then Rejected else Ok(value)
  }

  /** `Pick<Task, 'title' | 'description' | 'dueDate'>`. */
  datatype NewTaskData = NewTaskData(title: string, description: Option<string>, dueDate: string)

  /** The record `createTask` builds (lines 80-87); `description || undefined`
      turns an empty description into an absent one. */
  function NewTask(data: NewTaskData, id: string, now: string): Task
  {
    Task(id, data.title, if data.description == Some("") then None else data.description,
         data.dueDate, ToDo, now, None)
  }

  /** `Partial<Omit<Task, 'id' | 'createdAt'>>`: `Some` marks a field that is
      present in the update object. */
  datatype TaskPatch = TaskPatch(
    title: Option<string>,
    description: Option<string>,
    dueDate: Option<string>,
    status: Option<TaskStatus>)

  /** A field of the update object when present, else the record's own. */
  function PatchField<T>(update: Option<T>, current: T): T
  {
    if update.Some? then update.value else current
  }

  /** `{ ...current, ...updates, updatedAt: now }` (lines 108-112). */
  function ApplyPatch(t: Task, p: TaskPatch, now: string): Task
  {
    Task(t.id, PatchField(p.title, t.title),
         if p.description.Some? then p.description else t.description,
         PatchField(p.dueDate, t.dueDate), PatchField(p.status, t.status), t.createdAt, Some(now))
  }

  /** Applying the same update twice at the same instant changes nothing more. */
  lemma ApplyPatchIdempotent(t: Task, p: TaskPatch, now: string)
    ensures ApplyPatch(ApplyPatch(t, p, now), p, now) == ApplyPatch(t, p, now)
  {
  }

  /** `tasks.findIndex(t => t.id === id)`: the first index carrying `id`, or -1. */
  function FindIndex(s: seq<Task>, id: string): (i: int)
    ensures -1 <= i < |s|
    ensures i == -1 <==> !HasId(s, id)
    ensures i >= 0 ==> s[i].id == id && forall k :: 0 <= k < i ==> s[k].id != id
  {
    if s == [] then -1
    else if s[0].id == id then 0
    else
      var j := FindIndex(s[1..], id);
      if j == -1 then -1 else j + 1
  }

  /** `tasks.find(t => t.id === id)`. */
  function FindById(s: seq<Task>, id: string): (r: Option<Task>)
    ensures r.None? <==> !HasId(s, id)
    ensures r.Some? ==> r.value in s && r.value.id == id
    ensures DistinctIds(s) ==> forall k :: 0 <= k < |s| && s[k].id == id ==> r == Some(s[k])
  {
    var i := FindIndex(s, id);
    if i < 0 then None else Some(s[i])
  }

  /** `tasks.filter(t => t.id !== id)`: every other task, each once, in order. */
  function RemoveById(s: seq<Task>, id: string): (r: seq<Task>)
    ensures forall t :: multiset(r)[t] == if t.id != id then multiset(s)[t] else 0
    ensures SubseqOf(r, s)
    ensures !HasId(r, id)
  {
    var p := (t: Task) => t.id != id;
    FilterMultiset(s, p);
    FilterIsSubsequence(s, p);
    Filter(s, p)
  }

  /** Deleting an id that is not stored is a no-op. */
  lemma RemoveAbsentIsNoop(s: seq<Task>, id: string)
    requires !HasId(s, id)
    ensures RemoveById(s, id) == s
  {
    FilterKeepsAll(s, (t: Task) => t.id != id);
  }

  /** Deleting the same id twice is the same as deleting it once. */
  lemma RemoveIdempotent(s: seq<Task>, id: string)
    ensures RemoveById(RemoveById(s, id), id) == RemoveById(s, id)
  {
    RemoveAbsentIsNoop(RemoveById(s, id), id);
  }

  lemma TailDistinct(s: seq<Task>)
    requires s != [] && DistinctIds(s)
    ensures DistinctIds(s[1..])
    ensures forall t :: t in s[1..] ==> t.id != s[0].id
  {
    var rest := s[1..];
    forall i, j | 0 <= i < j < |rest| ensures rest[i].id != rest[j].id {
      assert rest[i] == s[i + 1] && rest[j] == s[j + 1];
    }
    forall k | 0 <= k < |rest| ensures rest[k].id != s[0].id {
      assert rest[k] == s[k + 1];
    }
  }

  /** Putting a task in front of a list with distinct ids, none of them its
      own, keeps the ids distinct. */
  lemma ConsDistinct(x: Task, tail: seq<Task>)
    requires DistinctIds(tail)
    requires forall t :: t in tail ==> t.id != x.id
    ensures DistinctIds([x] + tail)
  {
    var r := [x] + tail;
    forall i, j | 0 <= i < j < |r| ensures r[i].id != r[j].id {
      assert r[j] == tail[j - 1];
      if i > 0 {
        assert r[i] == tail[i - 1];
      }
    }
  }

  lemma {:induction false} FilterKeepsDistinct(s: seq<Task>, p: Task -> bool)
    requires DistinctIds(s)
    ensures DistinctIds(Filter(s, p))
  {
    if s != [] {
      var rest := s[1..];
      TailDistinct(s);
      FilterKeepsDistinct(rest, p);
      if p(s[0]) {
        var tail := Filter(rest, p);
        assert Filter(s, p) == [s[0]] + tail;
        assert forall t :: t in tail ==> t in rest;
        ConsDistinct(s[0], tail);
      }
    }
  }

  /** Deleting never makes two records share an id. */
  lemma RemoveKeepsDistinct(s: seq<Task>, id: string)
    requires DistinctIds(s)
    ensures DistinctIds(RemoveById(s, id))
  {
    FilterKeepsDistinct(s, (t: Task) => t.id != id);
  }

  /** Deleting from a non-empty list: the head stays unless it carries `id`. */
  lemma RemoveByIdCons(s: seq<Task>, id: string)
    requires s != []
    ensures |RemoveById(s, id)| == (if s[0].id != id then 1 else 0) + |RemoveById(s[1..], id)|
    ensures HasId(s, id) <==> s[0].id == id || HasId(s[1..], id)
  {
    if HasId(s, id) && s[0].id != id {
      var k :| 0 <= k < |s| && s[k].id == id;
      assert s[1..][k - 1] == s[k];
    }
    if HasId(s[1..], id) {
      var k :| 0 <= k < |s[1..]| && s[1..][k].id == id;
      assert s[k + 1] == s[1..][k];
    }
  }

  /** With distinct ids, deleting a stored id removes exactly one record. */
  lemma {:induction false} RemovePresentDropsOne(s: seq<Task>, id: string)
    requires DistinctIds(s)
    ensures HasId(s, id) ==> |RemoveById(s, id)| == |s| - 1
    ensures !HasId(s, id) ==> |RemoveById(s, id)| == |s|
  {
    if s != [] {
      var rest := s[1..];
      TailDistinct(s);
      RemovePresentDropsOne(rest, id);
      RemoveByIdCons(s, id);
    }
  }

  /** Whether the collection's ids are distinct is kept by writing task `u`
      at index `i` when `u` keeps that record's id. */
  lemma ReplaceKeepsDistinct(s: seq<Task>, i: int, u: Task)
    requires 0 <= i < |s| && u.id == s[i].id
    ensures DistinctIds(s) ==> DistinctIds(s[i := u])
  {
  }

  class TaskService {
    /** The collection stored under 'appTaskManager.tasks'. */
    var tasks: seq<Task>
    /** Whether the storage medium throws when it is read or written. */
    const storageThrows: bool

    constructor (stored: seq<Task>, storageThrows: bool)
      ensures tasks == stored && this.storageThrows == storageThrows
    {
      tasks := stored;
      this.storageThrows := storageThrows;
    }

    /** `fetchTasks(page, limit)`: sort a copy, count, cut out one page. */
    method FetchTasks(page: int, limit: int) returns (r: Reply<PaginatedTasksResponse>)
      requires limit > 0
      ensures r.Rejected? <==> storageThrows
      ensures r.Ok? ==> r.value == FetchPage(tasks, page, limit)
      ensures r.Ok? ==> |r.value.tasks| <= limit && Sorted(r.value.tasks)
      ensures r.Ok? ==> r.value.totalCount == |tasks| && r.value.currentPage == page
    {
      if storageThrows {
        return Rejected;
      }
      var allTasks := SortByDue(tasks);
      var totalCount := |allTasks|;
      var totalPages := CeilDiv(totalCount, limit);
      var startIndex := (page - 1) * limit;
      var endIndex := startIndex + limit;
      var paginatedTasks := JsSlice(allTasks, startIndex, endIndex);
      r := Ok(PaginatedTasksResponse(paginatedTasks, totalCount, page, totalPages));
      FetchPageShape(tasks, page, limit);
    }

    /** `getTaskById(id)`. */
    method GetTaskById(id: string) returns (r: Reply<Option<Task>>)
      ensures r.Rejected? <==> storageThrows
      ensures r.Ok? ==> r.value == FindById(tasks, id)
    {
      r := Settle(storageThrows, FindById(tasks, id));
    }

    /** `createTask(data)`: append one new record. `freshId` stands for
        `uuidv4()` and `now` for the current ISO timestamp. */
    method CreateTask(data: NewTaskData, freshId: string, now: string) returns (r: Reply<Task>)
      requires !HasId(tasks, freshId)
      modifies this
      ensures storageThrows ==> r == Rejected && tasks == old(tasks)
      ensures !storageThrows ==> r == Ok(NewTask(data, freshId, now)) && tasks == old(tasks) + [r.value]
      ensures r.Ok? ==>
        && r.value.id == freshId && r.value.status == ToDo && r.value.title == data.title
        && r.value.dueDate == data.dueDate && r.value.createdAt == now && r.value.updatedAt == None
        && (r.value.description == None <==> data.description in {None, Some("")})
      ensures DistinctIds(old(tasks)) ==> DistinctIds(tasks)
    {
      if storageThrows {
        return Rejected;
      }
      var newTask := NewTask(data, freshId, now);
      tasks := tasks + [newTask];
      r := Ok(newTask);
    }

    /** `updateTask(id, updates)`: merge the update into the first record
        with that id and stamp `updatedAt`; not-found leaves storage alone. */
    method UpdateTask(id: string, updates: TaskPatch, now: string) returns (r: Reply<Option<Task>>)
      modifies this
      ensures storageThrows ==> r == Rejected && tasks == old(tasks)
      ensures !storageThrows && !HasId(old(tasks), id) ==> r == Ok(None) && tasks == old(tasks)
      ensures !storageThrows && HasId(old(tasks), id) ==>
        var i := FindIndex(old(tasks), id);
        && r == Ok(Some(ApplyPatch(old(tasks)[i], updates, now)))
        && tasks == old(tasks)[i := r.value.value]
      ensures r.Ok? && r.value.Some? ==>
        var u, t := r.value.value, old(tasks)[FindIndex(old(tasks), id)];
        && u.id == id && u.createdAt == t.createdAt && u.updatedAt == Some(now)
        && (updates.title.Some? ==> u.title == updates.title.value)
        && (updates.description.Some? ==> u.description == updates.description)
        && (updates.dueDate.Some? ==> u.dueDate == updates.dueDate.value)
        && (updates.status.Some? ==> u.status == updates.status.value)
      ensures DistinctIds(old(tasks)) ==> DistinctIds(tasks)
    {
      if storageThrows {
        return Rejected;
      }
      var taskIndex := FindIndex(tasks, id);
      if taskIndex == -1 {
        return Ok(None);
      }
      var updatedTask := ApplyPatch(tasks[taskIndex], updates, now);
      ReplaceKeepsDistinct(tasks, taskIndex, updatedTask);
      tasks := tasks[taskIndex := updatedTask];
      r := Ok(Some(updatedTask));
    }

    /** `deleteTask(id)`: keep every record with another id. */
    method DeleteTask(id: string) returns (r: Reply<()>)
      modifies this
      ensures storageThrows ==> r == Rejected && tasks == old(tasks)
      ensures !storageThrows ==> r == Ok(()) && tasks == RemoveById(old(tasks), id)
      ensures DistinctIds(old(tasks)) ==> DistinctIds(tasks)
    {
      if storageThrows {
        return Rejected;
      }
      if DistinctIds(tasks) {
        RemoveKeepsDistinct(tasks, id);
      }
      tasks := RemoveById(tasks, id);
      r := Ok(());
    }
  }
}
