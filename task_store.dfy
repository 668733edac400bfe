/** The shared store (src/contexts/taskStore.ts): the page of tasks on
    screen, loading and error flags, the status filter and the pagination
    counters, and the actions that call the service and decide what to
    re-fetch. Each action runs to completion; awaits are plain calls. */
module Store {
  import opened Prelude
  import opened TaskModel
  import opened DueOrder
  import opened Paging
  import opened Service

  /** `TASKS_PER_PAGE`. */
  const TasksPerPage: nat := 5

  /** `TaskStatus | 'all'`. */
  datatype StatusFilter = All | Only(status: TaskStatus)

  /** What `error` can hold; the French message text is not modelled. */
  datatype StoreError = FetchFailed | AddFailed | UpdateFailed | UpdateNotFound(id: string) | DeleteFailed

  /** `page || currentPage`: an omitted page and page 0 fall back to the current one. */
  function PageToFetch(page: Option<int>, currentPage: int): int
  {
    if page.None? || page.value == 0 then currentPage else page.value
  }

  /** The page `goToPage(page)` settles on (lines 145-158): `page` itself
      when it exists, otherwise the nearest end, and page 1 when there are
      no pages at all. */
  function ClampPage(page: int, totalPages: nat): (r: int)
    ensures 1 <= r <= Max(totalPages, 1)
    ensures 1 <= page <= totalPages ==> r == page
    ensures page < 1 ==> r == 1
    ensures page > totalPages > 0 ==> r == totalPages
  {
    if 1 <= page <= totalPages then page
    else if page < 1 && totalPages > 0 then 1
    else if page > totalPages && totalPages > 0 then totalPages
    else 1
  }

  /** The page `deleteTask` re-fetches (line 125): the previous one when the
      page on screen held a single task, is not the first, and some task is
      left overall. */
  function DeleteRefetchPage(pageLength: nat, currentPage: int, totalTasks: int): int
  {
    if pageLength == 1 && currentPage > 1 && totalTasks - 1 > 0 then currentPage - 1 else currentPage
  }

  /** `updates.dueDate` is truthy: present and not the empty string. */
  predicate ChangesDueDate(updates: TaskPatch)
  {
    updates.dueDate.Some? && updates.dueDate.value != ""
  }

  /** `{ ...task, ...updatedTask }`: every field of the returned task wins,
      except that a description it lacks leaves the page's own in place. */
  function MergeTask(onPage: Task, returned: Task): Task
  {
    returned.(description := if returned.description.Some? then returned.description else onPage.description)
  }

  /** `tasks.map(task => task.id === id ? { ...task, ...updatedTask } : task)`. */
  function PatchPage(tasks: seq<Task>, id: string, returned: Task): seq<Task>
  {
    seq(|tasks|, k requires 0 <= k < |tasks| => if tasks[k].id == id then MergeTask(tasks[k], returned) else tasks[k])
  }

  /** The in-place patch touches only the entries with the updated id,
      keeps the page's length and order, and when the page's copy of the task
      is the stored one it puts exactly the service's updated record there. */
  lemma PatchPageEffect(tasks: seq<Task>, id: string, stored: Task, updates: TaskPatch, now: string)
    requires stored.id == id
    ensures var r := PatchPage(tasks, id, ApplyPatch(stored, updates, now));
      && |r| == |tasks|
      && (forall k :: 0 <= k < |tasks| && tasks[k].id != id ==> r[k] == tasks[k])
      && (forall k :: 0 <= k < |tasks| && tasks[k] == stored ==> r[k] == ApplyPatch(stored, updates, now))
      && (forall k :: 0 <= k < |tasks| && tasks[k].id == id ==> r[k].id == id && r[k].updatedAt == Some(now))
  {
  }

  /** `selectFilteredTasks`: the whole page for 'all', otherwise the tasks
      with the chosen status, each as often as on the page, in page order. */
  function SelectFilteredTasks(tasks: seq<Task>, filter: StatusFilter): (r: seq<Task>)
    ensures filter.All? ==> r == tasks
    ensures filter.Only? ==> forall t :: multiset(r)[t] == if t.status == filter.status then multiset(tasks)[t] else 0
    ensures SubseqOf(r, tasks)
  {
    if filter.All? then
      assert SubseqOf(tasks, tasks) by { SubseqOfSelf(tasks); }
      tasks
    else
      var p := (t: Task) => t.status == filter.status;
      FilterMultiset(tasks, p);
      FilterIsSubsequence(tasks, p);
      Filter(tasks, p)
  }

  lemma {:induction false} SubseqOfSelf<T>(s: seq<T>)
    ensures SubseqOf(s, s)
  {
    if s != [] { SubseqOfSelf(s[1..]); }
  }

  /** A page that shows a given count of tasks is non-empty exactly when it
      starts before the end of the collection. */
  lemma PageNonEmpty(all: seq<Task>, page: int, limit: int)
    requires limit > 0 && page >= 1
    ensures FetchPage(all, page, limit).tasks != [] <==> (page - 1) * limit < |all|
    ensures |FetchPage(all, page, limit).tasks| == Min(page * limit, |all|) - Min((page - 1) * limit, |all|)
  {
    PageOfSlice(SortByDue(all), page, limit);
    SortByDueLength(all);
    PageBounds(page, limit);
  }

  /** A task shown on a page is a stored task. */
  lemma ShownIsStored(all: seq<Task>, page: int, limit: int, id: string)
    requires limit > 0
    requires HasId(FetchPage(all, page, limit).tasks, id)
    ensures HasId(all, id)
  {
    var shown := FetchPage(all, page, limit).tasks;
    FetchPageShape(all, page, limit);
    var k :| 0 <= k < |shown| && shown[k].id == id;
    assert shown[k] in multiset(all);
    var j :| 0 <= j < |all| && all[j] == shown[k];
  }

  /** The page arithmetic behind the "go back one page" rule: if page `page`
      starts inside a collection of `n > 1` tasks and shows `shownLength` of
      them, the page re-fetched after one deletion starts inside the `n - 1`
      remaining tasks. */
  lemma RefetchPageStartsInside(n: int, page: int, limit: int, shownLength: nat)
    requires limit > 0 && page >= 1 && n > 1
    requires 0 < shownLength == Min(page * limit, n) - Min((page - 1) * limit, n)
    ensures var target := DeleteRefetchPage(shownLength, page, n);
      target >= 1 && (target - 1) * limit < n - 1
  {
    PageBounds(page, limit);
    var target := DeleteRefetchPage(shownLength, page, n);
    if target == page - 1 {
      PageBounds(target, limit);
      assert (target - 1) * limit + limit == (page - 1) * limit;
    }
  }

  /** Page arithmetic of the "go back one page" rule on the responses:
      when page `page` of `all` shows `shownLength > 0` tasks and `rest` has
      one task fewer, the page re-fetched from `rest` is not empty. */
  lemma RefetchedPageNonEmpty(all: seq<Task>, rest: seq<Task>, page: int, limit: int, shownLength: nat)
    requires limit > 0 && page >= 1 && |all| > 1 && |rest| == |all| - 1
    requires 0 < shownLength == |FetchPage(all, page, limit).tasks|
    ensures FetchPage(rest, DeleteRefetchPage(shownLength, page, |all|), limit).tasks != []
  {
    var target := DeleteRefetchPage(shownLength, page, |all|);
    assert shownLength == Min(page * limit, |all|) - Min((page - 1) * limit, |all|) by {
      PageNonEmpty(all, page, limit);
    }
    assert target >= 1 && (target - 1) * limit < |rest| by {
      RefetchPageStartsInside(|all|, page, limit, shownLength);
    }
    PageNonEmpty(rest, target, limit);
  }

  /** The point of the "go back one page" rule: when the task deleted was
      shown on page `page` (in sync with the stored collection) and some task
      remains, the page `deleteTask` re-fetches is not empty. */
  lemma DeleteRefetchShowsTasks(all: seq<Task>, id: string, page: int, limit: int)
    requires limit > 0 && page >= 1
    requires DistinctIds(all) && |all| > 1
    requires HasId(FetchPage(all, page, limit).tasks, id)
    ensures var shown := FetchPage(all, page, limit).tasks;
      FetchPage(RemoveById(all, id), DeleteRefetchPage(|shown|, page, |all|), limit).tasks != []
  {
    var shown := FetchPage(all, page, limit).tasks;
    ShownIsStored(all, page, limit, id);
    RemovePresentDropsOne(all, id);
    RefetchedPageNonEmpty(all, RemoveById(all, id), page, limit, |shown|);
  }

  class TaskStore {
    /** The service the actions call. */
    const svc: TaskService
    var tasks: seq<Task>
    var isLoading: bool
    var error: Option<StoreError>
    var currentFilter: StatusFilter
    var currentPage: int
    var totalPages: nat
    var totalTasks: nat

    /** The counters agree with each other, and the page is never longer
        than `TasksPerPage`. */
    ghost predicate Valid()
      reads this
    {
      totalPages == CeilDiv(totalTasks, TasksPerPage) && |tasks| <= TasksPerPage
    }

    /** The screen shows page `currentPage` of the stored collection. */
    ghost predicate InSync()
      reads this, svc
    {
      && currentPage >= 1
      && tasks == FetchPage(svc.tasks, currentPage, TasksPerPage).tasks
      && totalTasks == |svc.tasks|
    }

    /** The initial state (lines 36-43). */
    constructor (svc: TaskService)
      ensures Valid()
      ensures this.svc == svc && tasks == [] && !isLoading && error == None
      ensures currentFilter == All && currentPage == 1 && totalPages == 0 && totalTasks == 0
    {
      this.svc := svc;
      tasks, isLoading, error := [], false, None;
      currentFilter, currentPage, totalPages, totalTasks := All, 1, 0, 0;
    }

    /** `fetchTasks(page?)` (lines 46-67). */
    method FetchTasks(page: Option<int>)
      requires Valid()
      modifies this
      ensures Valid() && !isLoading && currentFilter == old(currentFilter)
      ensures var p := PageToFetch(page, old(currentPage));
        if svc.storageThrows then
          && error == Some(FetchFailed) && tasks == old(tasks) && currentPage == old(currentPage)
          && totalPages == old(totalPages) && totalTasks == old(totalTasks)
        else
          var response := FetchPage(svc.tasks, p, TasksPerPage);
          && error == None && tasks == response.tasks && currentPage == p
          && totalPages == response.totalPages && totalTasks == response.totalCount
          && totalTasks == |svc.tasks|
    {
      var pageToFetch := PageToFetch(page, currentPage);
      isLoading, error := true, None;
      var reply := svc.FetchTasks(pageToFetch, TasksPerPage);
      match reply {
        case Ok(response) =>
          tasks, currentPage := response.tasks, response.currentPage;
          totalPages, totalTasks := response.totalPages, response.totalCount;
          isLoading := false;
        case Rejected =>
          error, isLoading := Some(FetchFailed), false;
      }
    }

    /** `fetchTasks(page?)` (lines 46-67) over the service as written, whose
        promise never settles when the storage throws (`SettleAsWritten`):
        the store stays loading with no error, and its `catch` never runs. */
    method FetchTasksAsWritten(page: Option<int>)
      requires Valid()
      modifies this
      ensures currentFilter == old(currentFilter)
      ensures svc.storageThrows ==>
        && isLoading && error == None && tasks == old(tasks) && currentPage == old(currentPage)
        && totalPages == old(totalPages) && totalTasks == old(totalTasks)
      ensures !svc.storageThrows ==>
        var response := FetchPage(svc.tasks, PageToFetch(page, old(currentPage)), TasksPerPage);
        && Valid() && !isLoading && error == None && tasks == response.tasks
        && currentPage == response.currentPage && totalTasks == |svc.tasks|
    {
      var pageToFetch := PageToFetch(page, currentPage);
      isLoading, error := true, None;
      var response := FetchPage(svc.tasks, pageToFetch, TasksPerPage);
      FetchPageShape(svc.tasks, pageToFetch, TasksPerPage);
      ResumeFetch(SettleAsWritten(svc.storageThrows, response));
    }

    /** Lines 50-64 once the awaited promise has ended as `outcome`; `None`
        is a promise that never settles, after which nothing more runs. */
    method ResumeFetch(outcome: Option<Reply<PaginatedTasksResponse>>)
      modifies this
      ensures currentFilter == old(currentFilter)
      ensures outcome == None ==>
        && isLoading == old(isLoading) && error == old(error)
        && tasks == old(tasks) && currentPage == old(currentPage)
        && totalPages == old(totalPages) && totalTasks == old(totalTasks)
      ensures outcome == Some(Rejected) ==>
        && !isLoading && error == Some(FetchFailed)
        && tasks == old(tasks) && currentPage == old(currentPage)
        && totalPages == old(totalPages) && totalTasks == old(totalTasks)
      ensures outcome.Some? && outcome.value.Ok? ==>
        var response := outcome.value.value;
        && !isLoading && error == old(error)
        && tasks == response.tasks && currentPage == response.currentPage
        && totalPages == response.totalPages && totalTasks == response.totalCount
    {
      match outcome {
        case None =>
        case Some(Ok(response)) =>
          tasks, currentPage := response.tasks, response.currentPage;
          totalPages, totalTasks := response.totalPages, response.totalCount;
          isLoading := false;
        case Some(Rejected) =>
          error, isLoading := Some(FetchFailed), false;
      }
    }

    /** `addTask(data)` (lines 69-85): create, then fetch page 1, then fetch
        the current page, which the first fetch has just set to 1. */
    method AddTask(data: NewTaskData, freshId: string, now: string) returns (created: Option<Task>)
      requires Valid()
      requires !HasId(svc.tasks, freshId)
      modifies this, svc
      ensures Valid() && !isLoading && currentFilter == old(currentFilter)
      ensures DistinctIds(old(svc.tasks)) ==> DistinctIds(svc.tasks)
      ensures svc.storageThrows ==>
        && created == None && error == Some(AddFailed) && svc.tasks == old(svc.tasks)
        && tasks == old(tasks) && currentPage == old(currentPage)
        && totalPages == old(totalPages) && totalTasks == old(totalTasks)
      ensures !svc.storageThrows ==>
        && created == Some(NewTask(data, freshId, now))
        && svc.tasks == old(svc.tasks) + [created.value]
        && error == None && currentPage == 1 && InSync()
    {
      isLoading, error := true, None;
      var reply := svc.CreateTask(data, freshId, now);
      match reply {
        case Ok(newTask) =>
          FetchTasks(Some(1));
          FetchTasks(Some(currentPage));
          created := Some(newTask);
        case Rejected =>
          error, isLoading := Some(AddFailed), false;
          created := None;
      }
    }

    /** `updateTask(id, updates)` (lines 87-116): patch the page in place,
        and re-fetch the current page only when the due date was changed. */
    method UpdateTask(id: string, updates: TaskPatch, now: string) returns (updated: Option<Task>)
      requires Valid()
      modifies this, svc
      ensures Valid() && !isLoading && currentFilter == old(currentFilter)
      ensures DistinctIds(old(svc.tasks)) ==> DistinctIds(svc.tasks)
      ensures svc.storageThrows ==>
        && updated == None && error == Some(UpdateFailed) && svc.tasks == old(svc.tasks)
        && tasks == old(tasks) && currentPage == old(currentPage)
        && totalPages == old(totalPages) && totalTasks == old(totalTasks)
      ensures !svc.storageThrows && !HasId(old(svc.tasks), id) ==>
        && updated == None && error == Some(UpdateNotFound(id)) && svc.tasks == old(svc.tasks)
        && tasks == old(tasks) && currentPage == old(currentPage)
        && totalPages == old(totalPages) && totalTasks == old(totalTasks)
      ensures !svc.storageThrows && HasId(old(svc.tasks), id) ==>
        var i := FindIndex(old(svc.tasks), id);
        var u := ApplyPatch(old(svc.tasks)[i], updates, now);
        && updated == Some(u) && error == None
        && svc.tasks == old(svc.tasks)[i := u]
        && currentPage == old(currentPage)
        && (ChangesDueDate(updates) ==>
              tasks == FetchPage(svc.tasks, currentPage, TasksPerPage).tasks && totalTasks == |svc.tasks|)
        && (!ChangesDueDate(updates) ==>
              tasks == PatchPage(old(tasks), id, u)
              && totalPages == old(totalPages) && totalTasks == old(totalTasks))
    {
      isLoading, error := true, None;
      var reply := svc.UpdateTask(id, updates, now);
      match reply {
        case Ok(Some(updatedTask)) =>
          tasks := PatchPage(tasks, id, updatedTask);
          isLoading := false;
          if ChangesDueDate(updates) {
            FetchTasks(Some(currentPage));
          }
          updated := Some(updatedTask);
        case Ok(None) =>
          error, isLoading := Some(UpdateNotFound(id)), false;
          updated := None;
        case Rejected =>
          error, isLoading := Some(UpdateFailed), false;
          updated := None;
      }
    }

    /** `deleteTask(id)` (lines 118-136): delete, then re-fetch the previous
        page if the page on screen is about to become empty, else this one.
        When the store was in sync, `DeleteRefetchShowsTasks` shows that the
        page re-fetched here is not empty while any task remains. */
    method DeleteTask(id: string)
      requires Valid()
      modifies this, svc
      ensures Valid() && !isLoading && currentFilter == old(currentFilter)
      ensures DistinctIds(old(svc.tasks)) ==> DistinctIds(svc.tasks)
      ensures svc.storageThrows ==>
        && error == Some(DeleteFailed) && svc.tasks == old(svc.tasks)
        && tasks == old(tasks) && currentPage == old(currentPage)
        && totalPages == old(totalPages) && totalTasks == old(totalTasks)
      ensures !svc.storageThrows ==>
        var target := DeleteRefetchPage(|old(tasks)|, old(currentPage), old(totalTasks));
        && svc.tasks == RemoveById(old(svc.tasks), id)
        && error == None && currentPage == target
        && tasks == FetchPage(svc.tasks, target, TasksPerPage).tasks
        && totalTasks == |svc.tasks|
    {
      ghost var stored := svc.tasks;
      isLoading, error := true, None;
      var reply := svc.DeleteTask(id);
      ghost var remaining := svc.tasks;
      assert DistinctIds(stored) ==> DistinctIds(remaining);
      match reply {
        case Ok(_) =>
          var target := DeleteRefetchPage(|tasks|, currentPage, totalTasks);
          FetchTasks(Some(target));
          assert svc.tasks == remaining;
        case Rejected =>
          error, isLoading := Some(DeleteFailed), false;
      }
    }

    /** `setFilter(filter)` (lines 138-141). */
    method SetFilter(filter: StatusFilter)
      requires Valid()
      modifies this
      ensures Valid() && !isLoading
      ensures currentFilter == filter && currentPage == 1
      ensures svc.storageThrows ==>
        && error == Some(FetchFailed) && tasks == old(tasks)
        && totalPages == old(totalPages) && totalTasks == old(totalTasks)
      ensures !svc.storageThrows ==> error == None && InSync()
    {
      currentFilter, currentPage := filter, 1;
      FetchTasks(Some(1));
    }

    /** `goToPage(page)` (lines 143-159). */
    method GoToPage(page: int)
      requires Valid()
      modifies this
      ensures Valid() && !isLoading && currentFilter == old(currentFilter)
      ensures currentPage == ClampPage(page, old(totalPages))
      ensures svc.storageThrows ==>
        && error == Some(FetchFailed) && tasks == old(tasks)
        && totalPages == old(totalPages) && totalTasks == old(totalTasks)
      ensures !svc.storageThrows ==> error == None && InSync()
    {
      if 1 <= page <= totalPages {
        currentPage := page;
        FetchTasks(Some(page));
      } else if page < 1 && totalPages > 0 {
        currentPage := 1;
        FetchTasks(Some(1));
      } else if page > totalPages && totalPages > 0 {
        currentPage := totalPages;
        FetchTasks(Some(totalPages));
      } else if totalPages == 0 {
        currentPage := 1;
        FetchTasks(Some(1));
      }
    }
  }
}
