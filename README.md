# Task manager core in Dafny

A model of the logic of a small React to-do application. It covers four parts:

- the `Task` record and its three statuses;
- the storage-backed service: list one page of tasks sorted by due date, find, create, update and delete tasks;
- the shared store: the page on screen, loading and error flags, the status filter and the pagination counters, and the actions that call the service and decide which page to fetch again;
- the pagination control: the list of page buttons with ellipsis markers, and the previous/next guards.

Modules, one file each:

| module | file | models |
|---|---|---|
| `Prelude` | prelude.dfy | `Option`, `Min`/`Max`, an order-preserving `Filter` and its lemmas |
| `TaskModel` | task_model.dfy | `Task`, `TaskStatus`, distinct ids |
| `DueOrder` | due_order.dfy | the due-date sort key, its order, the stable sort |
| `Paging` | paging.dfy | `Math.ceil`, `Array.prototype.slice`, the page a fetch returns |
| `Service` | task_service.dfy | class `TaskService`, whose `tasks` field is the stored collection |
| `Store` | task_store.dfy | class `TaskStore`, whose fields are the store's state |
| `PaginationControls` | pagination_controls.dfy | the page-number list, built by loops, and the arrow guards |

Ids (`uuidv4()`) and timestamps (`new Date().toISOString()`) are method parameters: `CreateTask` takes `freshId` and `now`, and `UpdateTask` takes `now`. Whether the storage medium throws is the constructor argument `storageThrows` of `TaskService`. Each store action runs to completion: an `await` is a plain call.

A due date is kept as its `yyyy-MM-dd` string and compared character by character. For well-formed dates this is the order of `new Date(d).getTime()`. The empty string is the falsy "no date", and it sorts after every date.

Page 0 and pages past the last one come back empty. A negative page, however, reaches `slice` as a negative start, and `slice` counts it from the end of the list. `Paging.NegativePageCountsFromEnd` shows it on an example and `Paging.NegativePageBounds` for every negative page. The store itself never asks for a negative page.

## Model

| member | source | states |
|---|---|---|
| DueOrder.KeyLeTotal | src/services/taskService.ts:38-45 | any two due-date keys are comparable, so the comparator orders every pair of tasks |
| DueOrder.KeyLeTransitive | src/services/taskService.ts:38-45 | the comparator's order is transitive, undated tasks (+infinity) included |
| DueOrder.LexLeAntisymmetric | src/services/taskService.ts:40-42 | two dates that each sort no later than the other are the same date |
| DueOrder.SortByDue | src/services/taskService.ts:37-38 | sorting keeps the length and is a permutation of the stored list |
| DueOrder.SortByDueSorted | src/services/taskService.ts:38-46 | the sorted list is ascending by due date |
| DueOrder.SortByDueStable | src/services/taskService.ts:38-46 | tasks with equal keys (same date, or both undated) keep their stored order |
| DueOrder.UndatedLast | src/services/taskService.ts:40-41 | in a sorted list every undated task comes after every dated one |
| Paging.CeilDivBounds | src/services/taskService.ts:49 | `totalPages` is the least page count whose pages hold all tasks, and 0 for no tasks |
| Paging.RelativeIndex | src/services/taskService.ts:52 | a `slice` index lands in `[0, length]`, and a non-negative one is clamped to the length |
| Paging.JsSlice | src/services/taskService.ts:52 | `slice(start, end)` has at most `end - start` elements, and for `0 <= start <= end` it is the clamped sub-sequence |
| Paging.FetchPageTotals | src/services/taskService.ts:48-58 | whatever the page, `totalCount` is the stored length, `currentPage` echoes the request, `totalPages` is `ceil(totalCount / limit)` |
| Paging.FetchPageSlice | src/services/taskService.ts:50-52 | for page >= 1 the page is exactly `sorted[(page-1)*limit .. min(page*limit, n))` |
| Paging.FetchPageShape | src/services/taskService.ts:37-55 | every page has at most `limit` tasks, is sorted, and holds only stored tasks |
| Paging.FetchPageOutOfRange | src/services/taskService.ts:50-58 | page 0 and pages past the last one come back empty with the same totals |
| Paging.NegativePageCountsFromEnd | src/services/taskService.ts:50-52 | with 12 tasks and limit 5, page -1 returns the 3rd to 7th sorted tasks, not an empty page |
| Paging.PageOfSlice | src/services/taskService.ts:50-52 | page `p >= 1` of a list is its items `(p-1)*limit .. min(p*limit, n)`: the `p`-th run of `limit`, shorter at the end, empty past it |
| Paging.NegativePageBounds | src/services/taskService.ts:50-52 | any page `<= -1` holds the items from `n + (page-1)*limit` to `n + page*limit`, both clamped at 0: `slice` counts negative bounds from the end |
| Paging.PagesThroughPrefix | src/services/taskService.ts:48-52 | pages 1 to k of the sorted list (what fetches 1 to k return), concatenated, are its first `min(k*limit, n)` tasks |
| Paging.AllPagesRebuildSortedList | src/services/taskService.ts:48-52 | pages 1 to `totalPages`, concatenated, are the whole sorted list: every task exactly once |
| Paging.LastPageLength | src/services/taskService.ts:48-52 | the last page of a non-empty sorted list holds `totalCount - (totalPages - 1) * limit` tasks |
| Service.StorageFaultNeverRejects | src/services/taskService.ts:35-61 | as written, a throwing storage never rejects the promise: the promise stays pending |
| Service.Settle | src/services/taskService.ts:35-61 | corrected: a storage fault rejects the promise, otherwise it resolves with the value |
| Service.TaskService.FetchTasks | src/services/taskService.ts:34-62 | rejects exactly on a storage fault; otherwise returns the page of the stored list, at most `limit` sorted tasks with the totals |
| Service.FindIndex | src/services/taskService.ts:102 | -1 exactly when no task has the id; otherwise the first index with that id |
| Service.FindById | src/services/taskService.ts:68 | absent exactly when no task has the id; otherwise a stored task with that id, the only one when ids are distinct |
| Service.TaskService.GetTaskById | src/services/taskService.ts:64-72 | rejects exactly on a storage fault; otherwise the first stored task with the id, if any |
| Service.TaskService.CreateTask | src/services/taskService.ts:74-93 | appends exactly one task: the given title and due date, status ToDo, the fresh id, `createdAt` now, no `updatedAt`, an empty description made absent; ids stay distinct |
| Service.TaskService.UpdateTask | src/services/taskService.ts:95-119 | not found: nothing written; found: only the first matching index changes, keeping id and `createdAt`, taking each given field and stamping `updatedAt` |
| Service.ApplyPatchIdempotent | src/services/taskService.ts:108-112 | applying the same update twice at the same instant equals applying it once |
| Service.ReplaceKeepsDistinct | src/services/taskService.ts:113-114 | writing the updated record back at its index keeps ids distinct |
| Service.TaskService.DeleteTask | src/services/taskService.ts:121-130 | the stored list becomes the tasks with another id, in order; ids stay distinct |
| Service.RemoveById | src/services/taskService.ts:125 | keeps every task with another id exactly as often as before, in order, and none with the id |
| Service.RemoveAbsentIsNoop | src/services/taskService.ts:125 | deleting an id that is not stored changes nothing |
| Service.RemoveIdempotent | src/services/taskService.ts:125 | deleting the same id twice equals deleting it once |
| Service.RemoveKeepsDistinct | src/services/taskService.ts:125 | deleting never makes two tasks share an id |
| Service.RemovePresentDropsOne | src/services/taskService.ts:125 | with distinct ids, deleting a stored id removes exactly one task, and an absent id removes none |
| Store.TaskStore.constructor | src/contexts/taskStore.ts:36-43 | the initial state: no tasks, not loading, no error, filter 'all', page 1, no pages |
| Store.TaskStore.FetchTasks | src/contexts/taskStore.ts:46-67 | fetches the given page, or the current one when the page is omitted or 0; success takes tasks, page and totals from the response; failure sets the error and keeps the page; loading is always cleared |
| Store.TaskStore.ResumeFetch | src/contexts/taskStore.ts:50-64 | what runs once the awaited fetch ends: a response sets tasks, page and totals and clears loading; a rejection sets the error, clears loading and keeps the rest; a promise that never settles changes nothing |
| Store.TaskStore.FetchTasksAsWritten | src/contexts/taskStore.ts:46-64 | over the service as written, a storage fault leaves the store loading, with no error and the old page and totals; without a fault it behaves as `FetchTasks` |
| Store.TaskStore.AddTask | src/contexts/taskStore.ts:69-85 | on success the new task is appended to storage and the store shows page 1 of it; on failure the error is set and nothing changes |
| Store.TaskStore.UpdateTask | src/contexts/taskStore.ts:87-116 | fault: error, nothing changes; not found: not-found error, nothing changes; found: the page is patched in place, and re-fetched only when the due date was given non-empty |
| Store.PatchPageEffect | src/contexts/taskStore.ts:92-97 | the in-place patch keeps the length and every other entry, and puts the service's updated record where the page held the stored one |
| Store.TaskStore.DeleteTask | src/contexts/taskStore.ts:118-136 | on success storage loses the id, and the store shows the page chosen from the page length, current page and count it had before the deletion; on failure the error is set and nothing changes; ids stay distinct |
| Store.RefetchPageStartsInside | src/contexts/taskStore.ts:125 | after one deletion, the page chosen for the re-fetch starts inside the remaining tasks |
| Store.DeleteRefetchShowsTasks | src/contexts/taskStore.ts:123-129 | with distinct ids, deleting a task shown on a page leaves the re-fetched page non-empty whenever a task remains |
| Store.TaskStore.SetFilter | src/contexts/taskStore.ts:138-141 | sets the filter and page 1, then shows page 1; a fault sets the error and keeps the tasks and totals |
| Store.ClampPage | src/contexts/taskStore.ts:143-159 | the page `goToPage` settles on: the page itself in `[1, totalPages]`, else the nearest end, and 1 with no pages |
| Store.TaskStore.GoToPage | src/contexts/taskStore.ts:143-159 | the current page becomes the clamped page and that page is fetched; a fault sets the error and keeps the tasks and totals |
| Store.SelectFilteredTasks | src/contexts/taskStore.ts:162-167 | 'all' gives the page unchanged; a status gives exactly the tasks with that status, in page order |
| PaginationControls.Range | src/components/ui/PaginationControls/PaginationControls.tsx:39-41 | the consecutive pages `lo..hi`, one per position |
| PaginationControls.Window | src/components/ui/PaginationControls/PaginationControls.tsx:43-48 | the window's first and last page, as the three statements compute them |
| PaginationControls.PushRange | src/components/ui/PaginationControls/PaginationControls.tsx:57-59 | the `for` loop (also lines 39-41) appends exactly the pages `lo..hi` to the list, in order (nothing when `lo > hi`) |
| PaginationControls.PageNumbers | src/components/ui/PaginationControls/PaginationControls.tsx:19-67 | the loops build exactly the page list: nothing for one page, every page up to five, else 1, window and last page with ellipses |
| PaginationControls.WindowOfFive | src/components/ui/PaginationControls/PaginationControls.tsx:43-48 | with more than five pages the window spans exactly five pages inside `[1, totalPages]` and contains the current page |
| PaginationControls.ShortListShowsEveryPage | src/components/ui/PaginationControls/PaginationControls.tsx:38-41 | with 2 to 5 pages the list is exactly `1..totalPages` |
| PaginationControls.ListEndsAtFirstAndLastPage | src/components/ui/PaginationControls/PaginationControls.tsx:50-65 | a rendered list starts with page 1 and ends with the last page |
| PaginationControls.EllipsisExactlyAtGaps | src/components/ui/PaginationControls/PaginationControls.tsx:50-65 | an ellipsis follows page 1 exactly when the window starts after 2, and precedes the last page exactly when the window ends before `totalPages - 1` |
| PaginationControls.ListIsOrderedWithGapsMarked | src/components/ui/PaginationControls/PaginationControls.tsx:50-65 | entries are pages in `[1, totalPages]` or ellipses; pages strictly increase; neighbouring pages are consecutive; an ellipsis always sits between two non-consecutive pages |
| PaginationControls.ListShowsCurrentPage | src/components/ui/PaginationControls/PaginationControls.tsx:43-59 | the current page is always one of the buttons |
| PaginationControls.NavigationStaysInRange | src/components/ui/PaginationControls/PaginationControls.tsx:23-33 | "previous" asks for `currentPage - 1` exactly when it exists, "next" for `currentPage + 1` exactly when it exists, both inside `[1, totalPages]` |
| PaginationControls.RequestsAreKeptByGoToPage | src/components/ui/PaginationControls/PaginationControls.tsx:23-33 | every page an arrow or a numbered button asks for is one `goToPage` keeps unchanged |

## Left out

- Reading and writing `localStorage`, `JSON.parse`/`JSON.stringify` and the `typeof window` guard: the stored collection is the `tasks` field, and unreadable data is simply an empty collection given to the constructor.
- Partial storage failures: `storageThrows` is fixed for a `TaskService`, so either every access throws or none does.
- The 300 ms `setTimeout` delay and the interleaving of store actions: `goToPage` and `setFilter` do not await their fetch, and other actions may run in between; here each action runs to completion.
- `uuidv4()` and `new Date().toISOString()`: they are parameters.
- Toasts, `console.error` and the French text of error messages: an error is one of the `StoreError` values.
- DueOrder.SortByDue: orders by the date string instead of `new Date(d).getTime()`, so a malformed date string (a NaN time) is ordered as a string, not as NaN.
- Paging.FetchPage: requires a positive `limit`; the store always passes 5, and `limit` 0 makes `Math.ceil` return Infinity or NaN, which is not modelled.
- Service.TaskService.FetchTasks: requires a positive `limit`, as `Paging.FetchPage` does.
- Service.TaskService.CreateTask: requires an id not yet stored, which `uuidv4()` provides in practice.
- Service.TaskService.UpdateTask: an update field is either absent or a value; a key present with the value `undefined`, which would erase that field, is not modelled, nor is an `updatedAt` key, which line 111 overwrites anyway.
- Store.TaskStore.UpdateTask: the merge of the returned task into the page assumes the same two shapes of update field.
- The `tasksPerPage` state field: it never changes, so it is the constant `Store.TasksPerPage`.
- Rendering of the pagination control and of all other components, and the date validation of the task form.

## Findings

| source | as written | input that shows it | evidently intended | confidence | as-written member | corrected member |
|---|---|---|---|---|---|---|
| src/services/taskService.ts:35-61 | every service body runs inside a `setTimeout` callback that only calls `resolve`, so an exception from `localStorage` escapes to the event loop and the promise never settles; the store's `catch` branches never run and `isLoading` stays true | any call while `localStorage.getItem` throws (storage disabled) or `setItem` throws (quota exceeded) | the failure rejects the promise, the store sets `error` and clears `isLoading` | not executed | Service.StorageFaultNeverRejects | Service.Settle |

`Store.TaskStore.FetchTasksAsWritten` shows what the store does as written: after a storage fault it stays loading with no error. The corrected behaviour is what the service class models: each method returns `Rejected` on a storage fault. Every store action proves `!isLoading` afterwards and sets its error on a fault.
