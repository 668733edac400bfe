/** The order `fetchTasks` sorts the collection by (src/services/taskService.ts:38-46):
    ascending due date, tasks without a due date last, equal keys kept in
    their stored order (the engine's sort is stable). */
module DueOrder {
  import opened Prelude
  import opened TaskModel

  /** Character-by-character order of strings. For well-formed `yyyy-MM-dd`
      dates it agrees with the order of `new Date(d).getTime()`. */
  predicate LexLe(a: string, b: string)
    decreases |a|
  {
    a == [] || (b != [] && (a[0] < b[0] || (a[0] == b[0] && LexLe(a[1..], b[1..]))))
  }

  lemma {:induction false} LexLeReflexive(a: string)
    ensures LexLe(a, a)
  {
    if a != [] { LexLeReflexive(a[1..]); }
  }

  lemma {:induction false} LexLeTotal(a: string, b: string)
    ensures LexLe(a, b) || LexLe(b, a)
  {
    if a != [] && b != [] && a[0] == b[0] { LexLeTotal(a[1..], b[1..]); }
  }

  lemma {:induction false} LexLeTransitive(a: string, b: string, c: string)
    requires LexLe(a, b) && LexLe(b, c)
    ensures LexLe(a, c)
  {
    if a != [] && b != [] && c != [] && a[0] == b[0] == c[0] {
      LexLeTransitive(a[1..], b[1..], c[1..]);
    }
  }

  lemma {:induction false} LexLeAntisymmetric(a: string, b: string)
    requires LexLe(a, b) && LexLe(b, a)
    ensures a == b
  {
    if a != [] && b != [] {
      LexLeAntisymmetric(a[1..], b[1..]);
      assert a == [a[0]] + a[1..] && b == [b[0]] + b[1..];
    }
  }

  /** The sort key: a date, or +infinity for an empty (falsy) `dueDate`. */
  datatype DueKey = On(date: string) | Never

  function KeyOf(t: Task): DueKey
  {
    if t.dueDate == "" then Never else On(t.dueDate)
  }

  /** `comparator(a, b) <= 0`: Infinity - Infinity is NaN, which the sort treats as 0. */
  predicate KeyLe(a: DueKey, b: DueKey)
  {
    match a
    case Never => b.Never?
    case On(x) => b.Never? || LexLe(x, b.date)
  }

  lemma KeyLeReflexive(a: DueKey)
    ensures KeyLe(a, a)
  {
    if a.On? { LexLeReflexive(a.date); }
  }

  lemma KeyLeTotal(a: DueKey, b: DueKey)
    ensures KeyLe(a, b) || KeyLe(b, a)
  {
    if a.On? && b.On? { LexLeTotal(a.date, b.date); }
  }

  lemma KeyLeTransitive(a: DueKey, b: DueKey, c: DueKey)
    requires KeyLe(a, b) && KeyLe(b, c)
    ensures KeyLe(a, c)
  {
    if a.On? && b.On? && c.On? { LexLeTransitive(a.date, b.date, c.date); }
  }

  predicate TaskLe(a: Task, b: Task)
  {
    KeyLe(KeyOf(a), KeyOf(b))
  }

  /** Ascending by due-date key. */
  predicate Sorted(s: seq<Task>)
  {
    forall i, j :: 0 <= i < j < |s| ==> TaskLe(s[i], s[j])
  }

  /** Places `x` in front of the first element whose key is not smaller than
      its own; `x` therefore precedes every element with an equal key. */
  function Insert(x: Task, s: seq<Task>): (r: seq<Task>)
    ensures |r| == |s| + 1
    ensures multiset(r) == multiset(s) + multiset{x}
  {
    if s == [] then [x]
    else if TaskLe(x, s[0]) then [x] + s
    else
      assert s == [s[0]] + s[1..];
      [s[0]] + Insert(x, s[1..])
  }

  /** The stable sort of line 38, written as an insertion sort. */
  function SortByDue(s: seq<Task>): (r: seq<Task>)
    ensures |r| == |s|
    ensures multiset(r) == multiset(s)
  {
    if s == [] then []
    else
      assert s == [s[0]] + s[1..];
      Insert(s[0], SortByDue(s[1..]))
  }

  /** A sorted list stays sorted with a key in front that is no larger than any of its own. */
  lemma ConsSorted(x: Task, tail: seq<Task>)
    requires Sorted(tail)
    requires forall k :: 0 <= k < |tail| ==> TaskLe(x, tail[k])
    ensures Sorted([x] + tail)
  {
    var r := [x] + tail;
    forall i, j | 0 <= i < j < |r| ensures TaskLe(r[i], r[j]) {
      assert r[j] == tail[j - 1];
      if i > 0 {
        assert r[i] == tail[i - 1];
      }
    }
  }

  lemma {:induction false} InsertSorted(x: Task, s: seq<Task>)
    requires Sorted(s)
    ensures Sorted(Insert(x, s))
  {
    if s != [] {
      if TaskLe(x, s[0]) {
        forall k | 0 <= k < |s| ensures TaskLe(x, s[k]) {
          if k > 0 { KeyLeTransitive(KeyOf(x), KeyOf(s[0]), KeyOf(s[k])); }
        }
        ConsSorted(x, s);
      } else {
        var tail := s[1..];
        var rest := Insert(x, tail);
        assert Sorted(tail);
        InsertSorted(x, tail);
        KeyLeTotal(KeyOf(x), KeyOf(s[0]));
        forall k | 0 <= k < |rest| ensures TaskLe(s[0], rest[k]) {
          var e := rest[k];
          assert e in multiset(rest);
          if e != x {
            assert e in multiset(tail);
            var m :| 0 <= m < |tail| && tail[m] == e;
            assert s[m + 1] == e;
          }
        }
        ConsSorted(s[0], rest);
      }
    }
  }

  lemma {:induction false} SortByDueSorted(s: seq<Task>)
    ensures Sorted(SortByDue(s))
  {
    if s != [] {
      SortByDueSorted(s[1..]);
      InsertSorted(s[0], SortByDue(s[1..]));
    }
  }

  /** The tasks whose key equals `k`, in order. */
  function WithKey(s: seq<Task>, k: DueKey): seq<Task>
  {
    Filter(s, (t: Task) => KeyOf(t) == k)
  }

  lemma {:induction false} InsertWithKey(x: Task, s: seq<Task>, k: DueKey)
    ensures WithKey(Insert(x, s), k) == if KeyOf(x) == k then [x] + WithKey(s, k) else WithKey(s, k)
  {
    if s == [] {
    } else if TaskLe(x, s[0]) {
      assert ([x] + s)[1..] == s;
    } else {
      InsertWithKey(x, s[1..], k);
      var r := [s[0]] + Insert(x, s[1..]);
      assert r[1..] == Insert(x, s[1..]);
      if KeyOf(x) == k {
        KeyLeReflexive(k);
        assert KeyOf(s[0]) != k;
        assert WithKey(s, k) == WithKey(s[1..], k);
      }
    }
  }

  /** Stability: for every key, the tasks carrying it keep their stored order. */
  lemma {:induction false} SortByDueStable(s: seq<Task>, k: DueKey)
    ensures WithKey(SortByDue(s), k) == WithKey(s, k)
  {
    if s != [] {
      SortByDueStable(s[1..], k);
      InsertWithKey(s[0], SortByDue(s[1..]), k);
    }
  }

  /** In a sorted list every task without a due date follows every dated task. */
  lemma UndatedLast(s: seq<Task>, i: int, j: int)
    requires Sorted(s)
    requires 0 <= i < |s| && 0 <= j < |s|
    requires s[i].dueDate == "" && s[j].dueDate != ""
    ensures j < i
  {
  }
}
