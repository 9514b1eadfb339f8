/** The visible list: the cached todos filtered by the selected status, then sorted by
    completion date with JavaScript's stable Array.prototype.sort and date-fns
    compareAsc as the comparator. */
module ListView {
  import opened CalendarDate
  import opened TodoTypes

  /** The filter callback: keep completed records for `Completed`, the others for
      `Pending`, and everything for `All`. */
  predicate Matches(t: Todo, status: TodoStatus): (keep: bool)
    ensures keep <==> status == All || (status == Completed) == t.completed
  {
    match status
    case Completed => t.completed
    case Pending => !t.completed
    case All => true
  }

  /** `todos.filter(...)`: the matching records in their original order. */
  function FilterByStatus(s: seq<Todo>, status: TodoStatus): (r: seq<Todo>)
    ensures |r| <= |s|
    ensures forall t :: t in r ==> t in s && Matches(t, status)
  {
    if s == [] then []
    else
      var rest := FilterByStatus(s[1..], status);
      if Matches(s[0], status) then [s[0]] + rest else rest
  }

  /** Ordered by completion date: no record is due before one in front of it. This is
      "compareAsc(s[i], s[j]) <= 0 for i < j", by the contract of CompareAsc. */
  predicate Sorted(s: seq<Todo>) {
    forall i, j :: 0 <= i < j < |s| ==> !Before(s[j].completionDate, s[i].completionDate)
  }

  /** The records of `s` due on day `d`, in their order in `s`. */
  function OnDay(s: seq<Todo>, d: ValidDate): seq<Todo> {
    if s == [] then []
    else
      var rest := OnDay(s[1..], d);
      if s[0].completionDate == d then [s[0]] + rest else rest
  }

  /** Inserts `x` into sorted `t` in front of every record that is not earlier. */
  function Insert(x: Todo, t: seq<Todo>): (r: seq<Todo>)
    requires Sorted(t)
    ensures Sorted(r)
    ensures multiset(r) == multiset(t) + multiset{x}
  {
    if t == [] then [x]
    else if CompareAsc(x.completionDate, t[0].completionDate) != 1 then
      assert !Before(t[0].completionDate, x.completionDate);
      [x] + t
    else
      assert t == [t[0]] + t[1..];
      var rest := Insert(x, t[1..]);
      assert forall y :: y in rest ==> !Before(y.completionDate, t[0].completionDate) by {
        forall y | y in rest ensures !Before(y.completionDate, t[0].completionDate) {
          assert y in multiset(rest);
          if y != x {
            assert y in multiset(t[1..]);
            var k :| 0 <= k < |t[1..]| && t[1..][k] == y;
            assert t[k + 1] == y;
          }
        }
      }
      [t[0]] + rest
  }

  /** `.sort((a, b) => compareAsc(a.completionDate, b.completionDate))` on the fresh
      filtered array: a stable sort, here an insertion sort. */
  function SortByDate(s: seq<Todo>): (r: seq<Todo>)
    ensures Sorted(r)
    ensures multiset(r) == multiset(s)
  {
    if s == [] then []
    else
      assert s == [s[0]] + s[1..];
      Insert(s[0], SortByDate(s[1..]))
  }

  /** `filteredTodos`: date-ordered, and holding only cached records that match. */
  function View(todos: seq<Todo>, status: TodoStatus): (view: seq<Todo>)
    ensures Sorted(view) && |view| <= |todos|
    ensures forall t :: t in view ==> t in todos && Matches(t, status)
  {
    var r := SortByDate(FilterByStatus(todos, status));
    assert forall t :: t in r ==> t in multiset(FilterByStatus(todos, status));
    r
  }

  // ---------------------------------------------------------------------------
  // Filtering

  /** Each record occurs in the filtered list as often as in the input when it matches
      the status, and not at all otherwise. */
  lemma {:induction false} FilterCount(s: seq<Todo>, status: TodoStatus, t: Todo)
    ensures multiset(FilterByStatus(s, status))[t] == if Matches(t, status) then multiset(s)[t] else 0
  {
    if s != [] {
      FilterCount(s[1..], status, t);
      assert s == [s[0]] + s[1..];
    }
  }

  /** A single record is kept exactly when it matches. */
  lemma FilterSingle(t: Todo, status: TodoStatus)
    ensures FilterByStatus([t], status) == if Matches(t, status) then [t] else []
  {
    assert [t][1..] == [];
  }

  /** The filter keeps the input order: filtering a concatenation concatenates the
      filtered parts, so with FilterSingle it fixes the order of the result. */
  lemma {:induction false} FilterAppend(s: seq<Todo>, u: seq<Todo>, status: TodoStatus)
    ensures FilterByStatus(s + u, status) == FilterByStatus(s, status) + FilterByStatus(u, status)
  {
    if s == [] {
      assert s + u == u;
    } else {
      var su := s + u;
      assert su[0] == s[0] && su[1..] == s[1..] + u;
      calc {
        FilterByStatus(su, status);
        (if Matches(s[0], status) then [s[0]] else []) + FilterByStatus(s[1..] + u, status);
        { FilterAppend(s[1..], u, status); }
        (if Matches(s[0], status) then [s[0]] else []) + (FilterByStatus(s[1..], status) + FilterByStatus(u, status));
        FilterByStatus(s, status) + FilterByStatus(u, status);
      }
    }
  }

  /** Filtering by status and selecting one day's records commute. */
  lemma {:induction false} FilterOnDay(s: seq<Todo>, status: TodoStatus, d: ValidDate)
    ensures OnDay(FilterByStatus(s, status), d) == FilterByStatus(OnDay(s, d), status)
  {
    if s != [] {
      FilterOnDay(s[1..], status, d);
      var rest := FilterByStatus(s[1..], status);
      if Matches(s[0], status) {
        assert ([s[0]] + rest)[1..] == rest;
      }
      if s[0].completionDate == d {
        assert ([s[0]] + OnDay(s[1..], d))[1..] == OnDay(s[1..], d);
      }
    }
  }

  /** The `All` filter keeps the list as it is. */
  lemma {:induction false} FilterAll(s: seq<Todo>)
    ensures FilterByStatus(s, All) == s
  {
    if s != [] {
      FilterAll(s[1..]);
      assert s == [s[0]] + s[1..];
    }
  }

  /** The `Pending` and `Completed` filters split the list: together they hold every
      record exactly as often as the input, and no record is in both. */
  lemma {:induction false} FilterPartition(s: seq<Todo>)
    ensures multiset(FilterByStatus(s, Pending)) + multiset(FilterByStatus(s, Completed)) == multiset(s)
    ensures |FilterByStatus(s, Pending)| + |FilterByStatus(s, Completed)| == |s|
  {
    if s != [] {
      FilterPartition(s[1..]);
      assert s == [s[0]] + s[1..];
    }
  }

  // ---------------------------------------------------------------------------
  // Sorting

  lemma {:induction false} OnDayMembers(s: seq<Todo>, d: ValidDate)
    ensures forall t :: t in OnDay(s, d) <==> t in s && t.completionDate == d
  {
    if s != [] {
      OnDayMembers(s[1..], d);
      assert s == [s[0]] + s[1..];
    }
  }

  lemma OnDayOfHead(s: seq<Todo>)
    ensures s != [] ==> OnDay(s, s[0].completionDate) != []
  {
  }

  /** Inserting `x` puts it in front of the records of its own day and leaves the order
      of every day's records otherwise as it was. */
  lemma {:induction false} InsertOnDay(x: Todo, t: seq<Todo>, d: ValidDate)
    requires Sorted(t)
    ensures OnDay(Insert(x, t), d) == if x.completionDate == d then [x] + OnDay(t, d) else OnDay(t, d)
  {
    if t != [] && CompareAsc(x.completionDate, t[0].completionDate) == 1 {
      InsertOnDay(x, t[1..], d);
      var rest := Insert(x, t[1..]);
      assert Insert(x, t) == [t[0]] + rest;
      assert ([t[0]] + rest)[1..] == rest;
    }
  }

  /** Stability: sorting keeps the relative order of the records due on the same day. */
  lemma {:induction false} SortOnDay(s: seq<Todo>, d: ValidDate)
    ensures OnDay(SortByDate(s), d) == OnDay(s, d)
  {
    if s != [] {
      SortOnDay(s[1..], d);
      InsertOnDay(s[0], SortByDate(s[1..]), d);
    }
  }

  /** A list sorted by date is fully determined by the order of each day's records:
      two sorted lists that agree on every day are equal. */
  lemma {:induction false} SortedUnique(t: seq<Todo>, u: seq<Todo>)
    requires Sorted(t) && Sorted(u)
    requires forall d :: OnDay(t, d) == OnDay(u, d)
    ensures t == u
    decreases |t|
  {
    OnDayOfHead(t);
    OnDayOfHead(u);
    if t != [] && u != [] {
      var a, b := t[0], u[0];
      OnDayMembers(t, b.completionDate);
      OnDayMembers(u, a.completionDate);
      assert a in OnDay(t, a.completionDate);
      assert b in OnDay(u, b.completionDate);
      var ia :| 0 <= ia < |u| && u[ia] == a;
      var ib :| 0 <= ib < |t| && t[ib] == b;
      assert !Before(a.completionDate, b.completionDate) by {
        if ia > 0 {
          assert !Before(u[ia].completionDate, u[0].completionDate);
        }
      }
      assert !Before(b.completionDate, a.completionDate) by {
        if ib > 0 {
          assert !Before(t[ib].completionDate, t[0].completionDate);
        }
      }
      assert a.completionDate == b.completionDate;
      assert a == OnDay(t, a.completionDate)[0] == OnDay(u, a.completionDate)[0] == b;
      forall d
        ensures OnDay(t[1..], d) == OnDay(u[1..], d)
      {
        assert OnDay(t, d) == OnDay(u, d);
        if a.completionDate == d {
          assert ([a] + OnDay(t[1..], d))[1..] == OnDay(t[1..], d);
          assert ([a] + OnDay(u[1..], d))[1..] == OnDay(u[1..], d);
        }
      }
      SortedUnique(t[1..], u[1..]);
      assert t == [a] + t[1..];
      assert u == [b] + u[1..];
    }
  }

  /** The sorted list is the only arrangement that is sorted by date and keeps each
      day's records in input order; any stable sort gives exactly this list. */
  lemma SortIsUnique(s: seq<Todo>, t: seq<Todo>)
    requires Sorted(t)
    requires forall d :: OnDay(t, d) == OnDay(s, d)
    ensures t == SortByDate(s)
  {
    forall d ensures OnDay(t, d) == OnDay(SortByDate(s), d) {
      SortOnDay(s, d);
    }
    SortedUnique(t, SortByDate(s));
  }

  /** Sorting a list that is already in date order leaves it unchanged. */
  lemma SortSortedIsIdentity(s: seq<Todo>)
    requires Sorted(s)
    ensures SortByDate(s) == s
  {
    SortIsUnique(s, s);
  }

  // ---------------------------------------------------------------------------
  // The view

  /** The view is ordered by completion date, holds each record exactly as often as the
      filtered list does (a permutation of it), and keeps the filtered order among the
      records due on the same day. */
  lemma ViewIsStableSort(todos: seq<Todo>, status: TodoStatus)
    ensures Sorted(View(todos, status))
    ensures multiset(View(todos, status)) == multiset(FilterByStatus(todos, status))
    ensures forall d :: OnDay(View(todos, status), d) == OnDay(FilterByStatus(todos, status), d)
  {
    forall d ensures OnDay(View(todos, status), d) == OnDay(FilterByStatus(todos, status), d) {
      SortOnDay(FilterByStatus(todos, status), d);
    }
  }

  /** The records the view shows for one day are that day's matching records in the
      order of the cached list. */
  lemma ViewOnDay(todos: seq<Todo>, status: TodoStatus, d: ValidDate)
    ensures OnDay(View(todos, status), d) == FilterByStatus(OnDay(todos, d), status)
  {
    SortOnDay(FilterByStatus(todos, status), d);
    FilterOnDay(todos, status, d);
  }

  /** A record is in the view exactly when it is in the cached list and matches the
      status; it occurs as often as in the cached list. */
  lemma ViewMembers(todos: seq<Todo>, status: TodoStatus, t: Todo)
    ensures multiset(View(todos, status))[t] == if Matches(t, status) then multiset(todos)[t] else 0
    ensures t in View(todos, status) <==> t in todos && Matches(t, status)
  {
    FilterCount(todos, status, t);
  }

  /** The membership half of ViewMembers, for every record at once. */
  lemma ViewMembership(todos: seq<Todo>, status: TodoStatus)
    ensures forall t :: t in View(todos, status) <==> t in todos && Matches(t, status)
  {
    forall t ensures t in View(todos, status) <==> t in todos && Matches(t, status) {
      ViewMembers(todos, status, t);
    }
  }

  /** With `Completed`, the view holds exactly the completed records. */
  lemma CompletedView(todos: seq<Todo>)
    ensures forall t :: t in View(todos, Completed) ==> t.completed
    ensures forall t :: t in todos && t.completed ==> t in View(todos, Completed)
  {
    forall t | t in todos && t.completed ensures t in View(todos, Completed) {
      ViewMembers(todos, Completed, t);
    }
    forall t | t in View(todos, Completed) ensures t.completed {
      ViewMembers(todos, Completed, t);
    }
  }

  /** With `Pending`, the view holds exactly the records not yet completed. */
  lemma PendingView(todos: seq<Todo>)
    ensures forall t :: t in View(todos, Pending) ==> !t.completed
    ensures forall t :: t in todos && !t.completed ==> t in View(todos, Pending)
  {
    forall t | t in todos && !t.completed ensures t in View(todos, Pending) {
      ViewMembers(todos, Pending, t);
    }
    forall t | t in View(todos, Pending) ensures !t.completed {
      ViewMembers(todos, Pending, t);
    }
  }

  /** With `All`, the view is the cached list in date order (and the cached list itself
      when that is already in date order); the pending and completed views split it. */
  lemma AllView(todos: seq<Todo>)
    ensures multiset(View(todos, All)) == multiset(todos)
    ensures Sorted(todos) ==> View(todos, All) == todos
    ensures multiset(View(todos, Pending)) + multiset(View(todos, Completed)) == multiset(View(todos, All))
  {
    FilterAll(todos);
    FilterPartition(todos);
    if Sorted(todos) {
      SortSortedIsIdentity(todos);
    }
  }

  // ---------------------------------------------------------------------------
  // Worked example

  /** A record due after the one in a singleton list goes behind it. */
  lemma ExampleInsertBehind(a: Todo, c: Todo)
    requires Before(c.completionDate, a.completionDate)
    ensures Insert(a, [c]) == [c, a]
  {
    assert CompareAsc(a.completionDate, c.completionDate) == 1;
    assert [c][1..] == [];
    assert Insert(a, []) == [a];
  }

  /** The record due latest goes behind the two earlier ones. */
  lemma ExampleInsertLatest(a: Todo, b: Todo, c: Todo)
    requires Before(b.completionDate, c.completionDate) && Before(c.completionDate, a.completionDate)
    ensures Insert(a, [b, c]) == [b, c, a]
  {
    ExampleInsertBehind(a, c);
    assert CompareAsc(a.completionDate, b.completionDate) == 1;
    assert [b, c][1..] == [c];
  }

  /** Two records already in date order stay as they are. */
  lemma ExampleSortInOrder(b: Todo, c: Todo)
    requires Before(b.completionDate, c.completionDate)
    ensures SortByDate([b, c]) == [b, c]
  {
    assert CompareAsc(b.completionDate, c.completionDate) == -1;
    assert [b, c][1..] == [c];
    assert [c][1..] == [];
    assert SortByDate([c]) == [c];
  }

  /** Three records due 2024-03-05, 2024-01-10 and 2024-02-20 come out of the sort
      from the earliest date. */
  lemma ExampleSort(a: Todo, b: Todo, c: Todo)
    requires a.completionDate == Date(2024, 3, 5)
    requires b.completionDate == Date(2024, 1, 10)
    requires c.completionDate == Date(2024, 2, 20)
    ensures SortByDate([a, b, c]) == [b, c, a]
  {
    assert Before(b.completionDate, c.completionDate) && Before(c.completionDate, a.completionDate);
    ExampleInsertLatest(a, b, c);
    ExampleSortInOrder(b, c);
    assert [a, b, c][1..] == [b, c];
  }

  /** The filters on the same three records, the one due 2024-01-10 completed. */
  lemma ExampleFilter(a: Todo, b: Todo, c: Todo)
    requires !a.completed && b.completed && !c.completed
    ensures FilterByStatus([a, b, c], All) == [a, b, c]
    ensures FilterByStatus([a, b, c], Pending) == [a, c]
    ensures FilterByStatus([a, b, c], Completed) == [b]
  {
    assert [a, b, c][1..] == [b, c];
    assert [b, c][1..] == [c];
    assert [c][1..] == [];
    FilterAll([a, b, c]);
    assert FilterByStatus([c], Pending) == [c] && FilterByStatus([c], Completed) == [];
    assert FilterByStatus([b, c], Pending) == [c] && FilterByStatus([b, c], Completed) == [b];
  }

  /** The unfiltered view lists the three records from the earliest date, and the
      pending and completed views keep their matching records in that order. */
  lemma ExampleView(a: Todo, b: Todo, c: Todo)
    requires a.completionDate == Date(2024, 3, 5) && !a.completed
    requires b.completionDate == Date(2024, 1, 10) && b.completed
    requires c.completionDate == Date(2024, 2, 20) && !c.completed
    ensures View([a, b, c], All) == [b, c, a]
    ensures View([a, b, c], Pending) == [c, a]
    ensures View([a, b, c], Completed) == [b]
  {
    ExampleSort(a, b, c);
    ExampleFilter(a, b, c);
    ExampleInsertBehind(a, c);
    assert [a, c][1..] == [c];
    assert [c][1..] == [];
    assert SortByDate([c]) == [c];
    assert SortByDate([b]) == [b];
  }
}
