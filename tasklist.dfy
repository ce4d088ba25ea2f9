/** The view logic of TaskList.tsx: the status filter, the three sort
    orders over a copy of the filtered list, and the badge and overdue
    predicates of each row. */
module TaskList {

  import opened Types
  import opened Seqs
  import opened Rewards

  datatype FilterOption = All | PendingOnly | DoneOnly

  datatype SortOption = DeadlineAsc | DeadlineDesc | ByStatus

  predicate Shown(f: FilterOption, t: Task) {
    match f
    case All => true
    case PendingOnly => t.status == Pending
    case DoneOnly => t.status == Done
  }

  /** `filteredTasks` */
  function FilterTasks(tasks: seq<Task>, f: FilterOption): (r: seq<Task>)
    ensures |r| <= |tasks|
    ensures forall i :: 0 <= i < |r| ==> Shown(f, r[i])
  {
    Filter((t: Task) => Shown(f, t), tasks)
  }

  /** The comparator handed to `sort`. It reports a tie only for equal
      deadlines, and under STATUS only for equal statuses too, so only those
      rows keep their filtered order. */
  function Compare(opt: SortOption, a: Task, b: Task): (c: int)
    ensures c == 0 ==> a.deadline == b.deadline
    ensures c == 0 && opt == ByStatus ==> a.status == b.status
  {
    match opt
    case ByStatus =>
      if a.status == b.status then a.deadline - b.deadline
      else if a.status == Pending then -1 else 1
    case DeadlineAsc => a.deadline - b.deadline
    case DeadlineDesc => b.deadline - a.deadline
  }

  /** `a` may stay before `b`. */
  predicate Before(opt: SortOption, a: Task, b: Task) {
    Compare(opt, a, b) <= 0
  }

  predicate Sorted(opt: SortOption, s: seq<Task>) {
    forall i, j :: 0 <= i < j < |s| ==> Before(opt, s[i], s[j])
  }

  /** Each comparator is a total preorder, which is what `sort` needs. */
  lemma CompareTotalPreorder(opt: SortOption, a: Task, b: Task, c: Task)
    ensures Before(opt, a, b) || Before(opt, b, a)
    ensures Compare(opt, a, b) > 0 ==> Before(opt, b, a)
    ensures Before(opt, a, b) && Before(opt, b, c) ==> Before(opt, a, c)
  {
  }

  /** Puts `x` after every element it does not sort strictly before. */
  function Insert(opt: SortOption, x: Task, s: seq<Task>): (r: seq<Task>)
    ensures multiset(r) == multiset(s) + multiset{x}
  {
    if s == [] then [x]
    else if Compare(opt, x, s[0]) < 0 then [x] + s
    else
      assert s == [s[0]] + s[1..];
      [s[0]] + Insert(opt, x, s[1..])
  }

  /** `[...filteredTasks].sort(comparator)`: a new sequence, stable like
      `Array.prototype.sort`; the input is a value and is not changed. */
  function SortTasks(opt: SortOption, s: seq<Task>): (r: seq<Task>)
    ensures multiset(r) == multiset(s)
  {
    if s == [] then []
    else
      assert s == s[..|s| - 1] + [s[|s| - 1]];
      Insert(opt, s[|s| - 1], SortTasks(opt, s[..|s| - 1]))
  }

  lemma {:induction false} InsertSorted(opt: SortOption, x: Task, s: seq<Task>)
    requires Sorted(opt, s)
    ensures Sorted(opt, Insert(opt, x, s))
  {
    if s != [] {
      var r := Insert(opt, x, s);
      if Compare(opt, x, s[0]) < 0 {
        forall j | 1 <= j < |r| ensures Before(opt, x, r[j]) {
          CompareTotalPreorder(opt, x, s[0], r[j]);
        }
      } else {
        InsertSorted(opt, x, s[1..]);
        var tail := Insert(opt, x, s[1..]);
        forall j | 0 <= j < |tail| ensures Before(opt, s[0], tail[j]) {
          assert tail[j] in multiset(tail);
          CompareTotalPreorder(opt, x, s[0], x);
          if tail[j] != x {
            assert tail[j] in multiset(s[1..]);
            var k :| 0 <= k < |s[1..]| && s[1..][k] == tail[j];
            assert s[k + 1] == tail[j];
          }
        }
      }
    }
  }

  /** The sorted list is a permutation of the filtered list in the order the
      comparator asks for. */
  lemma {:induction false} SortEffect(opt: SortOption, s: seq<Task>)
    ensures multiset(SortTasks(opt, s)) == multiset(s)
    ensures Sorted(opt, SortTasks(opt, s))
  {
    if s != [] {
      var init := s[..|s| - 1];
      SortEffect(opt, init);
      InsertSorted(opt, s[|s| - 1], SortTasks(opt, init));
      assert s == init + [s[|s| - 1]];
    }
  }

  /** What each sort option means for the rows shown: soonest deadline first,
      latest first, or every pending task before every done task with the
      soonest deadline first within a status. */
  lemma SortOrders(opt: SortOption, s: seq<Task>)
    ensures var r := SortTasks(opt, s);
      forall i, j :: 0 <= i < j < |r| ==>
        && (opt == DeadlineAsc ==> r[i].deadline <= r[j].deadline)
        && (opt == DeadlineDesc ==> r[i].deadline >= r[j].deadline)
        && (opt == ByStatus ==> !(r[i].status == Done && r[j].status == Pending))
        && (opt == ByStatus && r[i].status == r[j].status ==> r[i].deadline <= r[j].deadline)
  {
    SortEffect(opt, s);
  }

  /** ALL shows every task; PENDING and DONE show exactly the tasks with that
      status; the order of the list is kept. */
  lemma FilterEffect(tasks: seq<Task>, f: FilterOption, a: seq<Task>, b: seq<Task>)
    ensures f == All ==> FilterTasks(tasks, f) == tasks
    ensures forall t :: t in FilterTasks(tasks, f) <==> t in tasks && Shown(f, t)
    ensures FilterTasks(a + b, f) == FilterTasks(a, f) + FilterTasks(b, f)
  {
    var p := (t: Task) => Shown(f, t);
    if f == All {
      FilterAll(p, tasks);
    }
    forall t ensures t in FilterTasks(tasks, f) <==> t in tasks && Shown(f, t) {
      FilterMembers(p, tasks, t);
    }
    FilterConcat(p, a, b);
  }

  /** The rows the list shows for a filter and a sort option: the filtered
      tasks, each as often as it passes the filter, in comparator order. */
  function VisibleTasks(tasks: seq<Task>, f: FilterOption, opt: SortOption): (r: seq<Task>)
    ensures multiset(r) == multiset(FilterTasks(tasks, f))
    ensures Sorted(opt, r)
    ensures forall t :: t in r <==> t in tasks && Shown(f, t)
  {
    SortEffect(opt, FilterTasks(tasks, f));
    FilterEffect(tasks, f, [], []);
    var sorted := SortTasks(opt, FilterTasks(tasks, f));
    assert forall t :: t in sorted <==> t in multiset(sorted);
    assert forall t :: t in FilterTasks(tasks, f) <==> t in multiset(FilterTasks(tasks, f));
    sorted
  }

  /** The "+20% Heat" badge: a pending row whose reward is still to come. */
  predicate HeatBadge(t: Task)
    ensures HeatBadge(t) <==> t.status == Pending && !ClaimedBadge(t)
  {
    t.status != Done && !Claimed(t)
  }

  /** The "Reward Claimed" badge: a pending row that already paid. */
  predicate ClaimedBadge(t: Task)
    ensures ClaimedBadge(t) ==> t.status == Pending && t.rewardClaimed == Some(true)
  {
    t.status != Done && Claimed(t)
  }

  /** The deadline is shown in red: only a pending row can be overdue. */
  predicate Overdue(t: Task, now: int)
    ensures Overdue(t, now) ==> t.status == Pending && t.deadline < now
  {
    t.status != Done && t.deadline < now
  }

  /** A pending row shows exactly one of the two badges and a done row none;
      the heat badge shows exactly when completing the task would pay a
      ticket, and a done task is never overdue. */
  lemma BadgesTellTheReward(t: Task, user: User, now: int)
    ensures t.status == Pending ==> (HeatBadge(t) != ClaimedBadge(t))
    ensures t.status == Done ==> !HeatBadge(t) && !ClaimedBadge(t) && !Overdue(t, now)
    ensures HeatBadge(t) <==> Toggle(user, t, now).user.tickets == user.tickets + 1
  {
  }
}
