/**
 * `DashboardController::index`: counts over the tasks and projects tables and
 * the titles of the five newest tasks. A table is its sequence of rows.
 */
module Dashboard {
  import opened Wrappers

  /** The columns of a task row that the dashboard reads; `status` is nullable. */
  datatype Task = Task(title: string, status: Option<string>, createdAt: int)

  datatype Stats = Stats(
    totalProjects: nat,
    activeTasks: nat,
    completedTasks: nat,
    recentActivities: seq<string>,
    teamPerformance: seq<string>)

  const Completed := "completed"
  const RecentLimit := 5

  /** `where('status', '!=', 'completed')`: in SQL a null status matches neither this nor `=`. */
  predicate IsActive(t: Task)
  {
    t.status.Some? && t.status.value != Completed
  }

  predicate IsCompleted(t: Task)
  {
    t.status == Some(Completed)
  }

  function CountActive(tasks: seq<Task>): nat
  {
    if tasks == [] then 0 else (if IsActive(tasks[0]) then 1 else 0) + CountActive(tasks[1..])
  }

  function CountCompleted(tasks: seq<Task>): nat
  {
    if tasks == [] then 0 else (if IsCompleted(tasks[0]) then 1 else 0) + CountCompleted(tasks[1..])
  }

  function CountNull(tasks: seq<Task>): nat
  {
    if tasks == [] then 0 else (if tasks[0].status.None? then 1 else 0) + CountNull(tasks[1..])
  }

  /** Every task is active, completed or has a null status, and exactly one of these. */
  lemma {:induction false} CountsPartition(tasks: seq<Task>)
    ensures CountActive(tasks) + CountCompleted(tasks) + CountNull(tasks) == |tasks|
    ensures CountActive(tasks) + CountCompleted(tasks) <= |tasks|
  {
    if tasks != [] {
      CountsPartition(tasks[1..]);
    }
  }

  /** The two counts add up to the number of tasks exactly when no status is null. */
  lemma CountsCoverAllWithoutNulls(tasks: seq<Task>)
    ensures CountActive(tasks) + CountCompleted(tasks) == |tasks| <==> forall i :: 0 <= i < |tasks| ==> tasks[i].status.Some?
  {
    CountsPartition(tasks);
    NoNulls(tasks);
  }

  lemma {:induction false} NoNulls(tasks: seq<Task>)
    ensures CountNull(tasks) == 0 <==> forall i :: 0 <= i < |tasks| ==> tasks[i].status.Some?
  {
    if tasks != [] {
      NoNulls(tasks[1..]);
      assert forall i :: 1 <= i < |tasks| ==> tasks[i] == tasks[1..][i - 1];
    }
  }

  /** A completed task adds to `completedTasks` only; any other non-null status to `activeTasks` only. */
  lemma {:induction false} CountsOfOneMore(tasks: seq<Task>, t: Task)
    ensures IsCompleted(t) ==> CountCompleted([t] + tasks) == CountCompleted(tasks) + 1 && CountActive([t] + tasks) == CountActive(tasks)
    ensures t.status.Some? && !IsCompleted(t) ==> CountActive([t] + tasks) == CountActive(tasks) + 1 && CountCompleted([t] + tasks) == CountCompleted(tasks)
    ensures t.status.None? ==> CountActive([t] + tasks) == CountActive(tasks) && CountCompleted([t] + tasks) == CountCompleted(tasks)
  {
    assert ([t] + tasks)[1..] == tasks;
  }

  /** Newest first: `latest()` orders by `created_at` descending. */
  predicate NewestFirst(s: seq<Task>)
  {
    forall i, j :: 0 <= i < j < |s| ==> s[i].createdAt >= s[j].createdAt
  }

  function Insert(t: Task, s: seq<Task>): seq<Task>
  {
    if s == [] || t.createdAt >= s[0].createdAt then [t] + s else [s[0]] + Insert(t, s[1..])
  }

  /** `Task::latest()`: the rows in an order that is newest first. Ties are kept in table order. */
  function Latest(tasks: seq<Task>): (s: seq<Task>)
  {
    if tasks == [] then [] else Insert(tasks[0], Latest(tasks[1..]))
  }

  /** No task of `s` is newer than `v`. */
  predicate NoneNewerThan(s: seq<Task>, v: int)
  {
    forall k :: 0 <= k < |s| ==> s[k].createdAt <= v
  }

  lemma {:induction false} InsertPermutes(t: Task, s: seq<Task>)
    ensures multiset(Insert(t, s)) == multiset(s) + multiset{t}
  {
    if s != [] && t.createdAt < s[0].createdAt {
      InsertPermutes(t, s[1..]);
      assert s == [s[0]] + s[1..];
    }
  }

  lemma {:induction false} InsertBound(t: Task, s: seq<Task>, v: int)
    requires NoneNewerThan(s, v) && t.createdAt <= v
    ensures NoneNewerThan(Insert(t, s), v)
  {
    if s != [] && t.createdAt < s[0].createdAt {
      InsertBound(t, s[1..], v);
    }
  }

  lemma ConsNewestFirst(x: Task, r: seq<Task>)
    requires NewestFirst(r) && NoneNewerThan(r, x.createdAt)
    ensures NewestFirst([x] + r)
  {
    var s := [x] + r;
    forall i, j | 0 <= i < j < |s| ensures s[i].createdAt >= s[j].createdAt {
      assert s[j] == r[j - 1];
      if i > 0 {
        assert s[i] == r[i - 1];
      }
    }
  }

  lemma {:induction false} InsertSorted(t: Task, s: seq<Task>)
    requires NewestFirst(s)
    ensures NewestFirst(Insert(t, s))
  {
    if s == [] || t.createdAt >= s[0].createdAt {
      assert NoneNewerThan(s, t.createdAt) by {
        forall k | 0 <= k < |s| ensures s[k].createdAt <= t.createdAt {
          assert s[0].createdAt >= s[k].createdAt;
        }
      }
      ConsNewestFirst(t, s);
    } else {
      var tail := s[1..];
      InsertSorted(t, tail);
      assert NoneNewerThan(tail, s[0].createdAt) by {
        forall k | 0 <= k < |tail| ensures tail[k].createdAt <= s[0].createdAt {
          assert tail[k] == s[k + 1];
        }
      }
      InsertBound(t, tail, s[0].createdAt);
      ConsNewestFirst(s[0], Insert(t, tail));
    }
  }

  /** `latest()` is a rearrangement of the table. */
  lemma {:induction false} LatestPermutes(tasks: seq<Task>)
    ensures multiset(Latest(tasks)) == multiset(tasks)
    ensures |Latest(tasks)| == |tasks|
  {
    if tasks != [] {
      LatestPermutes(tasks[1..]);
      InsertPermutes(tasks[0], Latest(tasks[1..]));
      assert tasks == [tasks[0]] + tasks[1..];
    }
    assert |multiset(Latest(tasks))| == |Latest(tasks)|;
  }

  /** `latest()` is newest first. */
  lemma {:induction false} LatestSorted(tasks: seq<Task>)
    ensures NewestFirst(Latest(tasks))
  {
    if tasks != [] {
      LatestSorted(tasks[1..]);
      InsertSorted(tasks[0], Latest(tasks[1..]));
    }
  }

  function Titles(s: seq<Task>): (r: seq<string>)
    ensures |r| == |s| && forall i :: 0 <= i < |s| ==> r[i] == s[i].title
  {
    if s == [] then [] else [s[0].title] + Titles(s[1..])
  }

  /** `Task::latest()->limit(5)`. */
  function RecentTasks(tasks: seq<Task>): seq<Task>
  {
    var sorted := Latest(tasks);
    sorted[..if |sorted| < RecentLimit then |sorted| else RecentLimit]
  }

  /** `Task::latest()->limit(5)->pluck('title')`. */
  function RecentActivities(tasks: seq<Task>): seq<string>
  {
    Titles(RecentTasks(tasks))
  }

  /** As many tasks as there are, up to five; tasks of the table; newest first. */
  lemma RecentTasksShape(tasks: seq<Task>)
    ensures |RecentTasks(tasks)| == if |tasks| < RecentLimit then |tasks| else RecentLimit
    ensures NewestFirst(RecentTasks(tasks))
    ensures multiset(RecentTasks(tasks)) <= multiset(tasks)
  {
    LatestPermutes(tasks);
    LatestSorted(tasks);
    var sorted := Latest(tasks);
    var chosen := RecentTasks(tasks);
    assert sorted == chosen + sorted[|chosen|..];
  }

  /** No task left out of the recent ones is newer than one kept. */
  lemma OmittedAreNotNewer(tasks: seq<Task>, t: Task, k: int)
    requires t in multiset(tasks) - multiset(RecentTasks(tasks)) && 0 <= k < |RecentTasks(tasks)|
    ensures t.createdAt <= RecentTasks(tasks)[k].createdAt
  {
    LatestPermutes(tasks);
    LatestSorted(tasks);
    var sorted := Latest(tasks);
    var chosen := RecentTasks(tasks);
    var n := |chosen|;
    var rest := sorted[n..];
    assert sorted == chosen + rest;
    assert multiset(sorted) == multiset(chosen) + multiset(rest);
    assert t in multiset(rest);
    var m :| 0 <= m < |rest| && rest[m] == t;
    assert sorted[n + m] == t && sorted[k] == chosen[k];
  }

  /** The recent activities are the titles of those tasks, so at most five. */
  lemma RecentActivitiesCount(tasks: seq<Task>)
    ensures |RecentActivities(tasks)| <= RecentLimit
    ensures |tasks| >= RecentLimit ==> |RecentActivities(tasks)| == RecentLimit
  {
    RecentTasksShape(tasks);
  }

  /** `index`, with `projects` standing for the projects table. */
  function Index<P>(projects: seq<P>, tasks: seq<Task>): (s: Stats)
    ensures s.totalProjects == |projects|
    ensures s.activeTasks == CountActive(tasks) && s.completedTasks == CountCompleted(tasks)
    ensures s.recentActivities == RecentActivities(tasks)
    ensures s.activeTasks + s.completedTasks <= |tasks|
    ensures |s.recentActivities| <= RecentLimit
    ensures s.teamPerformance == []
  {
    CountsPartition(tasks);
    RecentActivitiesCount(tasks);
    Stats(|projects|, CountActive(tasks), CountCompleted(tasks), RecentActivities(tasks), [])
  }
}
