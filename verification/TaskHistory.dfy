/** What the hourly cleanup of the task history leaves behind. */
module TaskHistory {
  import opened TaskRecords

  ghost predicate RecentFirst(tasks: seq<Task>) {
    forall i, j :: 0 <= i < j < |tasks| ==> tasks[i].modified >= tasks[j].modified
  }

  function Insert(t: Task, sorted: seq<Task>): (r: seq<Task>)
  {
    if sorted == [] || sorted[0].modified < t.modified then [t] + sorted
    else [sorted[0]] + Insert(t, sorted[1..])
  }

  lemma {:induction false} InsertMembers(t: Task, sorted: seq<Task>)
    ensures multiset(Insert(t, sorted)) == multiset(sorted) + multiset{t}
    ensures forall x :: x in Insert(t, sorted) ==> x == t || x in sorted
  {
    if sorted != [] && sorted[0].modified >= t.modified {
      InsertMembers(t, sorted[1..]);
      assert sorted == [sorted[0]] + sorted[1..];
      assert multiset(sorted) == multiset{sorted[0]} + multiset(sorted[1..]);
    }
  }

  lemma {:induction false} InsertKeeps(t: Task, sorted: seq<Task>)
    requires RecentFirst(sorted)
    ensures RecentFirst(Insert(t, sorted))
  {
    if sorted != [] && sorted[0].modified >= t.modified {
      InsertKeeps(t, sorted[1..]);
      InsertMembers(t, sorted[1..]);
      var rest := Insert(t, sorted[1..]);
      forall x | x in rest ensures sorted[0].modified >= x.modified {
        assert x == t || x in sorted[1..];
      }
      hide Insert;
      FirstIsRecent(sorted[0], rest);
    }
  }

  lemma FirstIsRecent(t: Task, rest: seq<Task>)
    requires RecentFirst(rest) && forall x :: x in rest ==> t.modified >= x.modified
    ensures RecentFirst([t] + rest)
  {
    forall i, j | 0 <= i < j < |[t] + rest| ensures ([t] + rest)[i].modified >= ([t] + rest)[j].modified {
      assert ([t] + rest)[j] == rest[j - 1];
    }
  }

  /** The sorting library: some order by time of modification. */
  method SortByModified(tasks: seq<Task>) returns (sorted: seq<Task>)
    ensures multiset(sorted) == multiset(tasks) && RecentFirst(sorted)
  {
    sorted := [];
    for k := 0 to |tasks|
      invariant multiset(sorted) == multiset(tasks[..k]) && RecentFirst(sorted)
    {
      InsertKeeps(tasks[k], sorted);
      InsertMembers(tasks[k], sorted);
      assert tasks[..k + 1] == tasks[..k] + [tasks[k]];
      sorted := Insert(tasks[k], sorted);
    }
    assert tasks[..|tasks|] == tasks;
  }

  ghost function Uuids(tasks: seq<Task>): set<Uuid> {
    set t | t in tasks :: t.uuid
  }

  ghost predicate Differ(tasks: seq<Task>) {
    forall i, j :: 0 <= i < j < |tasks| ==> tasks[i].uuid != tasks[j].uuid
  }

  /** The records of all completed tasks, each once, in some order. */
  ghost predicate AllCompleted(tasks: seq<Task>, store: Store) {
    && Uuids(tasks) == store.completed.Keys
    && (forall i :: 0 <= i < |tasks| ==> tasks[i].uuid in store.completed && store.completed[tasks[i].uuid] == tasks[i])
    && Differ(tasks)
  }

  /** The given tasks and their logs are gone, and nothing else is. */
  ghost predicate Deleted(before: Store, after: Store, gone: seq<Task>) {
    && after.queued == before.queued && after.running == before.running
    && after.completed == before.completed - Uuids(gone)
    && after.logs == before.logs - Uuids(gone)
  }

  /** The contract of the cleanup for a limit that is not negative. */
  ghost predicate Cleaned(before: Store, after: Store, limit: nat) {
    && after.queued == before.queued && after.running == before.running
    && after.completed.Keys <= before.completed.Keys
    && (forall u :: u in after.completed ==> after.completed[u] == before.completed[u])
    && |after.completed| == (if |before.completed| > limit then limit else 0)
    && (forall u, v :: u in after.completed && v in before.completed && v !in after.completed ==>
          before.completed[u].modified >= before.completed[v].modified)
    && (forall u :: u in before.completed && u !in after.completed ==> u !in after.logs)
    && (forall u :: u in after.completed || u !in before.completed ==>
          (u in after.logs <==> u in before.logs) && (u in after.logs ==> after.logs[u] == before.logs[u]))
  }

  lemma {:induction false} UuidCount(tasks: seq<Task>)
    requires Differ(tasks)
    ensures |Uuids(tasks)| == |tasks|
  {
    if tasks == [] {
      assert Uuids(tasks) == {};
    } else {
      UuidsSplit(tasks, 1);
      UuidCount(tasks[1..]);
      assert Uuids(tasks[..1]) == {tasks[0].uuid} by { assert tasks[..1] == [tasks[0]]; }
    }
  }

  lemma UuidsSplit(tasks: seq<Task>, n: nat)
    requires Differ(tasks) && n <= |tasks|
    ensures Uuids(tasks) == Uuids(tasks[..n]) + Uuids(tasks[n..])
    ensures Uuids(tasks[..n]) !! Uuids(tasks[n..])
    ensures Differ(tasks[..n]) && Differ(tasks[n..])
  {
    assert tasks == tasks[..n] + tasks[n..];
    forall s, t | s in tasks[..n] && t in tasks[n..] ensures s.uuid != t.uuid {
      var i :| 0 <= i < n && tasks[..n][i] == s;
      var j :| 0 <= j < |tasks| - n && tasks[n..][j] == t;
      assert tasks[i] == s && tasks[n + j] == t;
    }
  }

  /** Permuting the records changes neither which they are nor that they differ. */
  lemma Permuted(tasks: seq<Task>, sorted: seq<Task>, store: Store)
    requires AllCompleted(tasks, store) && multiset(sorted) == multiset(tasks)
    ensures AllCompleted(sorted, store)
  {
    forall t ensures t in sorted <==> t in tasks {
      assert t in multiset(sorted) <==> t in multiset(tasks);
    }
    forall i | 0 <= i < |sorted| ensures sorted[i].uuid in store.completed && store.completed[sorted[i].uuid] == sorted[i] {
      assert sorted[i] in tasks;
    }
    forall i, j | 0 <= i < j < |sorted| ensures sorted[i].uuid != sorted[j].uuid {
      if sorted[i].uuid == sorted[j].uuid {
        Twice(sorted, i, j);
        Once(tasks, sorted[i]);
      }
    }
  }

  lemma Twice<T>(list: seq<T>, i: nat, j: nat)
    requires i < j < |list| && list[i] == list[j]
    ensures multiset(list)[list[i]] >= 2
  {
    assert list == list[..j] + list[j..];
    assert list[i] == list[..j][i] && list[j] == list[j..][0];
    assert multiset(list) == multiset(list[..j]) + multiset(list[j..]);
  }

  lemma {:induction false} Once(tasks: seq<Task>, t: Task)
    requires Differ(tasks)
    ensures multiset(tasks)[t] <= 1
  {
    if tasks != [] {
      var rest := tasks[1..];
      assert tasks == [tasks[0]] + rest;
      Once(rest, t);
      if tasks[0] == t {
        assert t !in rest;
        assert multiset(rest)[t] == 0;
      }
    }
  }

  /** Deleting all but the most recent tasks meets the contract. */
  lemma TailDeleted(before: Store, after: Store, sorted: seq<Task>, limit: nat)
    requires AllCompleted(sorted, before) && RecentFirst(sorted)
    requires Deleted(before, after, if |sorted| > limit then sorted[limit..] else sorted)
    ensures Cleaned(before, after, limit)
  {
    var n := if |sorted| > limit then limit else 0;
    var kept, gone := sorted[..n], sorted[n..];
    assert n == 0 ==> gone == sorted;
    UuidsSplit(sorted, n);
    UuidCount(sorted);
    UuidCount(kept);
    forall u, v | u in Uuids(kept) && v in Uuids(gone)
      ensures u in before.completed && v in before.completed && before.completed[u].modified >= before.completed[v].modified
    {
      KeptIsRecent(before, sorted, n, u, v);
    }
    assert before.completed.Keys == Uuids(sorted);
    hide Uuids, Differ, AllCompleted, RecentFirst;
    TailCleans(before, after, Uuids(kept), Uuids(gone), limit);
  }

  lemma TailCleans(before: Store, after: Store, kept: set<Uuid>, gone: set<Uuid>, limit: nat)
    requires before.completed.Keys == kept + gone && kept !! gone
    requires after == before.(completed := before.completed - gone, logs := before.logs - gone)
    requires |kept| == if |before.completed| > limit then limit else 0
    requires forall u, v :: u in kept && v in gone ==> before.completed[u].modified >= before.completed[v].modified
    ensures Cleaned(before, after, limit)
  {
    assert after.completed.Keys == kept;
    assert |after.completed| == |after.completed.Keys|;
  }

  lemma KeptIsRecent(before: Store, sorted: seq<Task>, n: nat, u: Uuid, v: Uuid)
    requires AllCompleted(sorted, before) && RecentFirst(sorted) && n <= |sorted|
    requires u in Uuids(sorted[..n]) && v in Uuids(sorted[n..])
    ensures u in before.completed && v in before.completed
    ensures before.completed[u].modified >= before.completed[v].modified
  {
    var s :| s in sorted[..n] && s.uuid == u;
    var t :| t in sorted[n..] && t.uuid == v;
    var i :| 0 <= i < n && sorted[..n][i] == s;
    var j :| 0 <= j < |sorted| - n && sorted[n..][j] == t;
    assert sorted[i] == s && sorted[n + j] == t;
  }

  /** A history within the limit is not kept: it is deleted whole. The limit is what remains only when it was exceeded. */
  lemma LimitKeptWhenExceeded(before: Store, after: Store, limit: nat)
    requires Cleaned(before, after, limit)
    ensures |after.completed| == (if |before.completed| < limit then |before.completed| else limit) <==>
            |before.completed| > limit || before.completed == map[] || limit == 0
    ensures 0 < |before.completed| <= limit ==> after.completed == map[]
  {
  }
}
