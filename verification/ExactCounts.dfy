/**
  Exact task membership, the agent counts over tasks and DAG work together, and the
  saturating live totals.  Maps are visited in an arbitrary order.
 */
module ExactCounts {
  import opened Wrappers
  import opened Sums
  import opened DagCounts

  datatype TaskRow = TaskRow(id: Id, known: bool, millis: int, status: string)

  datatype Member = Member(row: TaskRow, present: bool)

  predicate TerminalTask(status: string)
  {
    status in {"completed", "failed", "cancelled", "canceled", "lost", "interrupted", "error", "skipped"}
  }

  // Task membership

  function AdmitTask(members: map<Id, Member>, row: TaskRow): map<Id, Member>
  {
    if row.id in members && members[row.id].row.known &&
       (!row.known || row.millis <= members[row.id].row.millis)
    then members else members[row.id := Member(row, true)]
  }

  /** Rows that do not decode are None. */
  function AdmitTasks(members: map<Id, Member>, rows: seq<Option<TaskRow>>): map<Id, Member>
  {
    if rows == [] then members else
    var before := AdmitTasks(members, rows[..|rows| - 1]);
    match rows[|rows| - 1] case None => before case Some(row) => AdmitTask(before, row)
  }

  function TaskIds(rows: seq<Option<TaskRow>>): set<Id>
  {
    set i | 0 <= i < |rows| && rows[i].Some? :: rows[i].value.id
  }

  /** A complete report drops the unfinished tasks that it does not list. */
  function DropUnlisted(members: map<Id, Member>, listed: set<Id>): map<Id, Member>
  {
    map id | id in members ::
      if id !in listed && !TerminalTask(members[id].row.status) then members[id].(present := false) else members[id]
  }

  function MergeTasks(members: map<Id, Member>, rows: seq<Option<TaskRow>>, complete: bool): map<Id, Member>
  {
    var admitted := AdmitTasks(members, rows);
    if complete && None !in rows then DropUnlisted(admitted, TaskIds(rows)) else admitted
  }

  function PresentTasks(members: map<Id, Member>): set<Id> { set id | id in members && members[id].present }

  function RunningTasks(members: map<Id, Member>): set<Id>
  {
    set id | id in members && members[id].present && members[id].row.status == "running"
  }

  class TaskSnapshotCache {
    var countMembers: map<Id, Member>
    var runningCount: nat
    var totalCount: nat
    var countAuthorityKnown: bool

    constructor ()
      ensures countMembers == map[] && runningCount == 0 && totalCount == 0 && !countAuthorityKnown
    {
      countMembers, runningCount, totalCount, countAuthorityKnown := map[], 0, 0, false;
    }

    method MergeCountAuthority(incoming: seq<Option<TaskRow>>, complete: bool)
      modifies this
      ensures countMembers == MergeTasks(old(countMembers), incoming, complete)
      ensures countAuthorityKnown == (old(countAuthorityKnown) || (complete && None !in incoming))
      ensures countAuthorityKnown ==>
                runningCount == |RunningTasks(countMembers)| && totalCount == |PresentTasks(countMembers)|
      ensures !countAuthorityKnown ==> runningCount == old(runningCount) && totalCount == old(totalCount)
      ensures countAuthorityKnown ==>
                && runningCount == |set id | id in countMembers && countMembers[id].present && countMembers[id].row.status == "running"|
                && totalCount == |set id | id in countMembers && countMembers[id].present|
      ensures complete && None !in incoming ==> forall id :: id in countMembers && countMembers[id].present ==>
                || (exists i :: 0 <= i < |incoming| && incoming[i].Some? && incoming[i].value.id == id)
                || countMembers[id].row.status in
                     {"completed", "failed", "cancelled", "canceled", "lost", "interrupted", "error", "skipped"}
    {
      var listed, whole := AdmitIncoming(incoming, complete);
      if whole {
        DropMissing(listed);
        countAuthorityKnown := true;
      }
      if countAuthorityKnown {
        runningCount, totalCount := TallyTasks(countMembers);
      }
    }

    method AdmitIncoming(incoming: seq<Option<TaskRow>>, complete: bool) returns (listed: set<Id>, whole: bool)
      modifies `countMembers
      ensures countMembers == AdmitTasks(old(countMembers), incoming)
      ensures listed == TaskIds(incoming) && whole == (complete && None !in incoming)
    {
      listed, whole := {}, complete;
      for i := 0 to |incoming|
        invariant countMembers == AdmitTasks(old(countMembers), incoming[..i])
        invariant listed == TaskIds(incoming[..i]) && whole == (complete && None !in incoming[..i])
      {
        TaskIdsSnoc(incoming, i);
        assert incoming[..i + 1][..i] == incoming[..i];
        if incoming[i].None? {
          whole := false;
        } else {
          var next := incoming[i].value;
          listed := listed + {next.id};
          if !(next.id in countMembers && countMembers[next.id].row.known &&
               (!next.known || next.millis <= countMembers[next.id].row.millis)) {
            countMembers := countMembers[next.id := Member(next, true)];
          }
        }
      }
      assert incoming[..|incoming|] == incoming;
    }

    method DropMissing(listed: set<Id>)
      modifies `countMembers
      ensures countMembers == DropUnlisted(old(countMembers), listed)
    {
      var todo := countMembers.Keys;
      ghost var goal := DropUnlisted(countMembers, listed);
      while todo != {}
        invariant todo <= countMembers.Keys == goal.Keys == old(countMembers).Keys
        invariant forall id :: id in countMembers ==> countMembers[id] == if id in todo then old(countMembers)[id] else goal[id]
        decreases todo
      {
        var id :| id in todo;
        var current := countMembers[id];
        if current.present && id !in listed && !TerminalTask(current.row.status) {
          countMembers := countMembers[id := current.(present := false)];
        }
        todo := todo - {id};
      }
      assert countMembers == goal;
    }
  }

  lemma TaskIdsSnoc(rows: seq<Option<TaskRow>>, i: nat)
    requires i < |rows|
    ensures TaskIds(rows[..i + 1]) == TaskIds(rows[..i]) + (if rows[i].Some? then {rows[i].value.id} else {})
    ensures None in rows[..i + 1] <==> None in rows[..i] || rows[i] == None
  {
    assert rows[..i + 1] == rows[..i] + [rows[i]];
    forall id | id in TaskIds(rows[..i]) ensures id in TaskIds(rows[..i + 1]) {
      var j :| 0 <= j < i && rows[..i][j].Some? && rows[..i][j].value.id == id;
      assert rows[..i + 1][j].Some?;
    }
    if rows[i].Some? { assert rows[..i + 1][i].Some?; }
  }

  method TallyTasks(members: map<Id, Member>) returns (running: nat, total: nat)
    ensures running == |RunningTasks(members)| && total == |PresentTasks(members)|
  {
    running, total := 0, 0;
    var todo := members.Keys;
    ghost var r, p := RunningTasks(members), PresentTasks(members);
    assert r * todo == r && p * todo == p;
    while todo != {}
      invariant todo <= members.Keys
      invariant running + |r * todo| == |r| && total + |p * todo| == |p|
      decreases todo
    {
      var id :| id in todo;
      CountRemove(r, todo, id);
      CountRemove(p, todo, id);
      if members[id].present {
        total := total + 1;
        if members[id].row.status == "running" {
          running := running + 1;
        }
      }
      todo := todo - {id};
    }
    assert r * todo == {} && p * todo == {};
  }

  // Partial reports commute

  /** Clocks are known, and no two rows of a task share one; rows that do not decode are allowed. */
  predicate Clocked(rows: seq<Option<TaskRow>>)
  {
    && (forall i :: 0 <= i < |rows| && rows[i].Some? ==> rows[i].value.known)
    && forall i, j ::
         (0 <= i < |rows| && 0 <= j < |rows| && rows[i].Some? && rows[j].Some? && rows[i].value.id == rows[j].value.id &&
          rows[i].value.millis == rows[j].value.millis) ==> rows[i] == rows[j]
  }

  /** No row of the task has a later clock. */
  predicate NotOlder(rows: seq<Option<TaskRow>>, id: Id, millis: int)
  {
    forall i :: 0 <= i < |rows| && rows[i].Some? && rows[i].value.id == id ==> rows[i].value.millis <= millis
  }

  predicate IsNewest(rows: seq<Option<TaskRow>>, row: TaskRow)
  {
    Some(row) in rows && NotOlder(rows, row.id, row.millis)
  }

  /** What a task's entry must be after rows were reported to a table. */
  predicate Holds(members: map<Id, Member>, rows: seq<Option<TaskRow>>, id: Id, m: Member)
  {
    || (m.present && m.row.id == id && IsNewest(rows, m.row)
        && (id in members && members[id].row.known ==> members[id].row.millis < m.row.millis))
    || (id in members && m == members[id] && (id in TaskIds(rows) ==> m.row.known && NotOlder(rows, id, m.row.millis)))
  }

  lemma NewerOrNot(rows: seq<Option<TaskRow>>, last: Option<TaskRow>, id: Id, millis: int)
    requires NotOlder(rows, id, millis)
    ensures NotOlder(rows + [last], id, millis) <==> (last.Some? && last.value.id == id ==> last.value.millis <= millis)
  {
    var all := rows + [last];
    assert all[|rows|] == last;
  }

  /** The entry of a task that the last row does not replace. */
  lemma HoldsKept(members: map<Id, Member>, rows: seq<Option<TaskRow>>, last: Option<TaskRow>, id: Id, m: Member)
    requires Holds(members, rows, id, m) && Clocked(rows)
    requires last.Some? && last.value.id == id ==> m.row.known && last.value.millis <= m.row.millis
    ensures Holds(members, rows + [last], id, m)
  {
    var all := rows + [last];
    TaskIdsLast(rows, last);
    if NotOlder(rows, id, m.row.millis) { NewerOrNot(rows, last, id, m.row.millis); }
    if id !in TaskIds(rows) { NoRows(rows, id, m.row.millis); NewerOrNot(rows, last, id, m.row.millis); }
  }

  lemma NoRows(rows: seq<Option<TaskRow>>, id: Id, millis: int)
    requires id !in TaskIds(rows)
    ensures NotOlder(rows, id, millis)
  {
    assert forall i :: 0 <= i < |rows| && rows[i].Some? ==> rows[i].value.id in TaskIds(rows);
  }

  lemma TaskIdsLast(rows: seq<Option<TaskRow>>, last: Option<TaskRow>)
    ensures TaskIds(rows + [last]) == TaskIds(rows) + (if last.Some? then {last.value.id} else {})
  {
    var all := rows + [last];
    assert all[..|rows|] == rows && all[..|rows| + 1] == all;
    TaskIdsSnoc(all, |rows|);
  }

  /** The entry that the last row makes. */
  lemma HoldsLast(members: map<Id, Member>, rows: seq<Option<TaskRow>>, last: TaskRow)
    requires last.id in members && members[last.id].row.known ==> members[last.id].row.millis < last.millis
    requires NotOlder(rows, last.id, last.millis)
    ensures Holds(members, rows + [Some(last)], last.id, Member(last, true))
  {
    var all := rows + [Some(last)];
    assert all[|rows|] == Some(last);
    NewerOrNot(rows, Some(last), last.id, last.millis);
  }

  /** Rows that are newer than what a table holds are newer than all that was reported. */
  lemma NewerThanAll(members: map<Id, Member>, rows: seq<Option<TaskRow>>, id: Id, m: Member, millis: int)
    requires Holds(members, rows, id, m) && m.row.millis < millis && m.row.known
    ensures NotOlder(rows, id, millis) && (id in members && members[id].row.known ==> members[id].row.millis < millis)
  {
    if id !in TaskIds(rows) { NoRows(rows, id, m.row.millis); }
  }

  lemma KnownOnceReported(members: map<Id, Member>, rows: seq<Option<TaskRow>>, id: Id, m: Member)
    requires Holds(members, rows, id, m) && Clocked(rows) && !m.row.known
    ensures id !in TaskIds(rows) && id in members && m == members[id]
  {}

  lemma {:induction false} NewestRows(members: map<Id, Member>, rows: seq<Option<TaskRow>>)
    requires Clocked(rows)
    ensures var t := AdmitTasks(members, rows);
            t.Keys == members.Keys + TaskIds(rows) && forall id :: id in t ==> Holds(members, rows, id, t[id])
  {
    hide IsNewest, NotOlder, Holds, Clocked;
    if rows == [] {
      NothingReported(members);
    } else {
      var n := |rows| - 1;
      var most, last := rows[..n], rows[n];
      assert rows == most + [last];
      ClockedPrefix(rows, n);
      NewestRows(members, most);
      TaskIdsLast(most, last);
      forall id | id in AdmitTasks(members, rows) ensures Holds(members, rows, id, AdmitTasks(members, rows)[id]) {
        HoldsStep(members, most, last, id);
      }
    }
  }

  lemma NothingReported(members: map<Id, Member>)
    ensures TaskIds([]) == {} && forall id :: id in members ==> Holds(members, [], id, members[id])
  {}

  lemma ClockedPrefix(rows: seq<Option<TaskRow>>, n: nat)
    requires Clocked(rows) && n <= |rows|
    ensures Clocked(rows[..n])
  {}

  lemma HoldsStep(members: map<Id, Member>, rows: seq<Option<TaskRow>>, last: Option<TaskRow>, id: Id)
    requires Clocked(rows + [last])
    requires var t := AdmitTasks(members, rows);
             t.Keys == members.Keys + TaskIds(rows) && forall i :: i in t ==> Holds(members, rows, i, t[i])
    requires id in AdmitTasks(members, rows + [last])
    ensures Holds(members, rows + [last], id, AdmitTasks(members, rows + [last])[id])
  {
    hide IsNewest, NotOlder, Holds, Clocked;
    var all, t := rows + [last], AdmitTasks(members, rows);
    assert all[..|rows|] == rows && all[|all| - 1] == last;
    ClockedPrefix(all, |rows|);
    LastKnown(rows, last);
    if last.Some? && last.value.id == id {
      if id !in t {
        NoRows(rows, id, last.value.millis);
        HoldsLast(members, rows, last.value);
      } else if !t[id].row.known {
        KnownOnceReported(members, rows, id, t[id]);
        NoRows(rows, id, last.value.millis);
        HoldsLast(members, rows, last.value);
      } else if last.value.millis > t[id].row.millis {
        NewerThanAll(members, rows, id, t[id], last.value.millis);
        HoldsLast(members, rows, last.value);
      } else {
        HoldsKept(members, rows, last, id, t[id]);
      }
    } else {
      HoldsKept(members, rows, last, id, t[id]);
    }
  }

  lemma LastKnown(rows: seq<Option<TaskRow>>, last: Option<TaskRow>)
    requires Clocked(rows + [last])
    ensures last.Some? ==> last.value.known
  {
    assert (rows + [last])[|rows|] == last;
  }

  /** The same decoded rows, in any order and with any repetition. */
  ghost predicate SameRows(rows: seq<Option<TaskRow>>, other: seq<Option<TaskRow>>)
  {
    forall row :: Some(row) in rows <==> Some(row) in other
  }

  lemma SameTaskIds(rows: seq<Option<TaskRow>>, other: seq<Option<TaskRow>>)
    requires SameRows(rows, other)
    ensures TaskIds(rows) == TaskIds(other)
  {
    forall id ensures id in TaskIds(rows) <==> id in TaskIds(other) {
      if id in TaskIds(rows) {
        var i :| 0 <= i < |rows| && rows[i].Some? && rows[i].value.id == id;
        assert Some(rows[i].value) in other;
        var j :| 0 <= j < |other| && other[j] == Some(rows[i].value);
      }
      if id in TaskIds(other) {
        var i :| 0 <= i < |other| && other[i].Some? && other[i].value.id == id;
        assert Some(other[i].value) in rows;
        var j :| 0 <= j < |rows| && rows[j] == Some(other[i].value);
      }
    }
  }

  /** An entry is determined by the table before and the set of rows. */
  lemma HoldsUnique(members: map<Id, Member>, rows: seq<Option<TaskRow>>, other: seq<Option<TaskRow>>, id: Id, a: Member, b: Member)
    requires Clocked(rows) && SameRows(rows, other) && Holds(members, rows, id, a) && Holds(members, other, id, b)
    ensures a == b
  {
    SameTaskIds(rows, other);
    if Some(a.row) in rows && Some(b.row) in other && a.row.id == id && b.row.id == id {
      var i :| 0 <= i < |rows| && rows[i] == Some(a.row);
      var j :| 0 <= j < |rows| && rows[j] == Some(b.row);
      var k :| 0 <= k < |other| && other[k] == Some(a.row);
      var l :| 0 <= l < |other| && other[l] == Some(b.row);
    }
  }

  // A sequence of partial reports

  function Flat(reports: seq<seq<Option<TaskRow>>>): seq<Option<TaskRow>>
  {
    if reports == [] then [] else Flat(reports[..|reports| - 1]) + reports[|reports| - 1]
  }

  /** The table after the reports, each merged as a partial one. */
  function MergeAll(members: map<Id, Member>, reports: seq<seq<Option<TaskRow>>>): map<Id, Member>
  {
    if reports == [] then members
    else MergeTasks(MergeAll(members, reports[..|reports| - 1]), reports[|reports| - 1], false)
  }

  lemma {:induction false} AdmitConcat(members: map<Id, Member>, a: seq<Option<TaskRow>>, b: seq<Option<TaskRow>>)
    ensures AdmitTasks(members, a + b) == AdmitTasks(AdmitTasks(members, a), b)
  {
    if b == [] {
      assert a + b == a;
    } else {
      AdmitConcat(members, a, b[..|b| - 1]);
      assert (a + b)[..|a + b| - 1] == a + b[..|b| - 1];
    }
  }

  lemma {:induction false} MergeAllFlat(members: map<Id, Member>, reports: seq<seq<Option<TaskRow>>>)
    ensures MergeAll(members, reports) == AdmitTasks(members, Flat(reports))
  {
    if reports != [] {
      var n := |reports| - 1;
      MergeAllFlat(members, reports[..n]);
      AdmitConcat(members, Flat(reports[..n]), reports[n]);
    }
  }

  /**
    From any table, partial reports of the same rows give the same table, however the rows
    are ordered, repeated and divided into reports.
   */
  lemma ReportsCommute(members: map<Id, Member>, reports: seq<seq<Option<TaskRow>>>, others: seq<seq<Option<TaskRow>>>)
    requires Clocked(Flat(reports)) && Clocked(Flat(others)) && SameRows(Flat(reports), Flat(others))
    ensures MergeAll(members, reports) == MergeAll(members, others)
  {
    hide AdmitTasks, Holds, Clocked, SameRows, MergeAll, TaskIds;
    var rows, other := Flat(reports), Flat(others);
    MergeAllFlat(members, reports);
    MergeAllFlat(members, others);
    NewestRows(members, rows);
    NewestRows(members, other);
    SameTaskIds(rows, other);
    var t, u := AdmitTasks(members, rows), AdmitTasks(members, other);
    forall id | id in t ensures u[id] == t[id] {
      HoldsUnique(members, rows, other, id, t[id], u[id]);
    }
  }

  // Agents: present tasks and present DAG work, counted once each

  function TaskWork(members: map<Id, Member>): set<WorkKey>
  {
    set id | id in PresentTasks(members) :: WorkKey(id, true)
  }

  ghost function RunningAgents(members: map<Id, Member>, runs: map<Id, Run>): set<WorkKey>
  {
    (set id | id in RunningTasks(members) :: WorkKey(id, true)) + (RunningWorkOf(runs, runs.Keys) - TaskWork(members))
  }

  lemma {:induction false} TaskWorkSize(ids: set<Id>)
    ensures |set id | id in ids :: WorkKey(id, true)| == |ids|
    decreases ids
  {
    if ids != {} {
      var id :| id in ids;
      TaskWorkSize(ids - {id});
      assert (set i | i in ids :: WorkKey(i, true)) == (set i | i in ids - {id} :: WorkKey(i, true)) + {WorkKey(id, true)};
    }
  }

  /** The work of the runs in ids and, of that, the running work. */
  function WorkOf(runs: map<Id, Run>, ids: set<Id>): set<WorkKey>
  {
    set id, i | id in ids && id in runs && runs[id].present && 0 <= i < |runs[id].row.works| :: runs[id].row.works[i].key
  }

  function RunningWorkOf(runs: map<Id, Run>, ids: set<Id>): set<WorkKey>
  {
    set id, i | id in ids && id in runs && runs[id].present && 0 <= i < |runs[id].row.works| &&
                runs[id].row.works[i].running :: runs[id].row.works[i].key
  }

  /** Unites the work of one run. */
  method UniteWorks(work: map<WorkKey, bool>, works: seq<Work>) returns (united: map<WorkKey, bool>)
    ensures united.Keys == work.Keys + (set i | 0 <= i < |works| :: works[i].key)
    ensures forall k :: k in united ==>
              (united[k] <==> (k in work && work[k]) || exists i :: 0 <= i < |works| && works[i].key == k && works[i].running)
  {
    united := work;
    for j := 0 to |works|
      invariant united.Keys == work.Keys + (set i | 0 <= i < j :: works[i].key)
      invariant forall k :: k in united ==>
                  (united[k] <==> (k in work && work[k]) || exists i :: 0 <= i < j && works[i].key == k && works[i].running)
    {
      var k := works[j].key;
      united := united[k := (k in united && united[k]) || works[j].running];
    }
  }

  /** What a table of united work says about the runs in ids. */
  predicate Unites(work: map<WorkKey, bool>, runs: map<Id, Run>, ids: set<Id>)
  {
    && work.Keys == WorkOf(runs, ids)
    && forall k :: k in work ==> (work[k] <==> k in RunningWorkOf(runs, ids))
  }

  lemma UniteStep(work: map<WorkKey, bool>, united: map<WorkKey, bool>, runs: map<Id, Run>, ids: set<Id>, id: Id)
    requires Unites(work, runs, ids) && id in runs
    requires runs[id].present ==>
               && united.Keys == work.Keys + (set i | 0 <= i < |runs[id].row.works| :: runs[id].row.works[i].key)
               && forall k :: k in united ==>
                    (united[k] <==>
                       (k in work && work[k]) ||
                       exists i :: 0 <= i < |runs[id].row.works| && runs[id].row.works[i].key == k && runs[id].row.works[i].running)
    requires !runs[id].present ==> united == work
    ensures Unites(united, runs, ids + {id})
  {
    WorkOfAdd(runs, ids, id);
  }

  lemma WorkOfAdd(runs: map<Id, Run>, ids: set<Id>, id: Id)
    requires id in runs
    ensures WorkOf(runs, ids + {id}) == WorkOf(runs, ids) + WorkOf(runs, {id})
    ensures RunningWorkOf(runs, ids + {id}) == RunningWorkOf(runs, ids) + RunningWorkOf(runs, {id})
    ensures runs[id].present ==> WorkOf(runs, {id}) == set i | 0 <= i < |runs[id].row.works| :: runs[id].row.works[i].key
    ensures !runs[id].present ==> WorkOf(runs, {id}) == {} && RunningWorkOf(runs, {id}) == {}
  {}

  method UniteRuns(runs: map<Id, Run>) returns (work: map<WorkKey, bool>)
    ensures Unites(work, runs, runs.Keys)
  {
    hide Unites;
    work := map[];
    var todo := runs.Keys;
    ghost var visited: set<Id> := {};
    NothingUnited(runs);
    while todo != {}
      invariant visited + todo == runs.Keys && Unites(work, runs, visited)
      decreases todo
    {
      var id :| id in todo;
      ghost var before := work;
      if runs[id].present {
        work := UniteWorks(work, runs[id].row.works);
      }
      UniteStep(before, work, runs, visited, id);
      todo, visited := todo - {id}, visited + {id};
    }
    assert visited == runs.Keys;
  }

  lemma NothingUnited(runs: map<Id, Run>)
    ensures Unites(map[], runs, {})
  {}

  /** Counts the work that is not already counted as a task. */
  method CountUnseen(work: map<WorkKey, bool>, seen: set<WorkKey>) returns (running: nat, total: nat)
    ensures total == |work.Keys - seen|
    ensures running == |set k | k in work && work[k] && k !in seen|
  {
    running, total := 0, 0;
    var todo := work.Keys;
    ghost var r, t := (set k | k in work && work[k] && k !in seen), work.Keys - seen;
    assert r * todo == r && t * todo == t;
    while todo != {}
      invariant todo <= work.Keys
      invariant running + |r * todo| == |r| && total + |t * todo| == |t|
      decreases todo
    {
      var k :| k in todo;
      CountRemove(r, todo, k);
      CountRemove(t, todo, k);
      if k !in seen {
        total := total + 1;
        if work[k] {
          running := running + 1;
        }
      }
      todo := todo - {k};
    }
    assert r * todo == {} && t * todo == {};
  }

  /** Every agent is counted once, whether a task, DAG work, or both. */
  method ExactAgentCounts(members: map<Id, Member>, runs: map<Id, Run>) returns (running: nat, total: nat)
    ensures total == |TaskWork(members) + WorkOf(runs, runs.Keys)|
    ensures running == |RunningAgents(members, runs)| && running <= total
    ensures var tasks := set id | id in members && members[id].present :: WorkKey(id, true);
            var dag := set id, i | id in runs && runs[id].present && 0 <= i < |runs[id].row.works| :: runs[id].row.works[i].key;
            total == |tasks + dag|
    ensures var tasks := set id | id in members && members[id].present :: WorkKey(id, true);
            var busy := set id | id in members && members[id].present && members[id].row.status == "running" :: WorkKey(id, true);
            var live := set id, i | id in runs && runs[id].present && 0 <= i < |runs[id].row.works| && runs[id].row.works[i].running ::
                          runs[id].row.works[i].key;
            running == |busy + (live - tasks)|
  {
    running, total := TallyTasks(members);
    var work := UniteRuns(runs);
    var r, t := CountUnseen(work, TaskWork(members));
    running, total := running + r, total + t;
    AgentsAddUp(members, runs, work);
    AgentSets(members, runs);
  }

  lemma AgentSets(members: map<Id, Member>, runs: map<Id, Run>)
    ensures TaskWork(members) == set id | id in members && members[id].present :: WorkKey(id, true)
    ensures WorkOf(runs, runs.Keys) ==
            set id, i | id in runs && runs[id].present && 0 <= i < |runs[id].row.works| :: runs[id].row.works[i].key
    ensures RunningAgents(members, runs) ==
            (set id | id in members && members[id].present && members[id].row.status == "running" :: WorkKey(id, true)) +
            ((set id, i | id in runs && runs[id].present && 0 <= i < |runs[id].row.works| && runs[id].row.works[i].running ::
                runs[id].row.works[i].key) - TaskWork(members))
  {
    assert RunningWorkOf(runs, runs.Keys) ==
           set id, i | id in runs && runs[id].present && 0 <= i < |runs[id].row.works| && runs[id].row.works[i].running ::
             runs[id].row.works[i].key;
  }

  lemma AgentsAddUp(members: map<Id, Member>, runs: map<Id, Run>, work: map<WorkKey, bool>)
    requires Unites(work, runs, runs.Keys)
    ensures |PresentTasks(members)| + |work.Keys - TaskWork(members)| == |TaskWork(members) + WorkOf(runs, runs.Keys)|
    ensures |RunningTasks(members)| + |set k | k in work && work[k] && k !in TaskWork(members)| ==
            |RunningAgents(members, runs)|
    ensures |RunningAgents(members, runs)| <= |TaskWork(members) + WorkOf(runs, runs.Keys)|
  {
    hide TaskWork;
    hide RunningTasks;
    hide PresentTasks;
    hide WorkOf;
    hide RunningWorkOf;
    var dag, live := WorkOf(runs, runs.Keys), RunningWorkOf(runs, runs.Keys);
    var tasks := set id | id in RunningTasks(members) :: WorkKey(id, true);
    var seen := TaskWork(members);
    TaskSets(members);
    RunningIsWork(runs);
    TaskWorkSize(PresentTasks(members));
    TaskWorkSize(RunningTasks(members));
    Disjoint(seen, dag);
    assert (set k | k in work && work[k] && k !in seen) == live - seen;
    assert tasks + (live - seen) <= seen + dag;
    assert |tasks + (live - seen)| == |tasks| + |live - seen|;
    SubsetSize(tasks + (live - seen), seen + dag);
  }

  lemma TaskSets(members: map<Id, Member>)
    ensures TaskWork(members) == set id | id in PresentTasks(members) :: WorkKey(id, true)
    ensures (set id | id in RunningTasks(members) :: WorkKey(id, true)) <= TaskWork(members)
  {}

  lemma RunningIsWork(runs: map<Id, Run>)
    ensures RunningWorkOf(runs, runs.Keys) <= WorkOf(runs, runs.Keys)
  {}

  lemma Disjoint<T>(a: set<T>, b: set<T>)
    ensures |a| + |b - a| == |a + b|
  {
    assert a + b == a + (b - a);
  }

  lemma SubsetSize<T>(a: set<T>, b: set<T>)
    requires a <= b
    ensures |a| <= |b|
  {
    assert b == a + (b - a);
  }

  // Live totals

  const MAX_LIVE_INTEGER: nat := 9007199254740991

  function Min(a: nat, b: nat): nat { if a <= b then a else b }

  /** The runs that count towards the live totals. */
  function LiveRuns(runs: map<Id, Run>): set<Id> { set id | id in runs && (runs[id].present || runs[id].row.terminal) }

  function CompletedOf(runs: map<Id, Run>): (f: Id -> nat)
    ensures forall id :: f(id) == if id in runs && (runs[id].present || runs[id].row.terminal) then runs[id].row.completed else 0
  {
    id => if id in LiveRuns(runs) then runs[id].row.completed else 0
  }

  function TotalOf(runs: map<Id, Run>): (f: Id -> nat)
    ensures forall id :: f(id) == if id in runs && (runs[id].present || runs[id].row.terminal) then runs[id].row.total else 0
  {
    id => if id in LiveRuns(runs) then runs[id].row.total else 0
  }

  ghost function TrueDone(runs: map<Id, Run>): nat { Sum(runs.Keys, CompletedOf(runs)) }

  ghost function TrueTotal(runs: map<Id, Run>): nat { Sum(runs.Keys, TotalOf(runs)) }

  predicate IncompleteRun(runs: map<Id, Run>, ids: set<Id>)
  {
    exists id :: id in ids && id in LiveRuns(runs) && runs[id].row.countsIncomplete
  }

  /** Rows decode to counts with completed at most total. */
  predicate WfCounts(runs: map<Id, Run>) { forall id :: id in runs ==> runs[id].row.completed <= runs[id].row.total }

  /** Totals so far, cut at the bound, and whether they may be wrong. */
  datatype Live = Live(done: nat, total: nat, incomplete: bool)

  ghost function LiveOf(runs: map<Id, Run>, visited: set<Id>, authorityKnown: bool): Live
  {
    var d, t := Sum(visited, CompletedOf(runs)), Sum(visited, TotalOf(runs));
    Live(Min(MAX_LIVE_INTEGER, d), Min(MAX_LIVE_INTEGER, t),
         !authorityKnown || IncompleteRun(runs, visited) || d > MAX_LIVE_INTEGER || t > MAX_LIVE_INTEGER)
  }

  function AddRun(l: Live, run: Run): Live
  {
    if !(run.present || run.row.terminal) then l
    else Live(Min(MAX_LIVE_INTEGER, l.done + run.row.completed), Min(MAX_LIVE_INTEGER, l.total + run.row.total),
              l.incomplete || run.row.countsIncomplete ||
              run.row.completed > MAX_LIVE_INTEGER - l.done || run.row.total > MAX_LIVE_INTEGER - l.total)
  }

  lemma LiveOfAdd(runs: map<Id, Run>, visited: set<Id>, id: Id, authorityKnown: bool)
    requires id in runs && id !in visited
    ensures LiveOf(runs, visited + {id}, authorityKnown) == AddRun(LiveOf(runs, visited, authorityKnown), runs[id])
  {
    hide Sum, IncompleteRun, CompletedOf, TotalOf;
    LiveStep(runs, visited, id);
  }

  /** Adding in any order saturates at the same totals and raises the flag in the same cases. */
  method PublishLiveCounts(runs: map<Id, Run>, authorityKnown: bool) returns (done: nat, total: nat, incomplete: bool)
    requires WfCounts(runs)
    ensures done == Min(MAX_LIVE_INTEGER, TrueDone(runs)) && total == Min(MAX_LIVE_INTEGER, TrueTotal(runs))
    ensures done <= total
    ensures incomplete <==> !authorityKnown || IncompleteRun(runs, runs.Keys) ||
                            TrueDone(runs) > MAX_LIVE_INTEGER || TrueTotal(runs) > MAX_LIVE_INTEGER
    ensures var d, t := Sum(runs.Keys, CompletedOf(runs)), Sum(runs.Keys, TotalOf(runs));
            && done == (if d > 9007199254740991 then 9007199254740991 else d)
            && total == (if t > 9007199254740991 then 9007199254740991 else t)
            && (incomplete <==>
                  || !authorityKnown || d > 9007199254740991 || t > 9007199254740991
                  || exists id :: id in runs && (runs[id].present || runs[id].row.terminal) && runs[id].row.countsIncomplete)
  {
    hide Sum, CompletedOf, TotalOf;
    done, total, incomplete := 0, 0, !authorityKnown;
    var todo := runs.Keys;
    ghost var visited: set<Id> := {};
    NothingLive(runs, authorityKnown);
    while todo != {}
      invariant visited + todo == runs.Keys && visited !! todo
      invariant Live(done, total, incomplete) == LiveOf(runs, visited, authorityKnown)
      decreases todo
    {
      var id :| id in todo;
      LiveOfAdd(runs, visited, id, authorityKnown);
      var row := runs[id].row;
      if runs[id].present || row.terminal {
        incomplete := incomplete || row.countsIncomplete ||
                      row.completed > MAX_LIVE_INTEGER - done || row.total > MAX_LIVE_INTEGER - total;
        done := Min(MAX_LIVE_INTEGER, done + row.completed);
        total := Min(MAX_LIVE_INTEGER, total + row.total);
      }
      todo, visited := todo - {id}, visited + {id};
    }
    assert visited == runs.Keys;
    DoneWithinTotal(runs);
  }

  lemma NothingLive(runs: map<Id, Run>, authorityKnown: bool)
    ensures LiveOf(runs, {}, authorityKnown) == Live(0, 0, !authorityKnown)
  {}

  lemma DoneWithinTotal(runs: map<Id, Run>)
    requires WfCounts(runs)
    ensures TrueDone(runs) <= TrueTotal(runs)
  {
    SumMonotone(runs.Keys, CompletedOf(runs), TotalOf(runs));
  }

  lemma LiveStep(runs: map<Id, Run>, visited: set<Id>, id: Id)
    requires id in runs && id !in visited
    ensures Sum(visited + {id}, CompletedOf(runs)) ==
            Sum(visited, CompletedOf(runs)) + (if id in LiveRuns(runs) then runs[id].row.completed else 0)
    ensures Sum(visited + {id}, TotalOf(runs)) ==
            Sum(visited, TotalOf(runs)) + (if id in LiveRuns(runs) then runs[id].row.total else 0)
    ensures IncompleteRun(runs, visited + {id}) <==>
            IncompleteRun(runs, visited) || (id in LiveRuns(runs) && runs[id].row.countsIncomplete)
  {
    SumAdd(visited, id, CompletedOf(runs));
    SumAdd(visited, id, TotalOf(runs));
  }

  /** Finished tasks; the alias "canceled" is not classified here. */
  function DoneTasks(members: map<Id, Member>): set<Id>
  {
    set id | id in members && members[id].present && TerminalTask(members[id].row.status) && members[id].row.status != "canceled"
  }

  method PublishTaskDone(members: map<Id, Member>) returns (done: nat)
    ensures done == |DoneTasks(members)|
    ensures done == |set id | id in members && members[id].present &&
                      members[id].row.status in {"completed", "failed", "cancelled", "lost", "interrupted", "error", "skipped"}|
  {
    done := 0;
    var todo := members.Keys;
    ghost var d := DoneTasks(members);
    assert d * todo == d;
    while todo != {}
      invariant todo <= members.Keys && done + |d * todo| == |d|
      decreases todo
    {
      var id :| id in todo;
      CountRemove(d, todo, id);
      var m := members[id];
      if m.present && TerminalTask(m.row.status) && m.row.status != "canceled" {
        done := done + 1;
      }
      todo := todo - {id};
    }
    assert d * todo == {};
    assert d == set id | id in members && members[id].present &&
                  members[id].row.status in {"completed", "failed", "cancelled", "lost", "interrupted", "error", "skipped"};
  }

  /** Running DAG work that is also a present task. */
  ghost function SharedRunning(members: map<Id, Member>, runs: map<Id, Run>, ids: set<Id>): set<WorkKey>
  {
    RunningWorkOf(runs, ids) * TaskWork(members)
  }

  /** The work of one run that is running and also a present task. */
  method ShareWorks(members: map<Id, Member>, works: seq<Work>, seen: set<WorkKey>) returns (all: set<WorkKey>)
    ensures all == seen + (set i | 0 <= i < |works| && works[i].running && works[i].key in TaskWork(members) :: works[i].key)
  {
    all := seen;
    for j := 0 to |works|
      invariant all == seen + (set i | 0 <= i < j && works[i].running && works[i].key in TaskWork(members) :: works[i].key)
    {
      var k := works[j].key;
      InTaskWork(members, k);
      if works[j].running && k.task && k.id in members && members[k.id].present {
        all := all + {k};
      }
    }
  }

  lemma InTaskWork(members: map<Id, Member>, k: WorkKey)
    ensures k in TaskWork(members) <==> k.task && k.id in members && members[k.id].present
  {
    if k.task && k.id in members && members[k.id].present {
      assert k.id in PresentTasks(members) && k == WorkKey(k.id, true);
    }
  }

  lemma SharedStep(members: map<Id, Member>, runs: map<Id, Run>, visited: set<Id>, id: Id)
    requires id in runs
    ensures SharedRunning(members, runs, visited + {id}) ==
            SharedRunning(members, runs, visited) +
            (if runs[id].present then
               set i | 0 <= i < |runs[id].row.works| && runs[id].row.works[i].running && runs[id].row.works[i].key in TaskWork(members) ::
                 runs[id].row.works[i].key
             else {})
  {
    hide TaskWork;
  }

  /** When both rosters are complete, running work that is a present task is subtracted once. */
  method PublishLiveRunning(running: int, members: map<Id, Member>, runs: map<Id, Run>, complete: bool) returns (live: int)
    ensures !complete ==> live == running
    ensures complete ==> var rest := running - |SharedRunning(members, runs, runs.Keys)|; live == if rest < 0 then 0 else rest
    ensures complete ==>
              var shared := set id, i | id in runs && runs[id].present && 0 <= i < |runs[id].row.works| && runs[id].row.works[i].running
                              && runs[id].row.works[i].key.task && runs[id].row.works[i].key.id in members
                              && members[runs[id].row.works[i].key.id].present :: runs[id].row.works[i].key;
              live == if running >= |shared| then running - |shared| else 0
  {
    hide TaskWork, SharedRunning;
    live := running;
    if !complete {
      return;
    }
    var seen: set<WorkKey> := {};
    var todo := runs.Keys;
    ghost var visited: set<Id> := {};
    NothingShared(members, runs);
    while todo != {}
      invariant visited + todo == runs.Keys && seen == SharedRunning(members, runs, visited)
      decreases todo
    {
      var id :| id in todo;
      SharedStep(members, runs, visited, id);
      if runs[id].present {
        seen := ShareWorks(members, runs[id].row.works, seen);
      }
      todo, visited := todo - {id}, visited + {id};
    }
    assert visited == runs.Keys;
    SharedMeans(members, runs);
    live := running - |seen|;
    if live < 0 {
      live := 0;
    }
  }

  lemma SharedMeans(members: map<Id, Member>, runs: map<Id, Run>)
    ensures SharedRunning(members, runs, runs.Keys) ==
            set id, i | id in runs && runs[id].present && 0 <= i < |runs[id].row.works| && runs[id].row.works[i].running
              && runs[id].row.works[i].key.task && runs[id].row.works[i].key.id in members
              && members[runs[id].row.works[i].key.id].present :: runs[id].row.works[i].key
  {
    hide TaskWork;
    forall k ensures k in TaskWork(members) <==> k.task && k.id in members && members[k.id].present { InTaskWork(members, k); }
  }

  lemma NothingShared(members: map<Id, Member>, runs: map<Id, Run>)
    ensures SharedRunning(members, runs, {}) == {}
  {}
}
