/**
  Exact task membership over every history of reports, complete or not, with and without
  clocks, and with rows that do not decode.  The reports themselves say which row of a task
  counts and whether it is present; TasksExact says that the table keeps exactly that.
 */
module TaskHistory {
  import opened Wrappers
  import opened DagCounts
  import opened ExactCounts

  datatype Report = Report(rows: seq<Option<TaskRow>>, complete: bool)

  /** The rows that decode. */
  function Decoded(rows: seq<Option<TaskRow>>): seq<TaskRow>
  {
    if rows == [] then []
    else Decoded(rows[..|rows| - 1]) + if rows[|rows| - 1].Some? then [rows[|rows| - 1].value] else []
  }

  /** Every row that was reported, in order. */
  function Reported(ds: seq<Report>): seq<TaskRow>
  {
    if ds == [] then [] else Reported(ds[..|ds| - 1]) + Decoded(ds[|ds| - 1].rows)
  }

  function Table(ds: seq<Report>): map<Id, Member>
  {
    if ds == [] then map[] else MergeTasks(Table(ds[..|ds| - 1]), ds[|ds| - 1].rows, ds[|ds| - 1].complete)
  }

  predicate Named(rows: seq<TaskRow>, id: Id)
  {
    exists i :: 0 <= i < |rows| && rows[i].id == id
  }

  /** No row of the task has a clock. */
  predicate NoClock(rows: seq<TaskRow>, id: Id)
  {
    forall i :: 0 <= i < |rows| && rows[i].id == id ==> !rows[i].known
  }

  /** The row takes the place of what was reported: newer than every clock of its task, which may have none. */
  predicate TakesOver(past: seq<TaskRow>, r: TaskRow)
  {
    || NoClock(past, r.id)
    || (r.known && forall i :: 0 <= i < |past| && past[i].id == r.id && past[i].known ==> past[i].millis < r.millis)
  }

  /** The i-th row is the latest of its task: it took over, and no later row did. */
  predicate Latest(rows: seq<TaskRow>, i: nat)
    requires i < |rows|
  {
    && TakesOver(rows[..i], rows[i])
    && forall j :: i < j < |rows| && rows[j].id == rows[i].id ==> !TakesOver(rows[..j], rows[j])
  }

  /** A report has a row of the task that took over what was reported before it. */
  predicate Renews(past: seq<TaskRow>, rows: seq<TaskRow>, id: Id)
  {
    exists j :: 0 <= j < |rows| && rows[j].id == id && TakesOver(past, rows[j])
  }

  predicate IsLatest(rows: seq<TaskRow>, row: TaskRow)
  {
    exists i: nat :: i < |rows| && rows[i] == row && Latest(rows, i)
  }

  /** The latest row of the task is in a final status. */
  predicate Finished(rows: seq<TaskRow>, id: Id)
  {
    exists i: nat :: i < |rows| && rows[i].id == id && Latest(rows, i) &&
      rows[i].status in {"completed", "failed", "cancelled", "canceled", "lost", "interrupted", "error", "skipped"}
  }

  /** A report that says everything: complete, and every row of it decodes. */
  predicate Whole(d: Report)
  {
    d.complete && None !in d.rows
  }

  /** A task is present from its latest row until a whole report omits it unfinished. */
  predicate Present(ds: seq<Report>, id: Id)
  {
    ds != [] &&
    var before, d := ds[..|ds| - 1], ds[|ds| - 1];
    && (Renews(Reported(before), Decoded(d.rows), id) || Present(before, id))
    && (Whole(d) && !Named(Decoded(d.rows), id) ==> Finished(Reported(ds), id))
  }

  // One more row

  lemma Snoc(rows: seq<TaskRow>, r: TaskRow)
    ensures var all := rows + [r];
            && all[|rows|] == r && all[..|rows|] == rows && (forall i :: 0 <= i < |rows| ==> all[i] == rows[i])
            && forall i :: 0 <= i <= |rows| ==> all[..i] == rows[..i]
  {}

  lemma NamedSnoc(rows: seq<TaskRow>, r: TaskRow, id: Id)
    ensures Named(rows + [r], id) <==> Named(rows, id) || r.id == id
  {
    Snoc(rows, r);
    if i :| 0 <= i < |rows| && rows[i].id == id { assert (rows + [r])[i].id == id; }
  }

  lemma LatestSnoc(rows: seq<TaskRow>, r: TaskRow, row: TaskRow)
    ensures IsLatest(rows, row) && (r.id == row.id ==> !TakesOver(rows, r)) ==> IsLatest(rows + [r], row)
    ensures TakesOver(rows, r) ==> IsLatest(rows + [r], r)
  {
    hide TakesOver;
    Snoc(rows, r);
    if i: nat :| i < |rows| && rows[i] == row && Latest(rows, i) && (r.id == row.id ==> !TakesOver(rows, r)) {
      assert Latest(rows + [r], i);
    }
    if TakesOver(rows, r) { assert Latest(rows + [r], |rows|); }
  }

  /** The clock of the latest row is the latest of its task, if it has one at all. */
  lemma {:induction false} LatestClock(rows: seq<TaskRow>, i: nat)
    requires i < |rows| && Latest(rows, i)
    ensures rows[i].known <==> !NoClock(rows, rows[i].id)
    ensures rows[i].known ==> forall j :: 0 <= j < |rows| && rows[j].id == rows[i].id && rows[j].known ==> rows[j].millis <= rows[i].millis
  {
    if |rows| > i + 1 {
      var n := |rows| - 1;
      assert Latest(rows[..n], i) by { assert forall j :: 0 <= j <= n ==> rows[..n][..j] == rows[..j]; }
      LatestClock(rows[..n], i);
      assert forall j :: 0 <= j < n ==> rows[..n][j] == rows[j];
      if rows[n].id == rows[i].id { assert !TakesOver(rows[..n], rows[n]); }
    } else {
      assert forall j :: 0 <= j < i ==> rows[..i][j] == rows[j];
    }
  }

  lemma LatestUnique(rows: seq<TaskRow>, i: nat, j: nat)
    requires i < |rows| && j < |rows| && rows[i].id == rows[j].id && Latest(rows, i) && Latest(rows, j)
    ensures i == j
  {}

  /** The recorded tasks are those reported, each with its latest row. */
  ghost predicate TableOf(t: map<Id, Member>, rows: seq<TaskRow>)
  {
    && (forall id :: id in t <==> Named(rows, id))
    && forall id :: id in t ==> t[id].row.id == id && IsLatest(rows, t[id].row)
  }

  /** A row is kept out exactly when it does not take over. */
  lemma KeptOut(t: map<Id, Member>, rows: seq<TaskRow>, r: TaskRow)
    requires TableOf(t, rows)
    ensures TakesOver(rows, r) <==> !(r.id in t && t[r.id].row.known && (!r.known || r.millis <= t[r.id].row.millis))
  {
    hide Latest;
    if r.id in t {
      var i: nat :| i < |rows| && rows[i] == t[r.id].row && Latest(rows, i);
      LatestClock(rows, i);
    }
  }

  lemma AdmitTaskTable(t: map<Id, Member>, rows: seq<TaskRow>, r: TaskRow)
    requires TableOf(t, rows)
    ensures TableOf(AdmitTask(t, r), rows + [r])
    ensures AdmitTask(t, r) == if TakesOver(rows, r) then t[r.id := Member(r, true)] else t
  {
    hide IsLatest, Named, TakesOver;
    KeptOut(t, rows, r);
    var u := AdmitTask(t, r);
    forall id ensures id in u <==> Named(rows + [r], id) { NamedSnoc(rows, r, id); }
    forall id | id in u ensures u[id].row.id == id && IsLatest(rows + [r], u[id].row) {
      LatestSnoc(rows, r, u[id].row);
    }
  }

  // One report

  lemma DecodedSnoc(rows: seq<Option<TaskRow>>)
    requires rows != []
    ensures var most, last := rows[..|rows| - 1], rows[|rows| - 1];
            Decoded(rows) == if last.Some? then Decoded(most) + [last.value] else Decoded(most)
  {}

  lemma {:induction false} AdmitTable(t: map<Id, Member>, past: seq<TaskRow>, rows: seq<Option<TaskRow>>)
    requires TableOf(t, past)
    ensures TableOf(AdmitTasks(t, rows), past + Decoded(rows))
    decreases |rows|
  {
    hide TableOf, AdmitTask, Decoded;
    if rows == [] {
      assert Decoded([]) == [] by { NothingDecoded(); }
      assert past + [] == past;
    } else {
      var most, last := rows[..|rows| - 1], rows[|rows| - 1];
      AdmitTable(t, past, most);
      DecodedSnoc(rows);
      if last.Some? {
        AdmitTaskTable(AdmitTasks(t, most), past + Decoded(most), last.value);
        assert past + Decoded(rows) == past + Decoded(most) + [last.value];
      }
    }
  }

  lemma NothingDecoded()
    ensures Decoded([]) == []
  {}

  lemma RenewsSnoc(past: seq<TaskRow>, rows: seq<TaskRow>, r: TaskRow, id: Id)
    ensures Renews(past, rows + [r], id) <==> Renews(past, rows, id) || (r.id == id && TakesOver(past, r))
  {
    hide TakesOver;
    Snoc(rows, r);
  }

  /** What takes over a longer report takes over a shorter; what it no longer takes over, a row between took over. */
  lemma TakesOverLonger(past: seq<TaskRow>, rows: seq<TaskRow>, r: TaskRow)
    ensures TakesOver(past + rows, r) ==> TakesOver(past, r)
    ensures TakesOver(past, r) && !TakesOver(past + rows, r) ==> Renews(past, rows, r.id)
  {
    var all := past + rows;
    assert forall i :: 0 <= i < |past| ==> all[i] == past[i];
    assert forall i :: |past| <= i < |all| ==> all[i] == rows[i - |past|];
    if TakesOver(past, r) && !TakesOver(all, r) {
      if NoClock(past, r.id) {
        var i :| 0 <= i < |all| && all[i].id == r.id && all[i].known;
        assert rows[i - |past|].id == r.id && TakesOver(past, rows[i - |past|]);
      } else {
        var i :| 0 <= i < |all| && all[i].id == r.id && all[i].known && all[i].millis >= r.millis;
        assert rows[i - |past|].id == r.id && TakesOver(past, rows[i - |past|]);
      }
    }
  }

  lemma {:induction false} AdmitPresence(t: map<Id, Member>, past: seq<TaskRow>, rows: seq<Option<TaskRow>>, id: Id)
    requires TableOf(t, past)
    ensures var u := AdmitTasks(t, rows);
            id in u ==> (u[id].present <==> Renews(past, Decoded(rows), id) || (id in t && t[id].present))
    decreases |rows|
  {
    hide TableOf, AdmitTask, Decoded, Renews, TakesOver;
    if rows == [] {
      assert !Renews(past, [], id) && Decoded([]) == [] by { NothingRenews(past, id); }
    } else {
      var most, last := rows[..|rows| - 1], rows[|rows| - 1];
      AdmitPresence(t, past, most, id);
      AdmitTable(t, past, most);
      DecodedSnoc(rows);
      if last.Some? {
        AdmitTaskTable(AdmitTasks(t, most), past + Decoded(most), last.value);
        RenewsSnoc(past, Decoded(most), last.value, id);
        TakesOverLonger(past, Decoded(most), last.value);
        Fresh(t, past, most, id);
      }
    }
  }

  lemma NothingRenews(past: seq<TaskRow>, id: Id)
    ensures !Renews(past, [], id) && Decoded([]) == []
  {}

  /** A task that is not recorded yet was not renewed either. */
  lemma Fresh(t: map<Id, Member>, past: seq<TaskRow>, rows: seq<Option<TaskRow>>, id: Id)
    requires TableOf(t, past)
    ensures id !in AdmitTasks(t, rows) ==> !Renews(past, Decoded(rows), id) && id !in t
  {
    AdmitTable(t, past, rows);
    if id !in AdmitTasks(t, rows) {
      var all := past + Decoded(rows);
      assert forall i :: 0 <= i < |past| ==> all[i] == past[i];
      assert forall i :: 0 <= i < |Decoded(rows)| ==> all[|past| + i] == Decoded(rows)[i];
    }
  }

  lemma {:induction false} DecodedIds(rows: seq<Option<TaskRow>>, id: Id)
    ensures id in TaskIds(rows) <==> Named(Decoded(rows), id)
  {
    hide Named, Decoded, TaskIds;
    if rows == [] {
      NothingListed(id);
    } else {
      var n := |rows| - 1;
      DecodedIds(rows[..n], id);
      DecodedSnoc(rows);
      TaskIdsSnoc(rows, n);
      assert rows[..n + 1] == rows;
      if rows[n].Some? { NamedSnoc(Decoded(rows[..n]), rows[n].value, id); }
    }
  }

  lemma NothingListed(id: Id)
    ensures id !in TaskIds([]) && !Named(Decoded([]), id)
  {}

  // Every history

  lemma ReportedSnoc(ds: seq<Report>, d: Report)
    ensures Reported(ds + [d]) == Reported(ds) + Decoded(d.rows)
    ensures Table(ds + [d]) == MergeTasks(Table(ds), d.rows, d.complete)
  {
    assert (ds + [d])[..|ds|] == ds;
  }

  lemma DropKeepsTable(t: map<Id, Member>, rows: seq<TaskRow>, listed: set<Id>)
    requires TableOf(t, rows)
    ensures TableOf(DropUnlisted(t, listed), rows)
  {
    hide IsLatest, Named;
  }

  lemma {:induction false} TableRows(ds: seq<Report>)
    ensures TableOf(Table(ds), Reported(ds))
  {
    hide TableOf, AdmitTasks, DropUnlisted;
    if ds == [] {
      assert TableOf(map[], []) by { EmptyTable(); }
    } else {
      var most, d := ds[..|ds| - 1], ds[|ds| - 1];
      TableRows(most);
      AdmitTable(Table(most), Reported(most), d.rows);
      DropKeepsTable(AdmitTasks(Table(most), d.rows), Reported(ds), TaskIds(d.rows));
    }
  }

  lemma EmptyTable()
    ensures TableOf(map[], [])
  {}

  /** The table's row of a task is in a final status exactly when the task is finished. */
  lemma FinishedRow(t: map<Id, Member>, rows: seq<TaskRow>, id: Id)
    requires TableOf(t, rows) && id in t
    ensures TerminalTask(t[id].row.status) <==> Finished(rows, id)
  {
    hide Latest, Named;
    var i: nat :| i < |rows| && rows[i] == t[id].row && Latest(rows, i);
    forall j: nat | j < |rows| && rows[j].id == id && Latest(rows, j) ensures j == i { LatestUnique(rows, i, j); }
  }

  lemma {:induction false} PresenceExact(ds: seq<Report>, id: Id)
    requires id in Table(ds)
    ensures Table(ds)[id].present <==> Present(ds, id)
    decreases |ds|
  {
    hide TableOf, AdmitTasks, Renews, Finished, TerminalTask;
    if ds != [] {
      var most, d := ds[..|ds| - 1], ds[|ds| - 1];
      TableRows(most);
      AdmitPresence(Table(most), Reported(most), d.rows, id);
      AdmitTable(Table(most), Reported(most), d.rows);
      FinishedRow(AdmitTasks(Table(most), d.rows), Reported(ds), id);
      DecodedIds(d.rows, id);
      if id in Table(most) { PresenceExact(most, id); } else { AbsentNotPresent(most, id); }
    }
  }

  lemma {:induction false} AbsentNotPresent(ds: seq<Report>, id: Id)
    requires id !in Table(ds)
    ensures !Present(ds, id)
    decreases |ds|
  {
    hide TableOf, AdmitTasks, Renews, Finished;
    if ds != [] {
      var most, d := ds[..|ds| - 1], ds[|ds| - 1];
      TableRows(most);
      Fresh(Table(most), Reported(most), d.rows, id);
      AbsentNotPresent(most, id);
    }
  }

  /** The ids of the present tasks, and of those whose latest row is running. */
  ghost function PresentIds(ds: seq<Report>): set<Id>
  {
    set i | 0 <= i < |Reported(ds)| && Present(ds, Reported(ds)[i].id) :: Reported(ds)[i].id
  }

  ghost function RunningIds(ds: seq<Report>): set<Id>
  {
    set i: nat | i < |Reported(ds)| && Latest(Reported(ds), i) && Present(ds, Reported(ds)[i].id)
                 && Reported(ds)[i].status == "running" :: Reported(ds)[i].id
  }

  /**
    After every history of reports the recorded tasks are those reported, each with its
    latest row, and present exactly while the reports say so; the totals that are made
    from the table count the present tasks and those of them whose latest row is running.
   */
  lemma TasksExact(ds: seq<Report>)
    ensures var t := Table(ds);
            && (forall id :: id in t <==> Named(Reported(ds), id))
            && (forall id :: id in t ==>
                  t[id].row.id == id && IsLatest(Reported(ds), t[id].row) && (t[id].present <==> Present(ds, id)))
            && PresentTasks(t) == PresentIds(ds) && RunningTasks(t) == RunningIds(ds)
  {
    hide Present, Latest;
    TableRows(ds);
    var t, rows := Table(ds), Reported(ds);
    forall id | id in t ensures t[id].present <==> Present(ds, id) { PresenceExact(ds, id); }
    forall id ensures id in PresentTasks(t) <==> id in PresentIds(ds) {
      if id in t { assert Named(rows, id); }
    }
    forall id ensures id in RunningTasks(t) <==> id in RunningIds(ds) { RunningExact(ds, id); }
  }

  lemma RunningExact(ds: seq<Report>, id: Id)
    requires TableOf(Table(ds), Reported(ds)) && forall x :: x in Table(ds) ==> (Table(ds)[x].present <==> Present(ds, x))
    ensures id in RunningTasks(Table(ds)) <==> id in RunningIds(ds)
  {
    hide Present, Latest;
    var t, rows := Table(ds), Reported(ds);
    if id in t {
      var i: nat :| i < |rows| && rows[i] == t[id].row && Latest(rows, i);
      forall j: nat | j < |rows| && rows[j].id == id && Latest(rows, j) ensures j == i { LatestUnique(rows, i, j); }
    }
  }
}
