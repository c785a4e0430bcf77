/**
  Run counts over histories that mix complete and partial deliveries.  The deliveries
  themselves say which runs are observable, whether membership is in doubt, and what an
  accepted inventory is; MixedExact says that the merge keeps exactly that.
 */
module DagHistory {
  import opened Wrappers
  import opened DagCounts
  import opened Sums

  datatype Sent = Sent(rows: seq<Row>, complete: bool)

  ghost function Merged(ds: seq<Sent>): State
  {
    if ds == [] then INITIAL else Merge(Merged(ds[..|ds| - 1]), ds[|ds| - 1].rows, ds[|ds| - 1].complete)
  }

  /** Every row that was delivered, in order. */
  function Flat(ds: seq<Sent>): seq<Row>
  {
    if ds == [] then [] else Flat(ds[..|ds| - 1]) + ds[|ds| - 1].rows
  }

  predicate HasClock(rows: seq<Row>)
  {
    exists i :: 0 <= i < |rows| && rows[i].known
  }

  /** No row of the run has a clock. */
  predicate Clockless(rows: seq<Row>, id: Id)
  {
    forall i :: 0 <= i < |rows| && rows[i].id == id ==> !rows[i].known
  }

  // What rows say

  predicate Names(rows: seq<Row>, id: Id)
  {
    exists i :: 0 <= i < |rows| && rows[i].id == id
  }

  /** No clock of the run is later. */
  predicate NotOlder(rows: seq<Row>, id: Id, millis: int)
  {
    forall i :: 0 <= i < |rows| && rows[i].id == id && rows[i].known ==> rows[i].millis <= millis
  }

  /** Every clock is earlier. */
  predicate NewerThanAll(rows: seq<Row>, millis: int)
  {
    forall i :: 0 <= i < |rows| && rows[i].known ==> rows[i].millis < millis
  }

  /** The first row with the latest clock of its run; of a run without clocks, the last row. */
  predicate IsLatestRow(rows: seq<Row>, row: Row)
  {
    exists i :: 0 <= i < |rows| && rows[i] == row && if row.known then FirstNewest(rows, i) else LastClockless(rows, i)
  }

  predicate FirstNewest(rows: seq<Row>, i: nat)
    requires i < |rows|
  {
    && NotOlder(rows, rows[i].id, rows[i].millis)
    && forall j :: 0 <= j < i && rows[j].id == rows[i].id && rows[j].known ==> rows[j].millis < rows[i].millis
  }

  predicate LastClockless(rows: seq<Row>, i: nat)
    requires i < |rows|
  {
    && Clockless(rows, rows[i].id)
    && forall j :: i < j < |rows| ==> rows[j].id != rows[i].id
  }

  /** A row that is older than an earlier row of its run. */
  predicate HasStale(past: seq<Row>, rows: seq<Row>)
  {
    exists j :: 0 <= j < |rows| && rows[j].known && !NotOlder(past + rows[..j], rows[j].id, rows[j].millis)
  }

  /** A row that cannot be compared with what was delivered of its run, for want of a clock. */
  predicate Undecided(past: seq<Row>, rows: seq<Row>, j: nat)
    requires j < |rows|
  {
    && Names(past + rows[..j], rows[j].id)
    && (!rows[j].known || Clockless(past + rows[..j], rows[j].id))
  }

  predicate HasUndecided(past: seq<Row>, rows: seq<Row>)
  {
    exists j :: 0 <= j < |rows| && Undecided(past, rows, j)
  }

  /** The j-th row of a partial delivery observes its run: new, or newer than all that was delivered before. */
  predicate Observes(past: seq<Row>, rows: seq<Row>, j: nat, observable: set<Id>)
    requires j < |rows|
  {
    && rows[j].id !in observable
    && (!Names(past + rows[..j], rows[j].id) || (rows[j].known && HasClock(past) && NewerThanAll(past, rows[j].millis)))
  }

  /** The j-th row is of a run that is known and not observable, and is neither older nor newer than all. */
  predicate Ambiguous(past: seq<Row>, rows: seq<Row>, j: nat, observable: set<Id>)
    requires j < |rows|
  {
    && rows[j].id !in observable && !Observes(past, rows, j, observable)
    && rows[j].known && NotOlder(past + rows[..j], rows[j].id, rows[j].millis)
  }

  predicate HasAmbiguous(past: seq<Row>, rows: seq<Row>, observable: set<Id>)
  {
    exists j :: 0 <= j < |rows| && Ambiguous(past, rows, j, observable)
  }

  /** Nothing is observed by a partial delivery that leaves such a row. */
  predicate Unclear(past: seq<Row>, rows: seq<Row>, observable: set<Id>)
  {
    HasUndecided(past, rows) || HasAmbiguous(past, rows, observable)
  }

  function Named(rows: seq<Row>): (s: set<Id>)
    ensures forall id :: id in s <==> Names(rows, id)
  {
    set i | 0 <= i < |rows| :: rows[i].id
  }

  function Observed(past: seq<Row>, rows: seq<Row>, observable: set<Id>): (s: set<Id>)
    ensures forall id :: id in s <==> exists j :: 0 <= j < |rows| && rows[j].id == id && Observes(past, rows, j, observable)
  {
    set j | 0 <= j < |rows| && Observes(past, rows, j, observable) :: rows[j].id
  }

  // What a history says

  /** A complete inventory is the newest of the history. */
  predicate Newest(past: seq<Row>, rows: seq<Row>)
  {
    exists j :: 0 <= j < |rows| && rows[j].known && NewerThanAll(past, rows[j].millis)
  }

  /** It reaches the newest clock of the history. */
  predicate Reaches(past: seq<Row>, rows: seq<Row>)
  {
    exists j :: 0 <= j < |rows| && rows[j].known && forall i :: 0 <= i < |past| && past[i].known ==> past[i].millis <= rows[j].millis
  }

  /** What is known besides the rows: observable runs, doubt about them, the last accepted members, whether any inventory was complete. */
  datatype Standing = Standing(observable: set<Id>, unknown: bool, members: set<Id>, authority: bool)

  ghost predicate AcceptedInventory(past: seq<Row>, s: Standing, rows: seq<Row>)
  {
    && !HasStale(past, rows) && !HasUndecided(past, rows)
    && (|| Newest(past, rows)
        || (!s.unknown && Named(rows) == s.members
            && ((HasClock(past) && Reaches(past, rows) && !Newest(past, rows)) || (past == [] && rows == [])))
        || (!s.authority && !s.unknown && Named(rows) == Named(past + rows) && Reaches(past, rows)))
  }

  ghost function Stands(ds: seq<Sent>): Standing
  {
    if ds == [] then Standing({}, false, {}, false)
    else
      var before, d := Stands(ds[..|ds| - 1]), ds[|ds| - 1];
      var past := Flat(ds[..|ds| - 1]);
      if !d.complete then
        var doubt := Unclear(past, d.rows, before.observable);
        before.(observable := if doubt then before.observable else before.observable + Observed(past, d.rows, before.observable),
                unknown := before.unknown || (doubt && !HasStale(past, d.rows)))
      else if AcceptedInventory(past, before, d.rows) then Standing(Named(d.rows), false, Named(d.rows), true)
      else before.(unknown := before.unknown || !HasStale(past, d.rows) || !before.authority, authority := true)
  }

  // The scan of one delivery

  /** The recorded runs are the delivered ones, each with its latest row. */
  ghost predicate RunsOf(runs: map<Id, Run>, rows: seq<Row>)
  {
    && runs.Keys == Named(rows)
    && forall id :: id in runs ==> runs[id].row.id == id && IsLatestRow(rows, runs[id].row)
  }

  predicate IsMax(rows: seq<Row>, t: int)
  {
    && (exists i :: 0 <= i < |rows| && rows[i].known && rows[i].millis == t)
    && forall i :: 0 <= i < |rows| && rows[i].known ==> rows[i].millis <= t
  }

  ghost predicate Scanned(st: State, past: seq<Row>, rows: seq<Row>, complete: bool, observable: set<Id>, a: Scan)
  {
    && RunsOf(a.runs, past + rows) && a.present == Named(rows)
    && (forall id :: id in a.runs ==> (a.runs[id].observable <==> id in observable))
    && (a.stale <==> HasStale(past, rows))
    && (a.unordered <==> HasUndecided(past, rows) || (!complete && HasAmbiguous(past, rows, observable)))
    && a.observations == (if complete then {} else Observed(past, rows, observable))
    && (a.newestKnown <==> HasClock(rows)) && (HasClock(rows) ==> IsMax(rows, a.newest))
  }

  ghost predicate Starts(st: State, past: seq<Row>, observable: set<Id>)
  {
    && RunsOf(st.countRuns, past) && observable <= Named(past)
    && (forall id :: id in st.countRuns ==> (st.countRuns[id].observable <==> id in observable))
    && (st.revisionKnown <==> HasClock(past)) && (HasClock(past) ==> IsMax(past, st.revision))
  }

  lemma NamesSnoc(rows: seq<Row>, r: Row, id: Id)
    ensures Names(rows + [r], id) <==> Names(rows, id) || r.id == id
  {
    var all := rows + [r];
    if i :| 0 <= i < |rows| && rows[i].id == id { assert all[i].id == id; }
    assert all[|rows|] == r;
  }

  lemma NotOlderSnoc(rows: seq<Row>, r: Row, id: Id, millis: int)
    ensures NotOlder(rows + [r], id, millis) <==> NotOlder(rows, id, millis) && (r.id == id && r.known ==> r.millis <= millis)
    ensures Clockless(rows + [r], id) <==> Clockless(rows, id) && (r.id == id ==> !r.known)
    ensures HasClock(rows + [r]) <==> HasClock(rows) || r.known
  {
    var all := rows + [r];
    assert all[|rows|] == r && forall i :: 0 <= i < |rows| ==> all[i] == rows[i];
  }

  /** A row that does not replace the latest one leaves it so. */
  lemma LatestKept(rows: seq<Row>, r: Row, row: Row)
    requires IsLatestRow(rows, row)
    requires r.id == row.id ==> row.known && (!r.known || r.millis <= row.millis)
    ensures IsLatestRow(rows + [r], row)
  {
    hide NotOlder, Clockless;
    NotOlderSnoc(rows, r, row.id, row.millis);
    var i :| 0 <= i < |rows| && rows[i] == row && if row.known then FirstNewest(rows, i) else LastClockless(rows, i);
    var all := rows + [r];
    assert all[|rows|] == r && forall j :: 0 <= j < |rows| ==> all[j] == rows[j];
    assert all[i] == row;
    assert row.known ==> FirstNewest(all, i);
    assert !row.known ==> LastClockless(all, i);
  }

  /** One that is newer than every clock of its run, or comes to a run without clocks, is the latest. */
  lemma LatestNew(rows: seq<Row>, r: Row)
    requires Clockless(rows, r.id) || (r.known && forall i :: 0 <= i < |rows| && rows[i].id == r.id && rows[i].known ==> rows[i].millis < r.millis)
    ensures IsLatestRow(rows + [r], r)
  {
    var all := rows + [r];
    NotOlderSnoc(rows, r, r.id, r.millis);
    assert all[|rows|] == r && forall i :: 0 <= i < |rows| ==> all[i] == rows[i];
    assert r.known ==> FirstNewest(all, |rows|);
    assert !r.known ==> LastClockless(all, |rows|);
  }

  lemma LatestBounds(rows: seq<Row>, row: Row)
    requires IsLatestRow(rows, row)
    ensures Names(rows, row.id)
    ensures row.known <==> !Clockless(rows, row.id)
    ensures row.known ==> forall m :: NotOlder(rows, row.id, m) <==> row.millis <= m
  {
    var i :| 0 <= i < |rows| && rows[i] == row && if row.known then FirstNewest(rows, i) else LastClockless(rows, i);
  }

  /** The runs after one more row. */
  lemma RunsSnoc(runs: map<Id, Run>, rows: seq<Row>, r: Row, observable: bool)
    requires RunsOf(runs, rows)
    ensures RunsOf(if Keeps(runs, r) then runs else runs[r.id := Run(r, true, observable)], rows + [r])
  {
    hide IsLatestRow, NotOlder, Names, Clockless;
    var next := if Keeps(runs, r) then runs else runs[r.id := Run(r, true, observable)];
    forall id ensures id in next <==> Names(rows + [r], id) { NamesSnoc(rows, r, id); }
    forall id | id in next ensures next[id].row.id == id && IsLatestRow(rows + [r], next[id].row) {
      if id == r.id && !Keeps(runs, r) {
        if id in runs { LatestBounds(rows, runs[id].row); } else { Unnamed(rows, r); }
        if !Clockless(rows, id) { OlderThan(rows, runs[id].row, r); }
        LatestNew(rows, r);
      } else {
        LatestKept(rows, r, runs[id].row);
      }
    }
  }

  lemma OlderThan(rows: seq<Row>, row: Row, r: Row)
    requires NotOlder(rows, row.id, row.millis) && r.id == row.id && row.millis < r.millis
    ensures forall i :: 0 <= i < |rows| && rows[i].id == r.id && rows[i].known ==> rows[i].millis < r.millis
  {}

  lemma Unnamed(rows: seq<Row>, r: Row)
    requires !Names(rows, r.id)
    ensures Clockless(rows, r.id)
  {}

  lemma NamedSnoc(rows: seq<Row>, r: Row)
    ensures Named(rows + [r]) == Named(rows) + {r.id}
  {
    forall id ensures id in Named(rows + [r]) <==> id in Named(rows) + {r.id} { NamesSnoc(rows, r, id); }
  }

  lemma StaleSnoc(past: seq<Row>, rows: seq<Row>, r: Row)
    ensures HasStale(past, rows + [r]) <==> HasStale(past, rows) || (r.known && !NotOlder(past + rows, r.id, r.millis))
  {
    hide NotOlder;
    var all := rows + [r];
    assert all[..|rows|] == rows && all[|rows|] == r;
    assert forall j :: 0 <= j < |rows| ==> all[..j] == rows[..j] && all[j] == rows[j];
  }

  lemma ObservesSnoc(past: seq<Row>, rows: seq<Row>, r: Row, j: nat, observable: set<Id>)
    requires j < |rows|
    ensures Observes(past, rows + [r], j, observable) <==> Observes(past, rows, j, observable)
    ensures Ambiguous(past, rows + [r], j, observable) <==> Ambiguous(past, rows, j, observable)
    ensures Undecided(past, rows + [r], j) <==> Undecided(past, rows, j)
  {
    hide NotOlder, NewerThanAll, Names, Clockless, HasClock;
    assert (rows + [r])[..j] == rows[..j];
  }

  lemma ObservedSnoc(past: seq<Row>, rows: seq<Row>, r: Row, observable: set<Id>)
    ensures Observed(past, rows + [r], observable) ==
            Observed(past, rows, observable) + if Observes(past, rows + [r], |rows|, observable) then {r.id} else {}
    ensures HasAmbiguous(past, rows + [r], observable) <==>
            HasAmbiguous(past, rows, observable) || Ambiguous(past, rows + [r], |rows|, observable)
    ensures HasUndecided(past, rows + [r]) <==> HasUndecided(past, rows) || Undecided(past, rows + [r], |rows|)
  {
    hide Observes, Ambiguous, Undecided;
    var all := rows + [r];
    forall j: nat | j < |rows|
      ensures Observes(past, all, j, observable) <==> Observes(past, rows, j, observable)
      ensures Ambiguous(past, all, j, observable) <==> Ambiguous(past, rows, j, observable)
      ensures Undecided(past, all, j) <==> Undecided(past, rows, j)
    {
      ObservesSnoc(past, rows, r, j, observable);
    }
    assert all[|rows|] == r && forall j :: 0 <= j < |rows| ==> all[j] == rows[j];
  }

  lemma MaxSnoc(rows: seq<Row>, r: Row, t: int)
    requires HasClock(rows) ==> IsMax(rows, t)
    ensures HasClock(rows + [r]) <==> HasClock(rows) || r.known
    ensures HasClock(rows + [r]) ==>
              IsMax(rows + [r], if HasClock(rows) && (!r.known || t >= r.millis) then t else r.millis)
  {
    var all := rows + [r];
    assert all[|rows|] == r && forall j :: 0 <= j < |rows| ==> all[j] == rows[j];
  }

  lemma NewerThanMax(rows: seq<Row>, t: int, m: int)
    requires IsMax(rows, t)
    ensures NewerThanAll(rows, m) <==> m > t
  {}

  /** How one row of a delivery compares with what is recorded of its run. */
  lemma RowCompares(st: State, past: seq<Row>, rows: seq<Row>, r: Row, complete: bool, observable: set<Id>, a: Scan)
    requires Starts(st, past, observable) && Scanned(st, past, rows, complete, observable, a)
    ensures (r.id in a.runs && a.runs[r.id].row.known && r.millis < a.runs[r.id].row.millis) <==> !NotOlder(past + rows, r.id, r.millis)
    ensures (r.id in a.runs && !a.runs[r.id].row.known) <==> Names(past + rows, r.id) && Clockless(past + rows, r.id)
    ensures (r.id in a.runs && a.runs[r.id].observable) <==> r.id in observable
    ensures r.id in a.runs <==> Names(past + rows, r.id)
    ensures (st.revisionKnown && r.millis > st.revision) <==> (HasClock(past) && NewerThanAll(past, r.millis))
  {
    hide HasStale, HasAmbiguous, HasUndecided, Observed, IsLatestRow, NewerThanAll, NotOlder, Clockless, HasClock, IsMax;
    if HasClock(past) { NewerThanMax(past, st.revision, r.millis); }
    if r.id in a.runs {
      LatestBounds(past + rows, a.runs[r.id].row);
      ClocklessNotOlder(past + rows, r.id, r.millis);
    } else {
      Unnamed(past + rows, r);
      ClocklessNotOlder(past + rows, r.id, r.millis);
    }
    if r.id in observable { ObservableRecorded(past, rows, r.id); }
  }

  lemma ClocklessNotOlder(rows: seq<Row>, id: Id, m: int)
    ensures Clockless(rows, id) ==> NotOlder(rows, id, m)
  {}

  lemma ObservableRecorded(past: seq<Row>, rows: seq<Row>, id: Id)
    requires Names(past, id)
    ensures Names(past + rows, id)
  {
    var i :| 0 <= i < |past| && past[i].id == id;
    assert (past + rows)[i].id == id;
  }

  lemma ScanRowRuns(st: State, past: seq<Row>, rows: seq<Row>, r: Row, complete: bool, observable: set<Id>, a: Scan)
    requires Starts(st, past, observable) && Scanned(st, past, rows, complete, observable, a)
    ensures var next := ScanRow(a, r, complete, st);
            && RunsOf(next.runs, past + rows + [r]) && next.present == Named(rows + [r])
            && forall id :: id in next.runs ==> (next.runs[id].observable <==> id in observable)
  {
    hide HasStale, HasAmbiguous, HasUndecided, Observed, Named, NotOlder, NewerThanAll, Names, IsMax, Starts, IsLatestRow, Clockless, HasClock;
    RowCompares(st, past, rows, r, complete, observable, a);
    RunsSnoc(a.runs, past + rows, r, r.id in observable);
    NamedSnoc(rows, r);
  }

  /** What the row is found to be. */
  lemma ScanRowMarks(st: State, past: seq<Row>, rows: seq<Row>, r: Row, complete: bool, observable: set<Id>, a: Scan)
    requires Starts(st, past, observable) && Scanned(st, past, rows, complete, observable, a)
    ensures var next := ScanRow(a, r, complete, st);
            var all := rows + [r];
            && (next.stale <==> a.stale || (r.known && !NotOlder(past + rows, r.id, r.millis)))
            && (next.unordered <==>
                a.unordered || Undecided(past, all, |rows|) || (!complete && Ambiguous(past, all, |rows|, observable)))
            && next.observations == a.observations + (if !complete && Observes(past, all, |rows|, observable) then {r.id} else {})
  {
    hide HasStale, HasAmbiguous, HasUndecided, Observed, Named, NotOlder, NewerThanAll, Names, IsMax, Starts, IsLatestRow, Clockless, HasClock;
    var all := rows + [r];
    assert all[|rows|] == r && all[..|rows|] == rows;
    RowCompares(st, past, rows, r, complete, observable, a);
  }

  lemma ScanRowHolds(st: State, past: seq<Row>, rows: seq<Row>, r: Row, complete: bool, observable: set<Id>, a: Scan)
    requires Starts(st, past, observable) && Scanned(st, past, rows, complete, observable, a)
    ensures Scanned(st, past, rows + [r], complete, observable, ScanRow(a, r, complete, st))
  {
    hide HasStale, HasAmbiguous, HasUndecided, Observes, Ambiguous, Undecided, Observed, Named, RunsOf, NotOlder, NewerThanAll, Names, IsMax, Starts, HasClock;
    assert past + (rows + [r]) == past + rows + [r];
    ScanRowRuns(st, past, rows, r, complete, observable, a);
    ScanRowMarks(st, past, rows, r, complete, observable, a);
    StaleSnoc(past, rows, r);
    ObservedSnoc(past, rows, r, observable);
    MaxSnoc(rows, r, a.newest);
  }

  lemma {:induction false} ScanHolds(st: State, past: seq<Row>, rows: seq<Row>, complete: bool, observable: set<Id>)
    requires Starts(st, past, observable)
    ensures Scanned(st, past, rows, complete, observable, ScanRows(st, rows, complete))
  {
    hide ScanRow;
    if rows == [] {
      assert past + [] == past;
    } else {
      var most := rows[..|rows| - 1];
      ScanHolds(st, past, most, complete, observable);
      ScanRowHolds(st, past, most, rows[|rows| - 1], complete, observable, ScanRows(st, most, complete));
      assert rows == most + [rows[|rows| - 1]];
    }
  }

  // The merge of one delivery

  /** What is recorded after a history is what the history says. */
  ghost predicate Records(st: State, ds: seq<Sent>)
  {
    var s := Stands(ds);
    && Starts(st, Flat(ds), s.observable)
    && st.membershipUnknown == s.unknown && st.membership == s.members && st.authorityKnown == s.authority
    && (s.authority ==> st.runRunningCount == |RunningRuns(st.countRuns)| && st.runTotalCount == |st.countRuns|)
  }

  lemma NewestCompares(past: seq<Row>, rows: seq<Row>, revision: int, newest: int)
    requires IsMax(past, revision) && IsMax(rows, newest)
    ensures newest > revision <==> Newest(past, rows)
    ensures newest >= revision <==> Reaches(past, rows)
  {
    var j :| 0 <= j < |rows| && rows[j].known && rows[j].millis == newest;
    var i :| 0 <= i < |past| && past[i].known && past[i].millis == revision;
    if newest > revision { assert NewerThanAll(past, rows[j].millis); }
    if newest >= revision { assert forall k :: 0 <= k < |past| && past[k].known ==> past[k].millis <= rows[j].millis; }
  }

  lemma NewestFirst(past: seq<Row>, rows: seq<Row>)
    ensures !HasClock(past) ==> (Newest(past, rows) <==> HasClock(rows)) && (Reaches(past, rows) <==> HasClock(rows))
    ensures !HasClock(rows) ==> !Newest(past, rows) && !Reaches(past, rows)
    ensures HasClock(rows) ==> rows != []
  {
    if i :| !HasClock(past) && 0 <= i < |rows| && rows[i].known { assert NewerThanAll(past, rows[i].millis); }
  }

  lemma NamedAll(past: seq<Row>, rows: seq<Row>)
    ensures Named(past + rows) == Named(past) + Named(rows)
    ensures Named(past + rows) == {} <==> past == [] && rows == []
    ensures HasClock(past + rows) <==> HasClock(past) || HasClock(rows)
  {
    var all := past + rows;
    assert forall i :: 0 <= i < |past| ==> all[i] == past[i];
    assert forall i :: 0 <= i < |rows| ==> all[|past| + i] == rows[i];
    forall id ensures Names(all, id) <==> Names(past, id) || Names(rows, id) {
      if i :| 0 <= i < |past| && past[i].id == id { assert all[i].id == id; }
      if i :| 0 <= i < |rows| && rows[i].id == id { assert all[|past| + i].id == id; }
    }
    if all != [] { assert Names(all, all[0].id); }
  }

  lemma SameSize(part: set<Id>, whole: set<Id>)
    requires part <= whole
    ensures |part| == |whole| <==> part == whole
  {
    if |part| == |whole| {
      assert |whole - part| == 0;
    }
  }

  /** The membership test of the merge, in terms of the rows delivered. */
  lemma Acceptance(st: State, past: seq<Row>, rows: seq<Row>, s: Standing, a: Scan)
    requires Starts(st, past, s.observable) && Scanned(st, past, rows, true, s.observable, a)
    requires st.membershipUnknown == s.unknown && st.membership == s.members && st.authorityKnown == s.authority
    ensures Accepted(AdmitRows(st, a), a) <==> AcceptedInventory(past, s, rows)
  {
    hide HasStale, HasAmbiguous, HasUndecided, Observed, Named, IsLatestRow, NotOlder, NewerThanAll, Names, IsMax, Newest, Reaches, HasClock;
    NewestFirst(past, rows);
    NamedAll(past, rows);
    assert a.runs.Keys == {} <==> a.runs == map[];
    assert |a.runs| == |a.runs.Keys|;
    SameSize(a.present, a.runs.Keys);
    if HasClock(past) && HasClock(rows) { NewestCompares(past, rows, st.revision, a.newest); }
  }

  lemma RevisionAdvances(st: State, past: seq<Row>, rows: seq<Row>, a: Scan)
    requires (st.revisionKnown <==> HasClock(past)) && (HasClock(past) ==> IsMax(past, st.revision))
    requires (a.newestKnown <==> HasClock(rows)) && (HasClock(rows) ==> IsMax(rows, a.newest))
    ensures var next := AdvanceRevision(st, a);
            && (next.revisionKnown <==> HasClock(past + rows))
            && (HasClock(past + rows) ==> IsMax(past + rows, next.revision))
  {
    hide HasClock, IsMax;
    NamedAll(past, rows);
    if HasClock(past + rows) { MaxAll(past, rows, st.revision, a.newest); }
  }

  lemma MaxAll(past: seq<Row>, rows: seq<Row>, t: int, u: int)
    requires HasClock(past) ==> IsMax(past, t)
    requires HasClock(rows) ==> IsMax(rows, u)
    requires HasClock(past) || HasClock(rows)
    ensures IsMax(past + rows, if HasClock(rows) && (!HasClock(past) || u > t) then u else t)
  {
    var all := past + rows;
    assert forall i :: 0 <= i < |past| ==> all[i] == past[i];
    assert forall i :: 0 <= i < |rows| ==> all[|past| + i] == rows[i];
    assert forall i :: |past| <= i < |all| ==> all[i] == rows[i - |past|];
  }

  lemma StandsSnoc(ds: seq<Sent>, d: Sent)
    ensures Merged(ds + [d]) == Merge(Merged(ds), d.rows, d.complete) && Flat(ds + [d]) == Flat(ds) + d.rows
    ensures Stands(ds + [d]) ==
            var past, before := Flat(ds), Stands(ds);
            if !d.complete then
              var doubt := Unclear(past, d.rows, before.observable);
              before.(observable := if doubt then before.observable else before.observable + Observed(past, d.rows, before.observable),
                      unknown := before.unknown || (doubt && !HasStale(past, d.rows)))
            else if AcceptedInventory(past, before, d.rows) then Standing(Named(d.rows), false, Named(d.rows), true)
            else before.(unknown := before.unknown || !HasStale(past, d.rows) || !before.authority, authority := true)
  {
    assert (ds + [d])[..|ds|] == ds;
  }

  lemma ObservedNamed(past: seq<Row>, rows: seq<Row>, observable: set<Id>)
    ensures Observed(past, rows, observable) <= Named(rows)
  {}

  /** Whether a run is observable does not change its row. */
  lemma RunsMarked(runs: map<Id, Run>, rows: seq<Row>, next: map<Id, Run>)
    requires RunsOf(runs, rows) && next.Keys == runs.Keys
    requires forall id :: id in next ==> next[id].row == runs[id].row
    ensures RunsOf(next, rows)
  {}

  lemma PartialFields(st: State, rows: seq<Row>)
    ensures var a := ScanRows(st, rows, false);
            var next := Merge(st, rows, false);
            && next.countRuns.Keys == a.runs.Keys
            && (forall id :: id in next.countRuns ==>
                  && next.countRuns[id].row == a.runs[id].row
                  && (next.countRuns[id].observable <==> a.runs[id].observable || (!a.unordered && id in a.observations)))
            && next.membershipUnknown == (st.membershipUnknown || (a.unordered && !a.stale))
            && next.membership == st.membership && next.authorityKnown == st.authorityKnown
            && next.revisionKnown == AdvanceRevision(st, a).revisionKnown && next.revision == AdvanceRevision(st, a).revision
            && (next.authorityKnown ==> next.runRunningCount == |RunningRuns(next.countRuns)| && next.runTotalCount == |next.countRuns|)
  {
    hide ScanRows, CountRunningWorks, RunningRuns;
  }

  lemma CompleteFields(st: State, rows: seq<Row>)
    ensures var a := ScanRows(st, rows, true);
            var next := Merge(st, rows, true);
            var accepted := Accepted(AdmitRows(st, a), a);
            && next.countRuns.Keys == a.runs.Keys
            && (forall id :: id in next.countRuns ==>
                  && next.countRuns[id].row == a.runs[id].row
                  && (next.countRuns[id].observable <==> if accepted then id in a.present else a.runs[id].observable))
            && next.membership == (if accepted then a.present else st.membership) && next.authorityKnown
            && (next.membershipUnknown <==> !accepted && (st.membershipUnknown || !a.stale || !st.authorityKnown))
            && next.revisionKnown == AdvanceRevision(st, a).revisionKnown && next.revision == AdvanceRevision(st, a).revision
            && next.runRunningCount == |RunningRuns(next.countRuns)| && next.runTotalCount == |next.countRuns|
  {
    hide ScanRows, CountRunningWorks, RunningRuns, Accepted;
  }

  /** What a merge leaves, from what the scan found and the new observable runs. */
  lemma StartsNext(st: State, past: seq<Row>, rows: seq<Row>, complete: bool, was: set<Id>, a: Scan, next: State, observable: set<Id>)
    requires Starts(st, past, was) && Scanned(st, past, rows, complete, was, a)
    requires next.countRuns.Keys == a.runs.Keys && observable <= Named(past) + Named(rows)
    requires forall id :: id in next.countRuns ==>
               next.countRuns[id].row == a.runs[id].row && (next.countRuns[id].observable <==> id in observable)
    requires next.revisionKnown == AdvanceRevision(st, a).revisionKnown && next.revision == AdvanceRevision(st, a).revision
    ensures Starts(next, past + rows, observable)
  {
    hide HasStale, HasAmbiguous, HasUndecided, Observed, Named, RunsOf, IsMax, HasClock, AdvanceRevision;
    NamedAll(past, rows);
    RunsMarked(a.runs, past + rows, next.countRuns);
    RevisionAdvances(st, past, rows, a);
  }

  lemma PartialMerge(st: State, ds: seq<Sent>, d: Sent)
    requires Records(st, ds) && !d.complete
    ensures Records(Merge(st, d.rows, false), ds + [d])
  {
    hide HasStale, HasAmbiguous, Observed, Named, RunsOf, IsMax, Stands, Flat, ScanRows, Merge, RunningRuns, HasClock, HasUndecided, AdvanceRevision;
    var past, s := Flat(ds), Stands(ds);
    var a := ScanRows(st, d.rows, false);
    StandsSnoc(ds, d);
    ScanHolds(st, past, d.rows, false, s.observable);
    PartialFields(st, d.rows);
    ObservedNamed(past, d.rows, s.observable);
    StartsNext(st, past, d.rows, false, s.observable, a, Merge(st, d.rows, false), Stands(ds + [d]).observable);
  }

  lemma CompleteMerge(st: State, ds: seq<Sent>, d: Sent)
    requires Records(st, ds) && d.complete
    ensures Records(Merge(st, d.rows, true), ds + [d])
  {
    hide HasStale, HasAmbiguous, Observed, Named, RunsOf, IsMax, Stands, Flat, ScanRows, Merge, RunningRuns, HasClock, HasUndecided, AdvanceRevision, Accepted, AcceptedInventory;
    var past, s := Flat(ds), Stands(ds);
    var a := ScanRows(st, d.rows, true);
    StandsSnoc(ds, d);
    ScanHolds(st, past, d.rows, true, s.observable);
    Acceptance(st, past, d.rows, s, a);
    CompleteFields(st, d.rows);
    StartsNext(st, past, d.rows, true, s.observable, a, Merge(st, d.rows, true), Stands(ds + [d]).observable);
  }

  // Every history

  lemma {:induction false} MergedRecords(ds: seq<Sent>)
    ensures Records(Merged(ds), ds)
  {
    hide Starts;
    if ds == [] {
      RecordsNothing();
    } else {
      var most, d := ds[..|ds| - 1], ds[|ds| - 1];
      MergedRecords(most);
      assert ds == most + [d];
      if d.complete { CompleteMerge(Merged(most), most, d); } else { PartialMerge(Merged(most), most, d); }
    }
  }

  lemma RecordsNothing()
    ensures Records(INITIAL, [])
  {}

  lemma LatestUnique(rows: seq<Row>, one: Row, other: Row)
    requires IsLatestRow(rows, one) && IsLatestRow(rows, other) && one.id == other.id
    ensures one == other
  {}

  /** The runs among those whose latest delivered row is not terminal. */
  ghost function Going(rows: seq<Row>, among: set<Id>): set<Id>
  {
    set i | 0 <= i < |rows| && rows[i].id in among && IsLatestRow(rows, rows[i]) && !rows[i].terminal :: rows[i].id
  }

  lemma RunningIsGoing(runs: map<Id, Run>, rows: seq<Row>, among: set<Id>)
    requires RunsOf(runs, rows) && forall id :: id in runs ==> (runs[id].observable <==> id in among)
    ensures RunningRuns(runs) == Going(rows, among)
    ensures |runs| == |Named(rows)|
  {
    hide IsLatestRow;
    forall id | id in RunningRuns(runs) ensures id in Going(rows, among) {
      LatestListed(rows, runs[id].row);
    }
    forall id | id in Going(rows, among) ensures id in RunningRuns(runs) {
      var i :| 0 <= i < |rows| && rows[i].id == id && id in among && IsLatestRow(rows, rows[i]) && !rows[i].terminal;
      assert Names(rows, id);
      LatestUnique(rows, rows[i], runs[id].row);
    }
    assert |runs| == |runs.Keys|;
  }

  lemma LatestListed(rows: seq<Row>, row: Row)
    requires IsLatestRow(rows, row)
    ensures exists i :: 0 <= i < |rows| && rows[i] == row
  {}

  /**
    For every history of complete and partial deliveries, with and without clocks: the recorded
    runs are those delivered, with their latest rows; the observable ones are those the
    history says are; and the published counts are the nonterminal observable runs and all
    runs, or are withheld while membership is in doubt.
   */
  lemma MixedExact(ds: seq<Sent>)
    ensures var st, s, rows := Merged(ds), Stands(ds), Flat(ds);
            && st.countRuns.Keys == Named(rows)
            && (forall id :: id in st.countRuns ==>
                  && st.countRuns[id].row.id == id && IsLatestRow(rows, st.countRuns[id].row)
                  && (st.countRuns[id].observable <==> id in s.observable))
            && st.membershipUnknown == s.unknown && st.authorityKnown == s.authority
            && (if HasClock(rows) then st.revisionKnown && IsMax(rows, st.revision) else !st.revisionKnown)
            && Published(st) == (if s.authority && !s.unknown then Some((|Going(rows, s.observable)|, |Named(rows)|)) else None)
  {
    hide Stands, Flat, Merged, IsLatestRow, Going, Named, IsMax, RunningRuns;
    MergedRecords(ds);
    RunningIsGoing(Merged(ds).countRuns, Flat(ds), Stands(ds).observable);
  }

  /** The last delivery observes a run: a partial one without an ambiguous row. */
  ghost predicate Admits(ds: seq<Sent>, id: Id)
    requires ds != []
  {
    var before, d := ds[..|ds| - 1], ds[|ds| - 1];
    && !d.complete
    && !Unclear(Flat(before), d.rows, Stands(before).observable)
    && exists j :: 0 <= j < |d.rows| && d.rows[j].id == id && Observes(Flat(before), d.rows, j, Stands(before).observable)
  }

  /** Its last delivery is an accepted complete inventory. */
  ghost predicate Accepts(ds: seq<Sent>)
    requires ds != []
  {
    && ds[|ds| - 1].complete
    && AcceptedInventory(Flat(ds[..|ds| - 1]), Stands(ds[..|ds| - 1]), ds[|ds| - 1].rows)
  }

  ghost predicate Shown(st: State, id: Id)
  {
    id in st.countRuns && st.countRuns[id].observable
  }

  lemma ShownStands(ds: seq<Sent>, id: Id)
    ensures Shown(Merged(ds), id) <==> id in Stands(ds).observable
  {
    hide Stands, Flat, Merged, IsLatestRow, Named, IsMax, RunsOf;
    MergedRecords(ds);
    assert RunsOf(Merged(ds).countRuns, Flat(ds));
    assert Merged(ds).countRuns.Keys == Named(Flat(ds)) by { RunsKeys(Merged(ds).countRuns, Flat(ds)); }
  }

  lemma RunsKeys(runs: map<Id, Run>, rows: seq<Row>)
    requires RunsOf(runs, rows)
    ensures runs.Keys == Named(rows)
  {}

  lemma ObservedUnfolds(past: seq<Row>, rows: seq<Row>, observable: set<Id>, id: Id)
    ensures id in observable + Observed(past, rows, observable) <==>
            || id in observable
            || exists j: nat :: j < |rows| && rows[j].id == id
                 && (!Names(past + rows[..j], id) || (rows[j].known && HasClock(past) && NewerThanAll(past, rows[j].millis)))
  {
    hide Names, NewerThanAll, HasClock;
    if j: nat :| j < |rows| && rows[j].id == id
                 && (!Names(past + rows[..j], id) || (rows[j].known && HasClock(past) && NewerThanAll(past, rows[j].millis))) {
      assert id !in observable ==> Observes(past, rows, j, observable);
    }
  }

  lemma UnclearUnfolds(past: seq<Row>, rows: seq<Row>, observable: set<Id>)
    ensures Unclear(past, rows, observable) <==>
            exists j: nat :: j < |rows| && Names(past + rows[..j], rows[j].id)
              && (|| !rows[j].known || Clockless(past + rows[..j], rows[j].id)
                  || (rows[j].id !in observable && !(HasClock(past) && NewerThanAll(past, rows[j].millis))
                      && NotOlder(past + rows[..j], rows[j].id, rows[j].millis)))
  {
    hide Names, NewerThanAll, NotOlder, Clockless, HasClock;
    if HasUndecided(past, rows) { var j :| 0 <= j < |rows| && Undecided(past, rows, j); }
    if HasAmbiguous(past, rows, observable) { var j :| 0 <= j < |rows| && Ambiguous(past, rows, j, observable); }
    if j: nat :| j < |rows| && Names(past + rows[..j], rows[j].id)
                 && (|| !rows[j].known || Clockless(past + rows[..j], rows[j].id)
                     || (rows[j].id !in observable && !(HasClock(past) && NewerThanAll(past, rows[j].millis))
                         && NotOlder(past + rows[..j], rows[j].id, rows[j].millis)))
    {
      assert Undecided(past, rows, j) || Ambiguous(past, rows, j, observable);
    }
  }

  /**
    A partial delivery makes a run observable exactly when some row of it is of a run never
    recorded, or is newer than every clock before, unless a row beside it leaves doubt: one
    of a recorded run without a clock on either side, or of a run not observable and neither
    older than it nor newer than everything.  No run stops being observable by it.
   */
  lemma PartialObserves(ds: seq<Sent>, d: Sent, id: Id)
    requires !d.complete
    ensures Shown(Merged(ds + [d]), id) <==>
            || Shown(Merged(ds), id)
            || (&& (exists j: nat :: j < |d.rows| && d.rows[j].id == id
                     && (!Names(Flat(ds) + d.rows[..j], id)
                         || (d.rows[j].known && HasClock(Flat(ds)) && NewerThanAll(Flat(ds), d.rows[j].millis))))
                && !exists j: nat :: j < |d.rows| && Names(Flat(ds) + d.rows[..j], d.rows[j].id)
                     && (|| !d.rows[j].known || Clockless(Flat(ds) + d.rows[..j], d.rows[j].id)
                         || (!Shown(Merged(ds), d.rows[j].id)
                             && !(HasClock(Flat(ds)) && NewerThanAll(Flat(ds), d.rows[j].millis))
                             && NotOlder(Flat(ds) + d.rows[..j], d.rows[j].id, d.rows[j].millis))))
  {
    hide Stands, Flat, Merged, Names, NotOlder, NewerThanAll, Shown, AcceptedInventory, HasStale, Unclear, Observed, Clockless, HasClock;
    ObservedUnfolds(Flat(ds), d.rows, Stands(ds).observable, id);
    UnclearUnfolds(Flat(ds), d.rows, Stands(ds).observable);
    StandsSnoc(ds, d);
    forall other ensures Shown(Merged(ds), other) <==> other in Stands(ds).observable { ShownStands(ds, other); }
    ShownStands(ds + [d], id);
  }

  // Since the last accepted inventory

  /** The last delivery puts membership in doubt: no row of it is stale, and it neither is accepted nor is a clear partial one. */
  ghost predicate Doubts(ds: seq<Sent>)
    requires ds != []
  {
    var before, d := ds[..|ds| - 1], ds[|ds| - 1];
    && !HasStale(Flat(before), d.rows)
    && if d.complete then !Accepts(ds) else Unclear(Flat(before), d.rows, Stands(before).observable)
  }

  /** Delivery k is the last inventory that was accepted. */
  ghost predicate LastAccepted(ds: seq<Sent>, k: nat)
  {
    && k < |ds| && Accepts(ds[..k + 1])
    && forall n: nat :: k + 1 < n <= |ds| ==> !Accepts(ds[..n])
  }

  /** Some delivery behind k observes the run. */
  ghost predicate AdmittedSince(ds: seq<Sent>, k: nat, id: Id)
  {
    exists n: nat :: k + 1 < n <= |ds| && Admits(ds[..n], id)
  }

  ghost predicate DoubtedSince(ds: seq<Sent>, k: nat)
  {
    exists n: nat :: k + 1 < n <= |ds| && Doubts(ds[..n])
  }

  lemma Prefixes(ds: seq<Sent>, d: Sent)
    ensures forall n: nat :: n <= |ds| ==> (ds + [d])[..n] == ds[..n]
    ensures ds[..|ds|] == ds && (ds + [d])[..|ds| + 1] == ds + [d]
  {
    forall n: nat | n <= |ds| ensures (ds + [d])[..n] == ds[..n] {}
  }

  lemma SinceSnoc(ds: seq<Sent>, d: Sent, k: nat)
    requires k < |ds|
    ensures forall id :: AdmittedSince(ds + [d], k, id) <==> AdmittedSince(ds, k, id) || Admits(ds + [d], id)
    ensures DoubtedSince(ds + [d], k) <==> DoubtedSince(ds, k) || Doubts(ds + [d])
    ensures LastAccepted(ds + [d], k) <==> LastAccepted(ds, k) && !Accepts(ds + [d])
  {
    hide Admits, Doubts, Accepts;
    Prefixes(ds, d);
    var all := ds + [d];
    assert forall n: nat :: n <= |all| ==> all[..n] == if n <= |ds| then ds[..n] else all;
  }

  lemma {:induction false} StandsSince(ds: seq<Sent>, k: nat)
    requires k < |ds| && LastAccepted(ds, k)
    ensures Stands(ds).authority && (Stands(ds).unknown <==> DoubtedSince(ds, k))
    ensures forall id :: id in Stands(ds).observable <==> Names(ds[k].rows, id) || AdmittedSince(ds, k, id)
    decreases |ds|
  {
    hide HasStale, Unclear, AcceptedInventory, Names, Observes, Stands, Flat, AdmittedSince, DoubtedSince, LastAccepted;
    var most, d := ds[..|ds| - 1], ds[|ds| - 1];
    assert ds == most + [d];
    StandsSnoc(most, d);
    if k == |ds| - 1 {
      NothingSince(ds, k);
    } else {
      SinceSnoc(most, d, k);
      StandsSince(most, k);
    }
  }

  lemma NothingSince(ds: seq<Sent>, k: nat)
    requires LastAccepted(ds, k) && k == |ds| - 1
    ensures Accepts(ds) && !DoubtedSince(ds, k) && forall id :: !AdmittedSince(ds, k, id)
  {
    assert ds[..k + 1] == ds;
  }

  /** The members of the inventory and what was observed since. */
  ghost function Members(ds: seq<Sent>, k: nat): set<Id>
    requires k < |ds|
  {
    set i | 0 <= i < |Flat(ds)| && (Names(ds[k].rows, Flat(ds)[i].id) || AdmittedSince(ds, k, Flat(ds)[i].id)) :: Flat(ds)[i].id
  }

  /** Going looks only at runs that were delivered. */
  lemma GoingAmong(rows: seq<Row>, one: set<Id>, other: set<Id>)
    requires forall i :: 0 <= i < |rows| ==> (rows[i].id in one <==> rows[i].id in other)
    ensures Going(rows, one) == Going(rows, other)
  {
    hide IsLatestRow;
  }

  /**
    After the last accepted inventory a run is observable exactly when the inventory lists
    it or a partial delivery observed it since; the running count is that of the nonterminal
    ones, and it is withheld exactly when some delivery since has put membership in doubt.
   */
  lemma CountsSinceAccepted(ds: seq<Sent>, k: nat)
    requires k < |ds| && LastAccepted(ds, k)
    ensures forall id :: Shown(Merged(ds), id) <==> Names(ds[k].rows, id) || AdmittedSince(ds, k, id)
    ensures Published(Merged(ds)) ==
            if DoubtedSince(ds, k) then None else Some((|Going(Flat(ds), Members(ds, k))|, |Named(Flat(ds))|))
  {
    hide LastAccepted, DoubtedSince, AdmittedSince, Stands, Flat, Merged, Going, Names, Shown, Published, IsLatestRow, IsMax;
    StandsSince(ds, k);
    MixedExact(ds);
    forall id ensures Shown(Merged(ds), id) <==> id in Stands(ds).observable { ShownStands(ds, id); }
    GoingAmong(Flat(ds), Stands(ds).observable, Members(ds, k));
  }

  ghost predicate NeverAccepted(ds: seq<Sent>)
  {
    forall n: nat :: 0 < n <= |ds| ==> !Accepts(ds[..n])
  }

  lemma {:induction false} NeverAcceptedWithheld(ds: seq<Sent>)
    requires NeverAccepted(ds)
    ensures Stands(ds).authority ==> Stands(ds).unknown
  {
    hide HasStale, Unclear, AcceptedInventory, Observed, Stands, Flat;
    if ds == [] {
      assert Stands([]) == Standing({}, false, {}, false) by { StandsNothing(); }
    } else {
      var most, d := ds[..|ds| - 1], ds[|ds| - 1];
      assert ds == most + [d];
      Prefixes(most, d);
      StandsSnoc(most, d);
      NeverAcceptedWithheld(most);
      assert ds[..|ds|] == ds;
    }
  }

  lemma StandsNothing()
    ensures Stands([]) == Standing({}, false, {}, false) && Flat([]) == [] && Merged([]) == INITIAL
  {}

  /** Before an inventory is accepted no counts are published. */
  lemma NoCountsBeforeAcceptance(ds: seq<Sent>)
    requires NeverAccepted(ds)
    ensures Published(Merged(ds)) == None
  {
    hide Stands, Flat, Merged, NeverAccepted, IsLatestRow;
    NeverAcceptedWithheld(ds);
    MixedExact(ds);
  }

  // Partial deliveries alone

  predicate AllPartial(ds: seq<Sent>)
  {
    forall i :: 0 <= i < |ds| ==> !ds[i].complete
  }

  /**
    A delivery lists a run again that came before without a clock on either side, or lists a
    run that is new to it again, neither older than the first row nor newer than everything.
   */
  predicate Repeats(past: seq<Row>, rows: seq<Row>)
  {
    || HasUndecided(past, rows)
    || exists j: nat :: j < |rows| && !Names(past, rows[j].id) && Names(rows[..j], rows[j].id)
         && NotOlder(rows[..j], rows[j].id, rows[j].millis) && !(HasClock(past) && NewerThanAll(past, rows[j].millis))
  }

  predicate NoRepeats(ds: seq<Sent>)
  {
    forall n: nat :: n < |ds| ==> !Repeats(Flat(ds[..n]), ds[n].rows)
  }

  lemma NamesApart(past: seq<Row>, rows: seq<Row>, id: Id, millis: int)
    requires !Names(past, id)
    ensures Names(past + rows, id) <==> Names(rows, id)
    ensures NotOlder(past + rows, id, millis) <==> NotOlder(rows, id, millis)
  {
    var all := past + rows;
    assert forall i :: 0 <= i < |past| ==> all[i] == past[i];
    assert forall i :: 0 <= i < |rows| ==> all[|past| + i] == rows[i];
    assert forall i :: |past| <= i < |all| ==> all[i] == rows[i - |past|];
  }

  /** When all recorded runs are observable, a repetition is what leaves doubt. */
  lemma DoubtIsRepeat(past: seq<Row>, rows: seq<Row>)
    ensures Unclear(past, rows, Named(past)) <==> Repeats(past, rows)
  {
    hide Names, NotOlder, NewerThanAll, Clockless, HasClock;
    forall j: nat | j < |rows| && rows[j].id !in Named(past)
      ensures Names(past + rows[..j], rows[j].id) <==> Names(rows[..j], rows[j].id)
      ensures NotOlder(past + rows[..j], rows[j].id, rows[j].millis) <==> NotOlder(rows[..j], rows[j].id, rows[j].millis)
    {
      NamesApart(past, rows[..j], rows[j].id, rows[j].millis);
    }
    if !HasUndecided(past, rows) { RepeatIsAmbiguous(past, rows); }
  }

  lemma RepeatIsAmbiguous(past: seq<Row>, rows: seq<Row>)
    requires !HasUndecided(past, rows)
    requires forall j: nat :: j < |rows| && !Names(past, rows[j].id) ==>
               && (Names(past + rows[..j], rows[j].id) <==> Names(rows[..j], rows[j].id))
               && (NotOlder(past + rows[..j], rows[j].id, rows[j].millis) <==> NotOlder(rows[..j], rows[j].id, rows[j].millis))
    ensures HasAmbiguous(past, rows, Named(past)) <==> Repeats(past, rows)
  {
    hide Names, NotOlder, NewerThanAll, Clockless, HasClock;
    if HasAmbiguous(past, rows, Named(past)) {
      var j :| 0 <= j < |rows| && Ambiguous(past, rows, j, Named(past));
    }
    if Repeats(past, rows) {
      var j: nat :| j < |rows| && !Names(past, rows[j].id) && Names(rows[..j], rows[j].id)
         && NotOlder(rows[..j], rows[j].id, rows[j].millis) && !(HasClock(past) && NewerThanAll(past, rows[j].millis));
      assert !Undecided(past, rows, j);
      assert Ambiguous(past, rows, j, Named(past));
    }
  }

  lemma {:induction false} FirstNamed(rows: seq<Row>, id: Id) returns (j: nat)
    requires Names(rows, id)
    ensures j < |rows| && rows[j].id == id && !Names(rows[..j], id)
  {
    j :| j < |rows| && rows[j].id == id;
    if Names(rows[..j], id) {
      var earlier := FirstNamed(rows[..j], id);
      assert rows[..j][..earlier] == rows[..earlier];
      j := earlier;
    }
  }

  lemma AllNamedObserved(past: seq<Row>, rows: seq<Row>)
    ensures Named(past) + Observed(past, rows, Named(past)) == Named(past + rows)
  {
    hide NewerThanAll, Observed, HasClock;
    NamedAll(past, rows);
    ObservedNamed(past, rows, Named(past));
    forall id | id in Named(rows) && id !in Named(past) ensures id in Observed(past, rows, Named(past)) {
      var j := FirstNamed(rows, id);
      NamesApart(past, rows[..j], id, 0);
      ObservedUnfolds(past, rows, Named(past), id);
    }
  }

  lemma {:induction false} PartialsStand(ds: seq<Sent>)
    requires AllPartial(ds) && NoRepeats(ds)
    ensures Stands(ds) == Standing(Named(Flat(ds)), false, {}, false)
  {
    hide Stands, Flat, Repeats, Named, Unclear, Observed, HasStale, AcceptedInventory;
    if ds == [] {
      StandsNothing();
      assert Named([]) == {} by { NamedNothing(); }
    } else {
      var most, d := ds[..|ds| - 1], ds[|ds| - 1];
      assert ds == most + [d];
      forall n: nat | n < |most| ensures !Repeats(Flat(most[..n]), most[n].rows) { assert most[..n] == ds[..n]; }
      PartialsStand(most);
      StandsSnoc(most, d);
      assert !Repeats(Flat(ds[..|ds| - 1]), ds[|ds| - 1].rows);
      DoubtIsRepeat(Flat(most), d.rows);
      AllNamedObserved(Flat(most), d.rows);
    }
  }

  lemma NamedNothing()
    ensures Named([]) == {}
  {}

  /**
    Partial deliveries alone: unless one repeats a run that is new to it, finishing counts
    exactly the nonterminal runs delivered, and all runs delivered.
   */
  lemma PartialsExact(ds: seq<Sent>)
    requires AllPartial(ds) && NoRepeats(ds)
    ensures !Merged(ds).authorityKnown
    ensures Published(Finish(Merged(ds))) == Some((|Going(Flat(ds), Named(Flat(ds)))|, |Named(Flat(ds))|))
  {
    hide Stands, Flat, Merged, Going, RunningRuns, NoRepeats, AllPartial, IsLatestRow, Named, IsMax, CountRunningWorks;
    PartialsStand(ds);
    MergedRecords(ds);
    RunningIsGoing(Merged(ds).countRuns, Flat(ds), Named(Flat(ds)));
  }

  /** The first repetition withholds the counts, unless a row of the same delivery is stale. */
  lemma {:induction false} RepeatWithholds(ds: seq<Sent>, n: nat)
    requires AllPartial(ds) && n < |ds| && NoRepeats(ds[..n])
    requires Repeats(Flat(ds[..n]), ds[n].rows) && !HasStale(Flat(ds[..n]), ds[n].rows)
    ensures Published(Finish(Merged(ds))) == None
  {
    hide Repeats, NoRepeats, HasStale, Flat, Stands, Merged, IsLatestRow, Named, IsMax, AllPartial, RunningRuns, CountRunningWorks, Going;
    DoubtStays(ds, n);
    MixedExact(ds);
  }

  lemma {:induction false} DoubtStays(ds: seq<Sent>, n: nat)
    requires AllPartial(ds) && n < |ds| && NoRepeats(ds[..n])
    requires Repeats(Flat(ds[..n]), ds[n].rows) && !HasStale(Flat(ds[..n]), ds[n].rows)
    ensures Stands(ds).unknown
  {
    hide Repeats, NoRepeats, HasStale, Flat, Stands, Named, Unclear, AcceptedInventory;
    var most, d := ds[..|ds| - 1], ds[|ds| - 1];
    assert ds == most + [d];
    StandsSnoc(most, d);
    if n == |ds| - 1 {
      PartialsStand(most);
      DoubtIsRepeat(Flat(most), d.rows);
    } else {
      assert most[..n] == ds[..n];
      DoubtStays(most, n);
    }
  }

  // Work of the runs that are present

  /** The delivery has a row that replaces what was recorded of the run. */
  predicate Refreshes(past: seq<Row>, rows: seq<Row>, id: Id)
  {
    exists j :: 0 <= j < |rows| && rows[j].id == id && Replaces(past, rows[j])
  }

  /** The row is newer than every clock of its run, or the run has none. */
  predicate Replaces(past: seq<Row>, r: Row)
  {
    || Clockless(past, r.id)
    || (r.known && forall i :: 0 <= i < |past| && past[i].id == r.id && past[i].known ==> past[i].millis < r.millis)
  }

  /** A run is present from its latest row until a complete inventory omits it. */
  ghost predicate Present(ds: seq<Sent>, id: Id)
  {
    ds != [] &&
    var before, d := ds[..|ds| - 1], ds[|ds| - 1];
    (Refreshes(Flat(before), d.rows, id) || Present(before, id)) && (d.complete ==> Names(d.rows, id))
  }

  lemma RefreshesSnoc(past: seq<Row>, rows: seq<Row>, r: Row, id: Id)
    ensures Refreshes(past, rows + [r], id) <==> Refreshes(past, rows, id) || (r.id == id && Replaces(past, r))
  {
    hide Replaces;
    var all := rows + [r];
    assert all[|rows|] == r && forall i :: 0 <= i < |rows| ==> all[i] == rows[i];
  }

  /** A row that would have replaced what was recorded before the delivery, and is not kept, found a newer one beside it. */
  lemma RefreshedBefore(past: seq<Row>, rows: seq<Row>, row: Row, r: Row)
    requires IsLatestRow(past + rows, row) && r.id == row.id && row.known && (!r.known || r.millis <= row.millis)
    requires Replaces(past, r)
    ensures Refreshes(past, rows, r.id)
  {
    var all := past + rows;
    assert forall i :: 0 <= i < |past| ==> all[i] == past[i];
    var i :| 0 <= i < |all| && all[i] == row && FirstNewest(all, i);
    assert i >= |past| ==> rows[i - |past|] == row && Replaces(past, row);
  }

  /** A row that is not kept replaces whatever was recorded. */
  lemma NewerOfRun(past: seq<Row>, rows: seq<Row>, runs: map<Id, Run>, r: Row)
    requires RunsOf(runs, past + rows) && !Keeps(runs, r)
    ensures Replaces(past, r)
  {
    hide IsLatestRow;
    var all := past + rows;
    assert forall i :: 0 <= i < |past| ==> all[i] == past[i];
    if r.id in runs {
      LatestBounds(all, runs[r.id].row);
      if !Clockless(all, r.id) { OlderThan(all, runs[r.id].row, r); }
    } else {
      Unnamed(all, r);
    }
  }

  lemma PresenceRow(past: seq<Row>, rows: seq<Row>, a: map<Id, Run>, r: Row, id: Id, was: bool)
    requires RunsOf(a, past + rows)
    requires id in a ==> (a[id].present <==> Refreshes(past, rows, id) || was)
    requires id in a || r.id == id
    ensures (if id == r.id && !Keeps(a, r) then true else a[id].present) <==> Refreshes(past, rows + [r], id) || was
  {
    hide Refreshes, IsLatestRow, Replaces;
    RefreshesSnoc(past, rows, r, id);
    if id == r.id {
      if Keeps(a, r) {
        if Replaces(past, r) { RefreshedBefore(past, rows, a[id].row, r); }
      } else {
        NewerOfRun(past, rows, a, r);
      }
    }
  }

  lemma {:induction false} ScanPresence(st: State, past: seq<Row>, rows: seq<Row>, complete: bool, observable: set<Id>, id: Id)
    requires Starts(st, past, observable)
    ensures var a := ScanRows(st, rows, complete);
            id in a.runs ==> (a.runs[id].present <==> Refreshes(past, rows, id) || (id in st.countRuns && st.countRuns[id].present))
  {
    hide Refreshes, RunsOf, IsMax, HasStale, HasAmbiguous, HasUndecided, HasClock, Observed, Names, Named;
    if rows == [] {
      NoneRefreshes(past, id);
    } else {
      var most, r := rows[..|rows| - 1], rows[|rows| - 1];
      var a := ScanRows(st, most, complete);
      assert rows == most + [r];
      ScanHolds(st, past, most, complete, observable);
      ScanPresence(st, past, most, complete, observable, id);
      if id in a.runs || r.id == id {
        if id !in a.runs { NotYetScanned(st, past, most, complete, observable, a, id); }
        PresenceRow(past, most, a.runs, r, id, id in st.countRuns && st.countRuns[id].present);
      }
    }
  }

  lemma NoneRefreshes(past: seq<Row>, id: Id)
    ensures !Refreshes(past, [], id)
  {}

  lemma NotYetScanned(st: State, past: seq<Row>, rows: seq<Row>, complete: bool, observable: set<Id>, a: Scan, id: Id)
    requires Starts(st, past, observable) && Scanned(st, past, rows, complete, observable, a) && id !in a.runs
    ensures !Refreshes(past, rows, id) && id !in st.countRuns
  {
    NamedAll(past, rows);
  }

  lemma {:induction false} PresentExact(ds: seq<Sent>, id: Id)
    requires id in Merged(ds).countRuns
    ensures Merged(ds).countRuns[id].present <==> Present(ds, id)
    decreases |ds|
  {
    hide Refreshes, RunsOf, ScanRows, Merge, Flat, Stands, IsMax;
    if ds != [] {
      var most, d := ds[..|ds| - 1], ds[|ds| - 1];
      assert ds == most + [d];
      MergedRecords(most);
      var st, past := Merged(most), Flat(most);
      StandsSnoc(most, d);
      ScanHolds(st, past, d.rows, d.complete, Stands(most).observable);
      ScanPresence(st, past, d.rows, d.complete, Stands(most).observable, id);
      PresenceFields(st, d.rows, d.complete);
      if id in st.countRuns { PresentExact(most, id); } else { RunsKeys(st.countRuns, past); NeverPresent(most, id); }
    }
  }

  lemma PresenceFields(st: State, rows: seq<Row>, complete: bool)
    ensures var a := ScanRows(st, rows, complete);
            var next := Merge(st, rows, complete);
            && next.countRuns.Keys == a.runs.Keys
            && forall id :: id in next.countRuns ==>
                 (next.countRuns[id].present <==> a.runs[id].present && (complete ==> id in a.present))
  {
    hide ScanRows, CountRunningWorks, RunningRuns, Accepted;
  }

  lemma {:induction false} NeverPresent(ds: seq<Sent>, id: Id)
    requires !Names(Flat(ds), id)
    ensures !Present(ds, id)
  {
    hide Names, Flat;
    if ds != [] {
      var most, d := ds[..|ds| - 1], ds[|ds| - 1];
      assert ds == most + [d];
      StandsSnoc(most, d);
      NamedAll(Flat(most), d.rows);
      assert id !in Named(Flat(most) + d.rows);
      NeverPresent(most, id);
      assert !Names(d.rows, id);
      NotRefreshed(Flat(most), d.rows, id);
    }
  }

  lemma NotRefreshed(past: seq<Row>, rows: seq<Row>, id: Id)
    requires !Names(rows, id)
    ensures !Refreshes(past, rows, id)
  {}

  lemma Listed(rows: seq<Row>, j: nat)
    requires j < |rows|
    ensures Names(rows, rows[j].id)
  {}

  /** The units of running work of the present runs among ids. */
  function WorkOf(runs: map<Id, Run>, ids: set<Id>): set<(Id, nat)>
  {
    set id, w: nat | id in ids && id in runs && runs[id].present && w < |runs[id].row.works| && runs[id].row.works[w].running :: (id, w)
  }

  function RunningAt(id: Id, works: seq<Work>): set<(Id, nat)>
  {
    set w: nat | w < |works| && works[w].running :: (id, w)
  }

  lemma {:induction false} RunningInExact(id: Id, works: seq<Work>)
    ensures |RunningAt(id, works)| == RunningIn(works)
  {
    if works != [] {
      var n := |works| - 1;
      RunningInExact(id, works[..n]);
      assert RunningAt(id, works) == RunningAt(id, works[..n]) + if works[n].running then {(id, n)} else {};
    }
  }

  lemma WorkSplit(runs: map<Id, Run>, ids: set<Id>, id: Id)
    requires id in ids && id in runs
    ensures |WorkOf(runs, ids)| == WorksOf(runs)(id) + |WorkOf(runs, ids - {id})|
  {
    hide RunningIn;
    RunningInExact(id, runs[id].row.works);
    var here := if runs[id].present then RunningAt(id, runs[id].row.works) else {};
    assert WorkOf(runs, ids) == here + WorkOf(runs, ids - {id});
    assert here !! WorkOf(runs, ids - {id});
  }

  lemma {:induction false} WorkSum(runs: map<Id, Run>, ids: set<Id>)
    requires ids <= runs.Keys
    ensures Sum(ids, WorksOf(runs)) == |WorkOf(runs, ids)|
    decreases |ids|
  {
    if ids == {} {
      assert WorkOf(runs, ids) == {};
    } else {
      var id :| id in ids;
      SumRemove(ids, id, WorksOf(runs));
      WorkSplit(runs, ids, id);
      WorkSum(runs, ids - {id});
    }
  }

  lemma FinishedWork(st: State, rows: seq<Row>, complete: bool)
    ensures var next := Merge(st, rows, complete);
            next.authorityKnown ==> next.runningCount == CountRunningWorks(next.countRuns)
  {
    hide ScanRows, CountRunningWorks, RunningRuns, Accepted;
  }

  /** Running work of the latest rows of the present runs. */
  ghost function RunningWork(ds: seq<Sent>): set<(Id, nat)>
  {
    var rows := Flat(ds);
    set i, w: nat | 0 <= i < |rows| && IsLatestRow(rows, rows[i]) && Present(ds, rows[i].id)
                    && w < |rows[i].works| && rows[i].works[w].running :: (rows[i].id, w)
  }

  lemma WorkIsRunning(ds: seq<Sent>, runs: map<Id, Run>)
    requires RunsOf(runs, Flat(ds)) && forall id :: id in runs ==> (runs[id].present <==> Present(ds, id))
    ensures WorkOf(runs, runs.Keys) == RunningWork(ds)
  {
    hide IsLatestRow, Present, Flat;
    var rows := Flat(ds);
    forall p | p in WorkOf(runs, runs.Keys) ensures p in RunningWork(ds) {
      LatestListed(rows, runs[p.0].row);
    }
    forall p | p in RunningWork(ds) ensures p in WorkOf(runs, runs.Keys) {
      var i :| 0 <= i < |rows| && IsLatestRow(rows, rows[i]) && rows[i].id == p.0 && Present(ds, rows[i].id)
               && p.1 < |rows[i].works| && rows[i].works[p.1].running;
      Listed(rows, i);
      LatestUnique(rows, rows[i], runs[p.0].row);
    }
  }

  /** Once an inventory was complete, the work count is that of the latest rows of the runs present. */
  lemma WorkCountExact(ds: seq<Sent>)
    requires ds != [] && Merged(ds).authorityKnown
    ensures Merged(ds).runningCount == |RunningWork(ds)|
  {
    hide Present, Flat, Stands, IsMax, Merge, RunsOf, RunningWork;
    var most, d := ds[..|ds| - 1], ds[|ds| - 1];
    FinishedWork(Merged(most), d.rows, d.complete);
    MergedRecords(ds);
    var runs := Merged(ds).countRuns;
    forall id | id in runs ensures runs[id].present <==> Present(ds, id) { PresentExact(ds, id); }
    WorkIsRunning(ds, runs);
    WorkSum(runs, runs.Keys);
  }
}
