/**
  Exact DAG run counts from inventories that arrive in any order and any number of
  times.  A run or task is named by its id, which the source hashes; the hash is
  taken to be injective.
 */
module DagCounts {
  import opened Wrappers
  import opened Sums

  type Id = string

  datatype WorkKey = WorkKey(id: string, task: bool)

  datatype Work = Work(key: WorkKey, running: bool)

  /** One decoded row of an inventory.  Without a known clock, millis means nothing. */
  datatype Row = Row(id: Id, known: bool, millis: int, terminal: bool, works: seq<Work>,
                     completed: nat, total: nat, countsIncomplete: bool)

  /** Present is about nodes and agents, observable about run membership. */
  datatype Run = Run(row: Row, present: bool, observable: bool)

  datatype State = State(
    countRuns: map<Id, Run>,
    runningCount: nat, runRunningCount: nat, runTotalCount: nat,
    authorityKnown: bool, membershipUnknown: bool,
    membership: set<Id>,
    revisionKnown: bool, revision: int)

  const INITIAL := State(map[], 0, 0, 0, false, false, {}, false, 0)

  // Reference behaviour of one delivery

  /** What has been learned from the rows of a delivery so far. */
  datatype Scan = Scan(runs: map<Id, Run>, present: set<Id>, observations: set<Id>,
                       stale: bool, unordered: bool, newestKnown: bool, newest: int)

  /** The recorded run does not give way to a row with an older or unknown clock. */
  predicate Keeps(runs: map<Id, Run>, row: Row)
  {
    row.id in runs && runs[row.id].row.known && (!row.known || row.millis <= runs[row.id].row.millis)
  }

  function ScanRow(a: Scan, row: Row, complete: bool, st: State): Scan
  {
    var exists_ := row.id in a.runs;
    var observable := exists_ && a.runs[row.id].observable;
    var known := exists_ && a.runs[row.id].row.known;
    var millis := if exists_ then a.runs[row.id].row.millis else 0;
    var reobserved := !complete && !observable &&
                      (!exists_ || (row.known && st.revisionKnown && row.millis > st.revision));
    var ambiguous := !complete && !observable && !reobserved && (!known || !row.known || row.millis >= millis);
    Scan(
      if Keeps(a.runs, row) then a.runs else a.runs[row.id := Run(row, true, observable)],
      a.present + {row.id},
      if reobserved then a.observations + {row.id} else a.observations,
      a.stale || (known && row.known && row.millis < millis),
      a.unordered || (exists_ && (!known || !row.known)) || ambiguous,
      a.newestKnown || row.known,
      if row.known && (!a.newestKnown || row.millis > a.newest) then row.millis else a.newest)
  }

  function ScanRows(st: State, rows: seq<Row>, complete: bool): Scan
  {
    if rows == [] then Scan(st.countRuns, {}, {}, false, false, false, 0)
    else ScanRow(ScanRows(st, rows[..|rows| - 1], complete), rows[|rows| - 1], complete, st)
  }

  /** Whether a complete inventory establishes membership. */
  predicate Accepted(st: State, a: Scan)
  {
    var newer := a.newestKnown && (!st.revisionKnown || a.newest > st.revision);
    var steady := !st.membershipUnknown && a.present == st.membership &&
                  ((a.newestKnown && st.revisionKnown && a.newest == st.revision) || (!a.newestKnown && a.runs == map[]));
    var initial := !st.authorityKnown && !st.membershipUnknown && a.newestKnown && |a.present| == |a.runs| &&
                   (!st.revisionKnown || a.newest >= st.revision);
    !a.stale && !a.unordered && (newer || steady || initial)
  }

  function RunningIn(works: seq<Work>): nat
  {
    if works == [] then 0
    else RunningIn(works[..|works| - 1]) + (if works[|works| - 1].running then 1 else 0)
  }

  function RunningWorks(run: Run): nat { if run.present then RunningIn(run.row.works) else 0 }

  function WorksOf(runs: map<Id, Run>): Id -> nat
  {
    id => if id in runs then RunningWorks(runs[id]) else 0
  }

  ghost function CountRunningWorks(runs: map<Id, Run>): nat { Sum(runs.Keys, WorksOf(runs)) }

  function RunningRuns(runs: map<Id, Run>): set<Id>
  {
    set id | id in runs && runs[id].observable && !runs[id].row.terminal
  }

  ghost function Finish(st: State): State
  {
    st.(authorityKnown := true, runningCount := CountRunningWorks(st.countRuns),
        runRunningCount := |RunningRuns(st.countRuns)|, runTotalCount := |st.countRuns|)
  }

  /** A recorded run after a complete inventory that lists it or not. */
  function Retained(run: Run, listed: bool, accepted: bool): Run
  {
    run.(present := run.present && listed, observable := if accepted then listed else run.observable)
  }

  function Observed(run: Run, reobserved: bool): Run
  {
    run.(observable := run.observable || reobserved)
  }

  function AdmitRows(st: State, a: Scan): State
  {
    st.(countRuns := a.runs, membershipUnknown := st.membershipUnknown || (a.unordered && !a.stale))
  }

  function AdmitPartial(st: State, a: Scan): State
  {
    if a.unordered then st
    else st.(countRuns := map id | id in st.countRuns :: Observed(st.countRuns[id], id in a.observations))
  }

  function AdmitComplete(st: State, a: Scan): State
  {
    var accepted := Accepted(st, a);
    st.(countRuns := map id | id in st.countRuns :: Retained(st.countRuns[id], id in a.present, accepted),
        membershipUnknown := if accepted then false else st.membershipUnknown || !a.stale || !st.authorityKnown,
        membership := if accepted then a.present else st.membership,
        authorityKnown := true)
  }

  function AdvanceRevision(st: State, a: Scan): State
  {
    if a.newestKnown && (!st.revisionKnown || a.newest > st.revision)
    then st.(revisionKnown := true, revision := a.newest) else st
  }

  ghost function Merge(st: State, rows: seq<Row>, complete: bool): State
  {
    var a := ScanRows(st, rows, complete);
    var st1 := AdmitRows(st, a);
    var st2 := AdvanceRevision(if complete then AdmitComplete(st1, a) else AdmitPartial(st1, a), a);
    if st2.authorityKnown then Finish(st2) else st2
  }

  /** The run counts shown to a client: None while membership is in doubt. */
  function Published(st: State): Option<(nat, nat)>
  {
    if !st.authorityKnown || st.membershipUnknown then None else Some((st.runRunningCount, st.runTotalCount))
  }

  // What the provider sends

  type Inventory = map<Id, Row>

  predicate WfInventory(inv: Inventory)
  {
    inv != map[] && forall id :: id in inv ==> inv[id].id == id && inv[id].known
  }

  predicate NewestOf(inv: Inventory, t: int)
  {
    (exists id :: id in inv && inv[id].millis == t) && forall id :: id in inv ==> inv[id].millis <= t
  }

  /** The clock of a run never goes back, and it identifies the row. */
  predicate Follows(older: Inventory, newer: Inventory)
  {
    && (forall id :: id in older && id in newer ==> older[id].millis <= newer[id].millis)
    && (forall id :: id in older && id in newer && older[id].millis == newer[id].millis ==> older[id] == newer[id])
    && exists id :: id in newer && forall other :: other in older ==> older[other].millis < newer[id].millis
  }

  predicate WfHistory(h: seq<Inventory>)
  {
    && (forall i :: 0 <= i < |h| ==> WfInventory(h[i]))
    && forall i, j :: 0 <= i < j < |h| ==> Follows(h[i], h[j])
  }

  lemma HistoryAt(h: seq<Inventory>, i: nat, j: nat)
    requires WfHistory(h) && i <= j < |h|
    ensures WfInventory(h[i]) && WfInventory(h[j]) && (i < j ==> Follows(h[i], h[j]))
  {}

  /** The rows of a delivery list an inventory, in some order and possibly repeatedly. */
  predicate Lists(rows: seq<Row>, inv: Inventory)
  {
    && (forall i :: 0 <= i < |rows| ==> rows[i].id in inv && inv[rows[i].id] == rows[i])
    && forall id :: id in inv ==> inv[id] in rows
  }

  datatype Delivery = Delivery(index: nat, rows: seq<Row>)

  predicate WfDeliveries(h: seq<Inventory>, ds: seq<Delivery>)
  {
    forall i :: 0 <= i < |ds| ==> ds[i].index < |h| && Lists(ds[i].rows, h[ds[i].index])
  }

  ghost function After(ds: seq<Delivery>): State
  {
    if ds == [] then INITIAL else Merge(After(ds[..|ds| - 1]), ds[|ds| - 1].rows, true)
  }

  function Latest(ds: seq<Delivery>): nat
    requires ds != []
  {
    var d := ds[|ds| - 1].index;
    if |ds| == 1 then d else
    var m := Latest(ds[..|ds| - 1]);
    if d > m then d else m
  }

  function Delivered(h: seq<Inventory>, ds: seq<Delivery>): set<Id>
    requires WfDeliveries(h, ds)
  {
    set i, id | 0 <= i < |ds| && id in h[ds[i].index] :: id
  }

  function Nonterminal(inv: Inventory): set<Id>
  {
    set id | id in inv && !inv[id].terminal
  }

  // A complete inventory with known clocks

  /** The recorded run after an inventory that lists row for it. */
  function Updated(runs: map<Id, Run>, row: Row): Run
  {
    if Keeps(runs, row) then runs[row.id] else Run(row, true, row.id in runs && runs[row.id].observable)
  }

  predicate AllKnown(runs: map<Id, Run>) { forall id :: id in runs ==> runs[id].row.known && runs[id].row.id == id }

  predicate Part(rows: seq<Row>, inv: Inventory)
  {
    forall i :: 0 <= i < |rows| ==> rows[i].id in inv && inv[rows[i].id] == rows[i]
  }

  function Ids(rows: seq<Row>): set<Id> { set i | 0 <= i < |rows| :: rows[i].id }

  lemma IdsSnoc(rows: seq<Row>)
    requires rows != []
    ensures Ids(rows) == Ids(rows[..|rows| - 1]) + {rows[|rows| - 1].id}
  {
    var n := |rows| - 1;
    forall id | id in Ids(rows) ensures id in Ids(rows[..n]) + {rows[n].id} {
      var i :| 0 <= i < |rows| && rows[i].id == id;
      if i < n { assert rows[..n][i].id == id; }
    }
    forall id | id in Ids(rows[..n]) ensures id in Ids(rows) {
      var i :| 0 <= i < n && rows[..n][i].id == id;
      assert rows[i].id == id;
    }
  }

  lemma {:induction false} ScanRuns(st: State, rows: seq<Row>, inv: Inventory)
    requires WfInventory(inv) && AllKnown(st.countRuns) && Part(rows, inv)
    ensures var a := ScanRows(st, rows, true);
            && a.present == Ids(rows) && a.present <= inv.Keys
            && a.runs.Keys == st.countRuns.Keys + a.present
            && (forall id :: id in a.present ==> a.runs[id] == Updated(st.countRuns, inv[id]))
            && (forall id :: id in a.runs && id !in a.present ==> a.runs[id] == st.countRuns[id])
  {
    if rows != [] {
      ScanRuns(st, rows[..|rows| - 1], inv);
      IdsSnoc(rows);
    }
  }

  predicate StaleIn(runs: map<Id, Run>, inv: Inventory, ids: set<Id>)
  {
    exists id :: id in ids && id in runs && id in inv && inv[id].millis < runs[id].row.millis
  }

  lemma {:induction false} ScanFlags(st: State, rows: seq<Row>, inv: Inventory)
    requires WfInventory(inv) && AllKnown(st.countRuns) && Part(rows, inv)
    ensures var a := ScanRows(st, rows, true);
            && !a.unordered
            && (a.stale <==> StaleIn(st.countRuns, inv, Ids(rows)))
            && (a.newestKnown <==> rows != [])
            && (rows != [] ==> && (forall id :: id in Ids(rows) ==> inv[id].millis <= a.newest)
                               && exists id :: id in Ids(rows) && inv[id].millis == a.newest)
  {
    if rows != [] {
      var most, row := rows[..|rows| - 1], rows[|rows| - 1];
      ScanRuns(st, most, inv);
      ScanFlags(st, most, inv);
      IdsSnoc(rows);
      assert row.id in Ids(rows) && inv[row.id] == row;
    }
  }

  lemma ListsIds(rows: seq<Row>, inv: Inventory)
    requires WfInventory(inv) && Lists(rows, inv)
    ensures Part(rows, inv) && Ids(rows) == inv.Keys && rows != []
  {
    forall id | id in inv ensures id in Ids(rows) {
      var i :| 0 <= i < |rows| && rows[i] == inv[id];
    }
    var id :| id in inv;
    assert inv[id] in rows;
  }

  // The counts over every sequence of deliveries

  predicate IsLatest(h: seq<Inventory>, ds: seq<Delivery>, id: Id, row: Row)
    requires WfDeliveries(h, ds)
  {
    && (exists i :: 0 <= i < |ds| && id in h[ds[i].index] && h[ds[i].index][id] == row)
    && forall i :: 0 <= i < |ds| && id in h[ds[i].index] ==> h[ds[i].index][id].millis <= row.millis
  }

  /** No run of the inventory has been delivered with a newer clock, so it cannot be seen to be old. */
  predicate Ambiguous(h: seq<Inventory>, ds: seq<Delivery>, inv: Inventory)
    requires WfDeliveries(h, ds)
  {
    forall i, id :: 0 <= i < |ds| && id in h[ds[i].index] && id in inv ==> h[ds[i].index][id].millis <= inv[id].millis
  }

  /** When the counts are withheld: an ambiguous older inventory came after the newest one. */
  predicate Withheld(h: seq<Inventory>, ds: seq<Delivery>)
    requires WfDeliveries(h, ds)
  {
    if ds == [] then false else
    var before, k := ds[..|ds| - 1], ds[|ds| - 1].index;
    if before == [] || k > Latest(before) then false
    else if k == Latest(before) then Withheld(h, before)
    else Withheld(h, before) || Ambiguous(h, before, h[k])
  }

  /** The recorded runs are the delivered ones, each with its latest row. */
  predicate RunsExact(h: seq<Inventory>, ds: seq<Delivery>, runs: map<Id, Run>)
    requires WfDeliveries(h, ds)
  {
    && runs.Keys == Delivered(h, ds)
    && forall id :: id in runs ==> runs[id].row.id == id && IsLatest(h, ds, id, runs[id].row)
  }

  /** Membership, when known, is that of the newest delivered inventory. */
  predicate MembershipExact(h: seq<Inventory>, ds: seq<Delivery>, st: State)
    requires WfDeliveries(h, ds) && ds != []
  {
    && Latest(ds) < |h|
    && (st.membershipUnknown <==> Withheld(h, ds))
    && (!st.membershipUnknown ==>
          && st.membership == h[Latest(ds)].Keys
          && forall id :: id in st.countRuns ==> (st.countRuns[id].observable <==> id in h[Latest(ds)]))
  }

  predicate Inv(h: seq<Inventory>, ds: seq<Delivery>, st: State)
    requires WfDeliveries(h, ds) && ds != []
  {
    && st.authorityKnown && st.revisionKnown
    && Latest(ds) < |h| && NewestOf(h[Latest(ds)], st.revision)
    && RunsExact(h, ds, st.countRuns)
    && MembershipExact(h, ds, st)
    && st.runRunningCount == |RunningRuns(st.countRuns)| && st.runTotalCount == |st.countRuns|
  }

  lemma {:induction false} LatestIsMax(ds: seq<Delivery>)
    requires ds != []
    ensures exists i :: 0 <= i < |ds| && ds[i].index == Latest(ds)
    ensures forall i :: 0 <= i < |ds| ==> ds[i].index <= Latest(ds)
  {
    assert ds[|ds| - 1].index <= Latest(ds);
    if |ds| > 1 {
      LatestIsMax(ds[..|ds| - 1]);
      var i :| 0 <= i < |ds| - 1 && ds[..|ds| - 1][i].index == Latest(ds[..|ds| - 1]);
      assert ds[i].index == Latest(ds[..|ds| - 1]);
      forall j | 0 <= j < |ds| ensures ds[j].index <= Latest(ds) {
        if j < |ds| - 1 { assert ds[..|ds| - 1][j] == ds[j]; }
      }
    }
  }

  /** The row of the newest delivered inventory is the latest row of its runs. */
  lemma LatestRow(h: seq<Inventory>, ds: seq<Delivery>, id: Id, row: Row)
    requires WfHistory(h) && WfDeliveries(h, ds) && ds != [] && Latest(ds) < |h|
    requires id in h[Latest(ds)] && IsLatest(h, ds, id, row)
    ensures row == h[Latest(ds)][id]
  {
    hide WfHistory;
    hide Latest;
    hide WfDeliveries;
    LatestIsMax(ds);
    var i :| 0 <= i < |ds| && id in h[ds[i].index] && h[ds[i].index][id] == row;
    var m :| 0 <= m < |ds| && ds[m].index == Latest(ds);
    assert h[ds[m].index][id].millis <= row.millis;
    HistoryAt(h, ds[i].index, ds[m].index);
  }

  lemma Snoc(h: seq<Inventory>, ds: seq<Delivery>, d: Delivery)
    requires WfDeliveries(h, ds + [d])
    ensures WfDeliveries(h, ds) && d.index < |h| && Lists(d.rows, h[d.index])
    ensures (ds + [d])[..|ds|] == ds
    ensures Delivered(h, ds + [d]) == Delivered(h, ds) + h[d.index].Keys
  {
    var all := ds + [d];
    forall i | 0 <= i < |ds| ensures ds[i].index < |h| && Lists(ds[i].rows, h[ds[i].index]) {
      assert all[i] == ds[i];
    }
    assert all[|ds|] == d;
    forall id | id in Delivered(h, all) ensures id in Delivered(h, ds) + h[d.index].Keys {
      var i :| 0 <= i < |all| && id in h[all[i].index];
      if i < |ds| { assert all[i] == ds[i]; }
    }
    forall id | id in Delivered(h, ds) ensures id in Delivered(h, all) {
      var i :| 0 <= i < |ds| && id in h[ds[i].index];
      assert all[i] == ds[i];
    }
  }

  lemma KeepRow(h: seq<Inventory>, ds: seq<Delivery>, d: Delivery, id: Id, row: Row)
    requires WfDeliveries(h, ds + [d]) && WfDeliveries(h, ds) && d.index < |h|
    requires IsLatest(h, ds, id, row) && (id in h[d.index] ==> h[d.index][id].millis <= row.millis)
    ensures IsLatest(h, ds + [d], id, row)
  {
    var all := ds + [d];
    assert all[|ds|] == d;
    assert forall i :: 0 <= i < |ds| ==> all[i] == ds[i];
    var i :| 0 <= i < |ds| && id in h[ds[i].index] && h[ds[i].index][id] == row;
    assert h[all[i].index][id] == row;
  }

  lemma NewRow(h: seq<Inventory>, ds: seq<Delivery>, d: Delivery, id: Id, old_: Row)
    requires WfDeliveries(h, ds + [d]) && WfDeliveries(h, ds) && d.index < |h| && id in h[d.index]
    requires id !in Delivered(h, ds) || (IsLatest(h, ds, id, old_) && old_.millis <= h[d.index][id].millis)
    ensures IsLatest(h, ds + [d], id, h[d.index][id])
  {
    var all := ds + [d];
    assert all[|ds|] == d;
    assert forall i :: 0 <= i < |ds| ==> all[i] == ds[i];
    assert forall i :: 0 <= i < |ds| && id in h[ds[i].index] ==> id in Delivered(h, ds);
  }

  lemma RowsKnown(h: seq<Inventory>, ds: seq<Delivery>, runs: map<Id, Run>)
    requires WfHistory(h) && WfDeliveries(h, ds) && RunsExact(h, ds, runs)
    ensures AllKnown(runs)
  {
    forall id | id in runs ensures runs[id].row.known {
      assert IsLatest(h, ds, id, runs[id].row);
      var i :| 0 <= i < |ds| && id in h[ds[i].index] && h[ds[i].index][id] == runs[id].row;
    }
  }

  lemma StepRuns(h: seq<Inventory>, ds: seq<Delivery>, d: Delivery, runs: map<Id, Run>, next: map<Id, Run>)
    requires WfHistory(h) && WfDeliveries(h, ds + [d]) && WfDeliveries(h, ds) && d.index < |h| && RunsExact(h, ds, runs)
    requires Delivered(h, ds + [d]) == Delivered(h, ds) + h[d.index].Keys
    requires next.Keys == runs.Keys + h[d.index].Keys
    requires forall id :: id in next ==>
               next[id].row == if id in h[d.index] then Updated(runs, h[d.index][id]).row else runs[id].row
    ensures RunsExact(h, ds + [d], next)
  {
    hide IsLatest;
    hide Delivered;
    hide WfHistory;
    RowsKnown(h, ds, runs);
    HistoryAt(h, d.index, d.index);
    forall id | id in next ensures next[id].row.id == id && IsLatest(h, ds + [d], id, next[id].row) {
      if id in runs && next[id].row == runs[id].row {
        KeepRow(h, ds, d, id, runs[id].row);
      } else {
        NewRow(h, ds, d, id, if id in runs then runs[id].row else next[id].row);
      }
    }
  }

  /** A known-clock inventory is seen to be stale exactly when it is not ambiguous. */
  lemma StaleExactly(h: seq<Inventory>, ds: seq<Delivery>, st: State, inv: Inventory)
    requires WfDeliveries(h, ds) && ds != [] && Inv(h, ds, st)
    ensures StaleIn(st.countRuns, inv, inv.Keys) <==> !Ambiguous(h, ds, inv)
  {
    if !Ambiguous(h, ds, inv) {
      var i, id :| 0 <= i < |ds| && id in h[ds[i].index] && id in inv && h[ds[i].index][id].millis > inv[id].millis;
      assert id in Delivered(h, ds);
    }
  }

  lemma NewestUnique(inv: Inventory, t: int, u: int)
    requires NewestOf(inv, t) && NewestOf(inv, u)
    ensures t == u
  {}

  /** How the clock and the staleness of a delivery compare with what came before. */
  lemma CompareDelivery(h: seq<Inventory>, ds: seq<Delivery>, k: nat, revision: int, newest: int)
    requires WfHistory(h) && WfDeliveries(h, ds) && ds != [] && Latest(ds) < |h| && k < |h|
    requires NewestOf(h[Latest(ds)], revision) && NewestOf(h[k], newest)
    ensures newest > revision <==> k > Latest(ds)
    ensures newest == revision <==> k == Latest(ds)
    ensures k >= Latest(ds) ==> Ambiguous(h, ds, h[k])
  {
    hide Latest, Ambiguous;
    var m := Latest(ds);
    LatestIsMax(ds);
    if k < m { assert Follows(h[k], h[m]); }
    if m < k { assert Follows(h[m], h[k]); }
    if k == m { NewestUnique(h[k], newest, revision); }
    if k >= m { LaterIsAmbiguous(h, ds, k); }
  }

  /** Nothing that was delivered is newer than an inventory that is not older than all of it. */
  lemma LaterIsAmbiguous(h: seq<Inventory>, ds: seq<Delivery>, k: nat)
    requires WfHistory(h) && WfDeliveries(h, ds) && ds != [] && k < |h| && k >= Latest(ds)
    ensures Ambiguous(h, ds, h[k])
  {
    hide Latest;
    LatestIsMax(ds);
    forall i, id | 0 <= i < |ds| && id in h[ds[i].index] && id in h[k]
      ensures h[ds[i].index][id].millis <= h[k][id].millis
    {
      if ds[i].index < k { assert Follows(h[ds[i].index], h[k]); }
    }
  }

  /** What scanning a complete inventory with known clocks finds. */
  lemma ScanComplete(st: State, rows: seq<Row>, inv: Inventory)
    requires WfInventory(inv) && Lists(rows, inv) && AllKnown(st.countRuns)
    ensures var a := ScanRows(st, rows, true);
            && a.newestKnown && NewestOf(inv, a.newest) && a.present == inv.Keys && !a.unordered
            && (a.stale <==> StaleIn(st.countRuns, inv, inv.Keys))
            && a.runs.Keys == st.countRuns.Keys + inv.Keys
            && (forall id :: id in a.runs ==>
                  a.runs[id] == if id in inv then Updated(st.countRuns, inv[id]) else st.countRuns[id])
  {
    hide ScanRows;
    hide Lists;
    hide StaleIn;
    ListsIds(rows, inv);
    ScanRuns(st, rows, inv);
    ScanFlags(st, rows, inv);
  }

  lemma MergeRuns(st: State, rows: seq<Row>)
    ensures var a := ScanRows(st, rows, true);
            var next := Merge(st, rows, true);
            && next.countRuns.Keys == a.runs.Keys
            && forall id :: id in next.countRuns ==>
                 next.countRuns[id] == Retained(a.runs[id], id in a.present, Accepted(AdmitRows(st, a), a))
  {
    hide ScanRows;
    hide Accepted;
    hide CountRunningWorks;
    hide RunningRuns;
  }

  /** Merging a complete inventory with known clocks, without the scan. */
  lemma MergeComplete(st: State, rows: seq<Row>, inv: Inventory)
    requires WfInventory(inv) && Lists(rows, inv) && AllKnown(st.countRuns)
    ensures var next := Merge(st, rows, true);
            var a := ScanRows(st, rows, true);
            && a.newestKnown && NewestOf(inv, a.newest) && a.present == inv.Keys && !a.unordered
            && (a.stale <==> StaleIn(st.countRuns, inv, inv.Keys))
            && next.countRuns.Keys == st.countRuns.Keys + inv.Keys
            && (forall id :: id in next.countRuns ==>
                  && next.countRuns[id].row == (if id in inv then Updated(st.countRuns, inv[id]).row else st.countRuns[id].row)
                  && (Accepted(AdmitRows(st, a), a) ==> (next.countRuns[id].observable <==> id in inv))
                  && (!Accepted(AdmitRows(st, a), a) ==>
                        (next.countRuns[id].observable <==> id in st.countRuns && st.countRuns[id].observable)))
  {
    hide ScanRows;
    hide Merge;
    hide Accepted;
    hide NewestOf;
    hide StaleIn;
    hide Lists;
    ScanComplete(st, rows, inv);
    MergeRuns(st, rows);
  }

  lemma MergeFields(st: State, rows: seq<Row>)
    ensures var a := ScanRows(st, rows, true);
            var next := Merge(st, rows, true);
            var accepted := Accepted(AdmitRows(st, a), a);
            && next.authorityKnown
            && (!a.unordered ==> (next.membershipUnknown <==>
                  !accepted && (st.membershipUnknown || !a.stale || !st.authorityKnown)))
            && (!a.unordered ==> next.membership == if accepted then a.present else st.membership)
            && (a.newestKnown && st.revisionKnown ==> next.revisionKnown)
            && (a.newestKnown && st.revisionKnown ==>
                  next.revision == if a.newest > st.revision then a.newest else st.revision)
            && (a.newestKnown && !st.revisionKnown ==> next.revisionKnown && next.revision == a.newest)
            && next.runRunningCount == |RunningRuns(next.countRuns)| && next.runTotalCount == |next.countRuns|
  {
    hide ScanRows;
    hide Accepted;
    hide CountRunningWorks;
    hide RunningRuns;
  }

  lemma WithheldSnoc(h: seq<Inventory>, ds: seq<Delivery>, d: Delivery)
    requires WfDeliveries(h, ds + [d]) && WfDeliveries(h, ds) && ds != [] && d.index < |h|
    ensures Withheld(h, ds + [d]) ==
            if d.index > Latest(ds) then false else if d.index == Latest(ds) then Withheld(h, ds)
            else Withheld(h, ds) || Ambiguous(h, ds, h[d.index])
    ensures Latest(ds + [d]) == if d.index > Latest(ds) then d.index else Latest(ds)
  {
    assert (ds + [d])[..|ds|] == ds;
  }

  lemma NewestDelivered(h: seq<Inventory>, ds: seq<Delivery>)
    requires WfDeliveries(h, ds) && ds != []
    ensures Latest(ds) < |h| && h[Latest(ds)].Keys <= Delivered(h, ds)
  {
    LatestIsMax(ds);
    var i :| 0 <= i < |ds| && ds[i].index == Latest(ds);
  }

  lemma StepMembership(h: seq<Inventory>, ds: seq<Delivery>, d: Delivery, st: State)
    requires WfHistory(h) && WfDeliveries(h, ds + [d]) && WfDeliveries(h, ds) && ds != [] && Inv(h, ds, st)
    requires d.index < |h| && Lists(d.rows, h[d.index]) && AllKnown(st.countRuns)
    ensures Latest(ds + [d]) < |h| && MembershipExact(h, ds + [d], Merge(st, d.rows, true))
    ensures NewestOf(h[Latest(ds + [d])], Merge(st, d.rows, true).revision)
  {
    hide Merge;
    hide ScanRows;
    hide StaleIn;
    hide Ambiguous;
    hide NewestOf;
    hide Delivered;
    hide IsLatest;
    hide Withheld;
    hide Latest;
    hide Updated;
    hide Lists;
    hide WfHistory;
    hide WfDeliveries;
    hide AllKnown;
    var inv := h[d.index];
    HistoryAt(h, d.index, d.index);
    MergeComplete(st, d.rows, inv);
    MergeFields(st, d.rows);
    StaleExactly(h, ds, st, inv);
    CompareDelivery(h, ds, d.index, st.revision, ScanRows(st, d.rows, true).newest);
    WithheldSnoc(h, ds, d);
    NewestDelivered(h, ds);
  }

  lemma FirstMembership(h: seq<Inventory>, d: Delivery, next: State)
    requires WfDeliveries(h, [d]) && d.index < |h|
    requires !next.membershipUnknown && next.membership == h[d.index].Keys
    requires forall id :: id in next.countRuns ==> (next.countRuns[id].observable <==> id in h[d.index])
    ensures Latest([d]) == d.index && MembershipExact(h, [d], next)
  {}

  lemma First(h: seq<Inventory>, d: Delivery)
    requires WfHistory(h) && WfDeliveries(h, [d])
    ensures Inv(h, [d], Merge(INITIAL, d.rows, true))
  {
    hide Merge;
    hide ScanRows;
    hide MembershipExact;
    hide RunsExact;
    hide Latest;
    hide NewestOf;
    hide WfHistory;
    hide Lists;
    hide RunningRuns;
    assert [] + [d] == [d];
    Snoc(h, [], d);
    var inv, next := h[d.index], Merge(INITIAL, d.rows, true);
    HistoryAt(h, d.index, d.index);
    MergeComplete(INITIAL, d.rows, inv);
    MergeFields(INITIAL, d.rows);
    assert RunsExact(h, [], map[]) by { EmptyExact(h); }
    StepRuns(h, [], d, map[], next.countRuns);
    FirstMembership(h, d, next);
  }

  lemma EmptyExact(h: seq<Inventory>)
    ensures RunsExact(h, [], map[])
  {}

  lemma Step(h: seq<Inventory>, ds: seq<Delivery>, d: Delivery, st: State)
    requires WfHistory(h) && WfDeliveries(h, ds + [d])
    requires WfDeliveries(h, ds) && ds != [] && Inv(h, ds, st)
    ensures Inv(h, ds + [d], Merge(st, d.rows, true))
  {
    hide RunsExact;
    hide MembershipExact;
    hide WfHistory;
    hide WfDeliveries;
    hide Lists;
    hide Delivered;
    hide Updated;
    hide ScanRows;
    hide NewestOf;
    hide StaleIn;
    hide Accepted;
    hide RunningRuns;
    hide Latest;
    hide Merge;
    Snoc(h, ds, d);
    HistoryAt(h, d.index, d.index);
    RowsKnown(h, ds, st.countRuns);
    MergeComplete(st, d.rows, h[d.index]);
    MergeFields(st, d.rows);
    StepRuns(h, ds, d, st.countRuns, Merge(st, d.rows, true).countRuns);
    StepMembership(h, ds, d, st);
  }

  lemma {:induction false} InvAlways(h: seq<Inventory>, ds: seq<Delivery>)
    requires WfHistory(h) && WfDeliveries(h, ds) && ds != []
    ensures Inv(h, ds, After(ds))
  {
    var before, d := ds[..|ds| - 1], ds[|ds| - 1];
    assert ds == before + [d];
    Snoc(h, before, d);
    if before == [] {
      First(h, d);
    } else {
      InvAlways(h, before);
      Step(h, before, d, After(before));
    }
  }

  /**
    Whatever the order and repetition of the deliveries, the published counts are the
    number of nonterminal runs of the newest inventory delivered and the number of runs
    ever delivered, or they are withheld; Withheld says exactly when.
   */
  lemma CountsAreExact(h: seq<Inventory>, ds: seq<Delivery>)
    requires WfHistory(h) && WfDeliveries(h, ds) && ds != []
    ensures Latest(ds) < |h|
    ensures Published(After(ds)) ==
            if Withheld(h, ds) then None else Some((|Nonterminal(h[Latest(ds)])|, |Delivered(h, ds)|))
  {
    InvAlways(h, ds);
    if !Withheld(h, ds) {
      RunningExactly(h, ds, After(ds));
    }
  }

  lemma RunningExactly(h: seq<Inventory>, ds: seq<Delivery>, st: State)
    requires WfHistory(h) && WfDeliveries(h, ds) && ds != [] && Inv(h, ds, st) && !st.membershipUnknown
    ensures RunningRuns(st.countRuns) == Nonterminal(h[Latest(ds)])
    ensures |st.countRuns| == |Delivered(h, ds)|
  {
    hide WfHistory;
    hide WfDeliveries;
    hide IsLatest;
    hide Latest;
    hide Withheld;
    LatestIsMax(ds);
    var i :| 0 <= i < |ds| && ds[i].index == Latest(ds);
    forall id | id in h[Latest(ds)] ensures id in st.countRuns && st.countRuns[id].row == h[Latest(ds)][id] {
      assert id in Delivered(h, ds);
      LatestRow(h, ds, id, st.countRuns[id].row);
    }
    assert |st.countRuns| == |st.countRuns.Keys|;
  }
}
