/**
  The caches that hold exact count membership, as the source updates them: maps
  walked in an arbitrary order, flags and scalars in place.
 */
module CountCaches {
  import opened Wrappers
  import opened Sums
  import opened DagCounts

  class DagSnapshotCache {
    var countRuns: map<Id, Run>
    var runningCount: nat
    var runRunningCount: nat
    var runTotalCount: nat
    var countAuthorityKnown: bool
    var runMembershipUnknown: bool
    var runMembership: set<Id>
    var runRevision: int
    var runRevisionKnown: bool

    ghost function Contents(): State
      reads this
    {
      State(countRuns, runningCount, runRunningCount, runTotalCount, countAuthorityKnown, runMembershipUnknown,
            runMembership, runRevisionKnown, runRevision)
    }

    constructor ()
      ensures Contents() == INITIAL
    {
      countRuns, runMembership := map[], {};
      runningCount, runRunningCount, runTotalCount := 0, 0, 0;
      countAuthorityKnown, runMembershipUnknown, runRevisionKnown, runRevision := false, false, false, 0;
    }

    method FinishCountAuthority()
      modifies this
      ensures Contents() == Finish(old(Contents()))
      ensures countAuthorityKnown && runTotalCount == |countRuns|
      ensures runRunningCount == |set id | id in countRuns && countRuns[id].observable && !countRuns[id].row.terminal|
    {
      countAuthorityKnown := true;
      runningCount, runRunningCount, runTotalCount := Tally(countRuns);
    }

    /** Compares one row of a delivery with its recorded run and admits it if it is newer. */
    method ScanNext(a: Scan, next: Row, complete: bool) returns (b: Scan)
      requires a.runs == countRuns
      modifies `countRuns
      ensures b == ScanRow(a, next, complete, old(Contents())) && countRuns == b.runs
    {
      var present, observations, stale, unordered := a.present + {next.id}, a.observations, a.stale, a.unordered;
      var newest, newestKnown := a.newest, a.newestKnown;
      if next.known && (!newestKnown || next.millis > newest) {
        newest, newestKnown := next.millis, true;
      }
      var current := if next.id in countRuns then Some(countRuns[next.id]) else None;
      if current.Some? {
        if !current.value.row.known || !next.known {
          unordered := true;
        } else if next.millis < current.value.row.millis {
          stale := true;
        }
      }
      var observable := current.Some? && current.value.observable;
      if !complete && !observable {
        if current.None? || (next.known && runRevisionKnown && next.millis > runRevision) {
          observations := observations + {next.id};
        } else if !current.value.row.known || !next.known || next.millis >= current.value.row.millis {
          unordered := true;
        }
      }
      if !(current.Some? && current.value.row.known && (!next.known || next.millis <= current.value.row.millis)) {
        countRuns := countRuns[next.id := Run(next, true, observable)];
      }
      b := Scan(countRuns, present, observations, stale, unordered, newestKnown, newest);
    }

    method ScanIncoming(incoming: seq<Row>, complete: bool) returns (a: Scan)
      modifies `countRuns
      ensures a == ScanRows(old(Contents()), incoming, complete) && countRuns == a.runs
    {
      hide ScanRow;
      ghost var st := Contents();
      a := Scan(countRuns, {}, {}, false, false, false, 0);
      for i := 0 to |incoming|
        invariant a == ScanRows(st, incoming[..i], complete) && countRuns == a.runs
      {
        assert incoming[..i + 1][..i] == incoming[..i];
        ScanSameClock(a, incoming[i], complete, Contents(), st);
        a := ScanNext(a, incoming[i], complete);
      }
      assert incoming[..|incoming|] == incoming;
    }

    /** What a complete inventory says about every recorded run. */
    method ApplyComplete(present: set<Id>, accepted: bool)
      modifies `countRuns
      ensures countRuns == map id | id in old(countRuns) :: Retained(old(countRuns)[id], id in present, accepted)
    {
      var todo := countRuns.Keys;
      while todo != {}
        invariant todo <= countRuns.Keys == old(countRuns).Keys
        invariant forall id :: id in countRuns ==>
                    countRuns[id] == if id in todo then old(countRuns)[id]
                                     else Retained(old(countRuns)[id], id in present, accepted)
        decreases todo
      {
        var id :| id in todo;
        var current := countRuns[id];
        if accepted {
          current := current.(observable := id in present);
        }
        if id !in present {
          current := current.(present := false);
        }
        countRuns := countRuns[id := current];
        todo := todo - {id};
      }
    }

    /** Runs that a partial delivery observes again. */
    method ApplyObservations(observations: set<Id>)
      requires observations <= countRuns.Keys
      modifies `countRuns
      ensures countRuns == map id | id in old(countRuns) :: Observed(old(countRuns)[id], id in observations)
    {
      var todo := observations;
      while todo != {}
        invariant todo <= observations <= countRuns.Keys == old(countRuns).Keys
        invariant forall id :: id in countRuns ==>
                    countRuns[id] == Observed(old(countRuns)[id], id in observations && id !in todo)
        decreases todo
      {
        var id :| id in todo;
        countRuns := countRuns[id := countRuns[id].(observable := true)];
        todo := todo - {id};
      }
    }

    /** Decides whether a complete inventory establishes membership, and applies it. */
    method MergeMembership(a: Scan)
      requires a.runs == countRuns
      modifies this
      ensures Contents() == AdmitComplete(old(Contents()), a)
    {
      var sameMembership := |a.present| == |runMembership| && forall id :: id in a.present ==> id in runMembership;
      SameSet(a.present, runMembership);
      var newer := a.newestKnown && (!runRevisionKnown || a.newest > runRevision);
      var steady := !runMembershipUnknown && sameMembership &&
                    ((a.newestKnown && runRevisionKnown && a.newest == runRevision) || (!a.newestKnown && |countRuns| == 0));
      var initialCompletion := !countAuthorityKnown && !runMembershipUnknown && a.newestKnown &&
                               |a.present| == |countRuns| && (!runRevisionKnown || a.newest >= runRevision);
      var accepted := !a.stale && !a.unordered && (newer || steady || initialCompletion);
      assert accepted == Accepted(old(Contents()), a);
      if accepted {
        runMembershipUnknown, runMembership := false, a.present;
      } else if !a.stale || !countAuthorityKnown {
        runMembershipUnknown := true;
      }
      ApplyComplete(a.present, accepted);
      countAuthorityKnown := true;
    }

    /** The rows and, for a complete inventory, the membership. */
    method Admit(incoming: seq<Row>, complete: bool) returns (a: Scan)
      modifies this
      ensures a == ScanRows(old(Contents()), incoming, complete)
      ensures var st := AdmitRows(old(Contents()), a);
              Contents() == if complete then AdmitComplete(st, a) else AdmitPartial(st, a)
    {
      hide ScanRows, Accepted, AdmitComplete;
      a := ScanIncoming(incoming, complete);
      if a.unordered && !a.stale {
        runMembershipUnknown := true;
      }
      assert Contents() == AdmitRows(old(Contents()), a);
      if complete {
        MergeMembership(a);
      } else if !a.unordered {
        ObservationsRecorded(old(Contents()), incoming, complete);
        ApplyObservations(a.observations);
      }
    }

    method MergeCountAuthority(incoming: seq<Row>, complete: bool)
      modifies this
      ensures Contents() == Merge(old(Contents()), incoming, complete)
    {
      hide ScanRows, AdmitRows, AdmitComplete, AdmitPartial, Finish;
      var a := Admit(incoming, complete);
      if a.newestKnown && (!runRevisionKnown || a.newest > runRevision) {
        runRevision, runRevisionKnown := a.newest, true;
      }
      if countAuthorityKnown {
        FinishCountAuthority();
      }
    }

    /** The run counts of the session digest; None while they are unavailable. */
    method PublishRunCounts() returns (counts: Option<(nat, nat)>)
      ensures counts == Published(Contents())
      ensures counts == if countAuthorityKnown && !runMembershipUnknown then Some((runRunningCount, runTotalCount)) else None
    {
      counts := None;
      if countAuthorityKnown && !runMembershipUnknown {
        counts := Some((runRunningCount, runTotalCount));
      }
    }
  }

  /** Scanning a row looks at the clock of the delivery's start only. */
  lemma ScanSameClock(a: Scan, row: Row, complete: bool, s: State, t: State)
    requires s.revisionKnown == t.revisionKnown && s.revision == t.revision
    ensures ScanRow(a, row, complete, s) == ScanRow(a, row, complete, t)
  {}

  lemma {:induction false} ObservationsRecorded(st: State, rows: seq<Row>, complete: bool)
    ensures ScanRows(st, rows, complete).observations <= ScanRows(st, rows, complete).runs.Keys
  {
    if rows != [] {
      ObservationsRecorded(st, rows[..|rows| - 1], complete);
    }
  }

  lemma SameSet(a: set<Id>, b: set<Id>)
    ensures |a| == |b| && (forall id :: id in a ==> id in b) <==> a == b
  {
    if |a| == |b| && a <= b {
      assert b == (b - a) + a;
      assert |b - a| == 0;
    }
  }

  lemma VisitRun(runs: map<Id, Run>, todo: set<Id>, id: Id)
    requires id in todo && todo <= runs.Keys
    ensures |RunningRuns(runs) * todo| ==
            |RunningRuns(runs) * (todo - {id})| + if runs[id].observable && !runs[id].row.terminal then 1 else 0
    ensures Sum(todo, WorksOf(runs)) == Sum(todo - {id}, WorksOf(runs)) + RunningWorks(runs[id])
  {
    CountRemove(RunningRuns(runs), todo, id);
    SumRemove(todo, id, WorksOf(runs));
  }

  /** Counts over the recorded runs, visited in any order. */
  method Tally(runs: map<Id, Run>) returns (works: nat, running: nat, total: nat)
    ensures works == CountRunningWorks(runs) && running == |RunningRuns(runs)| && total == |runs|
  {
    hide RunningRuns;
    hide WorksOf;
    works, running, total := 0, 0, 0;
    var todo := runs.Keys;
    AllToDo(runs);
    while todo != {}
      invariant todo <= runs.Keys
      invariant total + |todo| == |runs|
      invariant running + |RunningRuns(runs) * todo| == |RunningRuns(runs)|
      invariant works + Sum(todo, WorksOf(runs)) == CountRunningWorks(runs)
      decreases todo
    {
      var id :| id in todo;
      VisitRun(runs, todo, id);
      total := total + 1;
      if runs[id].observable && !runs[id].row.terminal {
        running := running + 1;
      }
      if runs[id].present {
        var n := CountRunning(runs[id].row.works);
        works := works + n;
      }
      todo := todo - {id};
    }
    assert RunningRuns(runs) * todo == {};
  }

  lemma AllToDo(runs: map<Id, Run>)
    ensures RunningRuns(runs) * runs.Keys == RunningRuns(runs) && |runs.Keys| == |runs|
  {}

  method CountRunning(works: seq<Work>) returns (n: nat)
    ensures n == RunningIn(works)
  {
    n := 0;
    for i := 0 to |works|
      invariant n == RunningIn(works[..i])
    {
      assert works[..i + 1][..i] == works[..i];
      if works[i].running {
        n := n + 1;
      }
    }
    assert works[..|works|] == works;
  }
}
