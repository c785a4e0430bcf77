/**
  The table of per-path locks that adoptions share: an entry is made by the first caller
  of a path, counted by each, and dropped by the last.  OneHolder and EntryWhileReferred
  hold in every interleaving of its critical sections.
 */
module LockTable {
  type Path = string
  type Thread = nat

  datatype Phase = Waiting | Holding | Leaving
  /** What a caller of lock holds: the entry it found or made under its path. */
  datatype Ticket = Ticket(path: Path, entry: nat, phase: Phase)

  /** locks maps a path to its entry; refs and holder are the entry's fields. */
  datatype Table = Table(locks: map<Path, nat>, refs: map<nat, nat>, holder: map<nat, Thread>, made: nat, tickets: map<Thread, Ticket>)

  datatype LockAction = Enter(t: Thread, path: Path) | Acquire(t: Thread) | Unlock(t: Thread) | Leave(t: Thread)

  /** One more caller of an entry. */
  function Joined(s: Table, t: Thread, path: Path): Table
    requires path in s.locks
  {
    var e := s.locks[path];
    s.(refs := s.refs[e := (if e in s.refs then s.refs[e] else 0) + 1], tickets := s.tickets[t := Ticket(path, e, Waiting)])
  }

  /** A new entry with its first caller. */
  function Opened(s: Table, t: Thread, path: Path): Table
  {
    s.(locks := s.locks[path := s.made], refs := s.refs[s.made := 1], made := s.made + 1,
       tickets := s.tickets[t := Ticket(path, s.made, Waiting)])
  }

  /** One atomic section; an action that is not enabled does nothing. */
  function NextTable(s: Table, a: LockAction): Table
  {
    match a
    case Enter(t, path) =>
      if t in s.tickets then s
      else if path in s.locks then Joined(s, t, path) else Opened(s, t, path)
    case Acquire(t) =>
      if t !in s.tickets || s.tickets[t].phase != Waiting || s.tickets[t].entry in s.holder then s
      else s.(holder := s.holder[s.tickets[t].entry := t], tickets := s.tickets[t := s.tickets[t].(phase := Holding)])
    case Unlock(t) =>
      if t !in s.tickets || s.tickets[t].phase != Holding then s
      else s.(holder := s.holder - {s.tickets[t].entry}, tickets := s.tickets[t := s.tickets[t].(phase := Leaving)])
    case Leave(t) =>
      if t !in s.tickets || s.tickets[t].phase != Leaving then s
      else
        var k := s.tickets[t];
        var n := if k.entry in s.refs && s.refs[k.entry] > 0 then s.refs[k.entry] - 1 else 0;
        s.(refs := s.refs[k.entry := n], tickets := s.tickets - {t}, locks := if n == 0 then s.locks - {k.path} else s.locks)
  }

  const NoLocks: Table := Table(map[], map[], map[], 0, map[])

  function RunTable(actions: seq<LockAction>): Table
  {
    if actions == [] then NoLocks else NextTable(RunTable(actions[..|actions| - 1]), actions[|actions| - 1])
  }

  /** The callers that refer to an entry. */
  function Users(s: Table, e: nat): (r: set<Thread>)
    ensures forall t :: t in r <==> t in s.tickets && s.tickets[t].entry == e
  {
    set t | t in s.tickets && s.tickets[t].entry == e
  }

  /** A caller's entry is the one its path maps to, so callers of one path share it. */
  ghost predicate Placed(s: Table)
  {
    forall t :: t in s.tickets ==> s.tickets[t].path in s.locks && s.locks[s.tickets[t].path] == s.tickets[t].entry
  }

  predicate CountedEntry(s: Table, e: nat)
  {
    e in s.refs && s.refs[e] == |Users(s, e)| > 0
  }

  ghost predicate Counted(s: Table)
  {
    forall p :: p in s.locks ==> CountedEntry(s, s.locks[p])
  }

  ghost predicate Unshared(s: Table)
  {
    && (forall p :: p in s.locks ==> s.locks[p] < s.made)
    && (forall p, q :: p in s.locks && q in s.locks && s.locks[p] == s.locks[q] ==> p == q)
  }

  ghost predicate Held(s: Table)
  {
    forall t :: t in s.tickets && s.tickets[t].phase == Holding ==>
      s.tickets[t].entry in s.holder && s.holder[s.tickets[t].entry] == t
  }

  ghost predicate TableInv(s: Table)
  {
    Placed(s) && Counted(s) && Unshared(s) && Held(s)
  }

  lemma CountedAt(s: Table, p: Path)
    requires Counted(s) && p in s.locks
    ensures CountedEntry(s, s.locks[p])
  {}

  /** One caller more or less, everything else about an entry being equal. */
  lemma UsersPlus(s: Table, u: Table, t: Thread, e: nat)
    requires t !in s.tickets && t in u.tickets && u.tickets - {t} == s.tickets
    ensures Users(u, e) == if e == u.tickets[t].entry then Users(s, e) + {t} else Users(s, e)
    ensures |Users(u, e)| == |Users(s, e)| + if e == u.tickets[t].entry then 1 else 0
  {
    forall x | x != t ensures x in u.tickets <==> x in s.tickets { assert x in u.tickets - {t} <==> x in u.tickets; }
    forall x | x in s.tickets ensures u.tickets[x] == s.tickets[x] { assert (u.tickets - {t})[x] == u.tickets[x]; }
    assert Users(u, e) == if e == u.tickets[t].entry then Users(s, e) + {t} else Users(s, e);
  }

  lemma FreshEntry(s: Table)
    requires Placed(s) && Unshared(s)
    ensures Users(s, s.made) == {}
  {
    if t :| t in Users(s, s.made) {
      assert s.locks[s.tickets[t].path] == s.made;
    }
  }

  lemma JoinCounted(s: Table, t: Thread, path: Path, p: Path)
    requires Counted(s) && t !in s.tickets && path in s.locks && p in s.locks
    ensures CountedEntry(Joined(s, t, path), s.locks[p])
  {
    hide Users, Counted;
    var u := Joined(s, t, path);
    assert u.tickets - {t} == s.tickets;
    UsersPlus(s, u, t, s.locks[p]);
    CountedAt(s, p);
  }

  lemma OpenCountsNew(s: Table, t: Thread, path: Path)
    requires Placed(s) && Unshared(s) && t !in s.tickets
    ensures CountedEntry(Opened(s, t, path), s.made)
  {
    hide Users, Placed, Unshared;
    var u := Opened(s, t, path);
    assert u.tickets - {t} == s.tickets;
    FreshEntry(s);
    UsersPlus(s, u, t, s.made);
  }

  lemma OpenCountsOld(s: Table, t: Thread, path: Path, e: nat)
    requires CountedEntry(s, e) && e < s.made && t !in s.tickets
    ensures CountedEntry(Opened(s, t, path), e)
  {
    hide Users;
    var u := Opened(s, t, path);
    assert u.tickets - {t} == s.tickets;
    UsersPlus(s, u, t, e);
  }

  lemma OpenCounted(s: Table, t: Thread, path: Path, p: Path)
    requires TableInv(s) && t !in s.tickets && path !in s.locks && (p in s.locks || p == path)
    ensures var u := Opened(s, t, path); CountedEntry(u, u.locks[p])
  {
    hide Held, Placed, Counted, Unshared, CountedEntry;
    if p == path {
      OpenCountsNew(s, t, path);
    } else {
      CountedAt(s, p);
      Made(s, p);
      OpenCountsOld(s, t, path, s.locks[p]);
    }
  }

  lemma Made(s: Table, p: Path)
    requires Unshared(s) && p in s.locks
    ensures s.locks[p] < s.made
  {}

  lemma EnterPlaced(s: Table, t: Thread, path: Path)
    requires Placed(s)
    ensures Placed(NextTable(s, Enter(t, path)))
  {}

  lemma EnterUnshared(s: Table, t: Thread, path: Path)
    requires Unshared(s)
    ensures Unshared(NextTable(s, Enter(t, path)))
  {}

  lemma EnterHeld(s: Table, t: Thread, path: Path)
    requires Held(s)
    ensures Held(NextTable(s, Enter(t, path)))
  {}

  lemma EnterKeeps(s: Table, t: Thread, path: Path)
    requires TableInv(s)
    ensures TableInv(NextTable(s, Enter(t, path)))
  {
    hide Users, CountedEntry, Placed, Unshared, Held;
    var u := NextTable(s, Enter(t, path));
    EnterPlaced(s, t, path);
    EnterUnshared(s, t, path);
    EnterHeld(s, t, path);
    if t !in s.tickets {
      forall p | p in u.locks ensures CountedEntry(u, u.locks[p]) {
        if path in s.locks { JoinCounted(s, t, path, p); } else { OpenCounted(s, t, path, p); }
      }
    }
  }

  lemma SamePhaseUsers(s: Table, u: Table, t: Thread, phase: Phase, e: nat)
    requires t in s.tickets && u.tickets == s.tickets[t := s.tickets[t].(phase := phase)]
    ensures Users(u, e) == Users(s, e)
  {}

  lemma PhaseKeeps(s: Table, t: Thread, phase: Phase, u: Table)
    requires TableInv(s) && t in s.tickets && u.locks == s.locks && u.refs == s.refs && u.made == s.made
    requires u.tickets == s.tickets[t := s.tickets[t].(phase := phase)]
    ensures Placed(u) && Counted(u) && Unshared(u)
  {
    hide Held, Users, Placed;
    PhasePlaced(s, t, phase, u);
    forall p | p in u.locks ensures CountedEntry(u, u.locks[p]) {
      CountedAt(s, p);
      SamePhaseUsers(s, u, t, phase, u.locks[p]);
    }
  }

  lemma PhasePlaced(s: Table, t: Thread, phase: Phase, u: Table)
    requires Placed(s) && t in s.tickets && u.locks == s.locks && u.tickets == s.tickets[t := s.tickets[t].(phase := phase)]
    ensures Placed(u)
  {}

  lemma AcquireKeeps(s: Table, t: Thread)
    requires TableInv(s)
    ensures TableInv(NextTable(s, Acquire(t)))
  {
    hide Counted, Unshared, Placed;
    var u := NextTable(s, Acquire(t));
    if u != s { PhaseKeeps(s, t, Holding, u); }
  }

  lemma UnlockKeeps(s: Table, t: Thread)
    requires TableInv(s)
    ensures TableInv(NextTable(s, Unlock(t)))
  {
    hide Counted, Unshared, Placed;
    var u := NextTable(s, Unlock(t));
    if u != s { PhaseKeeps(s, t, Leaving, u); }
  }

  predicate Leaves(s: Table, t: Thread)
  {
    t in s.tickets && s.tickets[t].phase == Leaving
  }

  lemma LeaveCounted(s: Table, t: Thread, p: Path)
    requires TableInv(s) && Leaves(s, t) && p in NextTable(s, Leave(t)).locks
    ensures var u := NextTable(s, Leave(t)); CountedEntry(u, u.locks[p])
  {
    hide Users, Held, Counted;
    var u, k := NextTable(s, Leave(t)), s.tickets[t];
    assert u.tickets - {t} == u.tickets == s.tickets - {t};
    CountedAt(s, p);
    CountedAt(s, k.path);
    UsersPlus(u, s, t, s.locks[p]);
    UsersPlus(u, s, t, k.entry);
  }

  /** The last caller's entry goes, and then nobody refers to its path. */
  lemma LeavePlaced(s: Table, t: Thread)
    requires TableInv(s) && Leaves(s, t)
    ensures Placed(NextTable(s, Leave(t)))
  {
    hide Users, Held, Counted, Unshared;
    var u, k := NextTable(s, Leave(t)), s.tickets[t];
    CountedAt(s, k.path);
    UsersPlus(u, s, t, k.entry);
    forall x | x in u.tickets ensures u.tickets[x].path in u.locks && u.locks[u.tickets[x].path] == u.tickets[x].entry {
      assert x in s.tickets && u.tickets[x] == s.tickets[x];
      if u.tickets[x].path == k.path { assert x in Users(u, k.entry); }
    }
  }

  lemma LeaveKeeps(s: Table, t: Thread)
    requires TableInv(s)
    ensures TableInv(NextTable(s, Leave(t)))
  {
    hide Users, CountedEntry, Placed;
    var u := NextTable(s, Leave(t));
    if Leaves(s, t) {
      LeavePlaced(s, t);
      forall p | p in u.locks ensures CountedEntry(u, u.locks[p]) { LeaveCounted(s, t, p); }
    }
  }

  lemma TableStepKeeps(s: Table, a: LockAction)
    requires TableInv(s)
    ensures TableInv(NextTable(s, a))
  {
    hide TableInv, NextTable;
    match a
    case Enter(t, path) => EnterKeeps(s, t, path);
    case Acquire(t) => AcquireKeeps(s, t);
    case Unlock(t) => UnlockKeeps(s, t);
    case Leave(t) => LeaveKeeps(s, t);
  }

  lemma {:induction false} TableRunKeeps(actions: seq<LockAction>)
    ensures TableInv(RunTable(actions))
  {
    if actions != [] {
      TableRunKeeps(actions[..|actions| - 1]);
      TableStepKeeps(RunTable(actions[..|actions| - 1]), actions[|actions| - 1]);
    }
  }

  /** In every interleaving at most one caller holds a path. */
  lemma OneHolder(actions: seq<LockAction>, a: Thread, b: Thread)
    requires var s := RunTable(actions);
             && a in s.tickets && b in s.tickets && s.tickets[a].phase == Holding && s.tickets[b].phase == Holding
             && s.tickets[a].path == s.tickets[b].path
    ensures a == b
  {
    TableRunKeeps(actions);
  }

  /** A path has an entry exactly while a caller refers to it, and the count is the number of such callers. */
  lemma EntryWhileReferred(actions: seq<LockAction>, path: Path)
    ensures var s := RunTable(actions);
            && (path in s.locks <==> exists t :: t in s.tickets && s.tickets[t].path == path)
            && (path in s.locks ==> s.locks[path] in s.refs
                                    && s.refs[s.locks[path]] == |set t | t in s.tickets && s.tickets[t].path == path| > 0)
  {
    TableRunKeeps(actions);
    var s := RunTable(actions);
    if path in s.locks {
      var e := s.locks[path];
      assert CountedEntry(s, e);
      assert Users(s, e) == set t | t in s.tickets && s.tickets[t].path == path;
      assert Users(s, e) != {};
      var t :| t in Users(s, e);
    }
  }

  // What the sections do, for the callers of a path

  /** The caller t holds the path. */
  predicate Holds(s: Table, t: Thread, path: Path)
  {
    t in s.tickets && s.tickets[t].path == path && s.tickets[t].phase == Holding
  }

  ghost predicate HolderHolds(s: Table)
  {
    forall e :: e in s.holder ==> s.holder[e] in s.tickets && s.tickets[s.holder[e]].phase == Holding && s.tickets[s.holder[e]].entry == e
  }

  lemma HolderStep(s: Table, a: LockAction)
    requires HolderHolds(s) && Held(s)
    ensures HolderHolds(NextTable(s, a))
  {}

  lemma {:induction false} RunHolder(actions: seq<LockAction>)
    ensures HolderHolds(RunTable(actions))
  {
    hide NextTable, HolderHolds, Placed, Counted, Unshared;
    if actions == [] {
      NobodyHolds();
    } else {
      RunHolder(actions[..|actions| - 1]);
      TableRunKeeps(actions[..|actions| - 1]);
      HolderStep(RunTable(actions[..|actions| - 1]), actions[|actions| - 1]);
    }
  }

  lemma NobodyHolds()
    ensures HolderHolds(NoLocks)
  {}

  lemma RunOne(actions: seq<LockAction>, a: LockAction)
    ensures RunTable(actions + [a]) == NextTable(RunTable(actions), a)
  {
    assert (actions + [a])[..|actions|] == actions;
  }

  /** Entering makes a caller wait at the entry of its path: the one that is there, with one caller more, or a new one. */
  lemma EnterActs(actions: seq<LockAction>, t: Thread, path: Path)
    requires t !in RunTable(actions).tickets
    ensures var s, u := RunTable(actions), RunTable(actions + [Enter(t, path)]);
            && path in u.locks && u.tickets == s.tickets[t := Ticket(path, u.locks[path], Waiting)] && u.holder == s.holder
            && u.locks == s.locks[path := u.locks[path]] && u.locks[path] in u.refs
            && (path in s.locks ==> u.locks == s.locks && u.locks[path] in s.refs && u.refs == s.refs[u.locks[path] := s.refs[u.locks[path]] + 1])
            && (path !in s.locks ==> u.refs == s.refs[u.locks[path] := 1] && forall p :: p in s.locks ==> s.locks[p] != u.locks[path])
  {
    hide RunTable, Users;
    TableRunKeeps(actions);
    RunOne(actions, Enter(t, path));
    if path in RunTable(actions).locks { CountedAt(RunTable(actions), path); }
  }

  /** A waiting caller acquires its path exactly when no caller holds it. */
  lemma AcquireActs(actions: seq<LockAction>, t: Thread)
    requires t in RunTable(actions).tickets && RunTable(actions).tickets[t].phase == Waiting
    ensures var s, u := RunTable(actions), RunTable(actions + [Acquire(t)]);
            var path := s.tickets[t].path;
            && (Holds(u, t, path) <==> forall x :: x in s.tickets ==> !Holds(s, x, path))
            && u.tickets == s.tickets[t := u.tickets[t]] && u.locks == s.locks && u.refs == s.refs
            && (!Holds(u, t, path) ==> u == s)
  {
    hide RunTable, Users, Counted;
    TableRunKeeps(actions);
    RunHolder(actions);
    RunOne(actions, Acquire(t));
    var s := RunTable(actions);
    var e := s.tickets[t].entry;
    if e in s.holder {
      assert s.locks[s.tickets[s.holder[e]].path] == s.tickets[s.holder[e]].entry;
      assert Holds(s, s.holder[e], s.tickets[t].path);
    }
    if x :| x in s.tickets && Holds(s, x, s.tickets[t].path) {
      assert s.locks[s.tickets[x].path] == e;
    }
  }

  /** A holder that unlocks leaves its path to the next; nobody holds it then. */
  lemma UnlockActs(actions: seq<LockAction>, t: Thread)
    requires t in RunTable(actions).tickets && RunTable(actions).tickets[t].phase == Holding
    ensures var s, u := RunTable(actions), RunTable(actions + [Unlock(t)]);
            && u.tickets == s.tickets[t := s.tickets[t].(phase := Leaving)] && u.locks == s.locks && u.refs == s.refs
            && forall x :: x in u.tickets ==> !Holds(u, x, s.tickets[t].path)
  {
    hide RunTable, Users, Counted;
    TableRunKeeps(actions);
    RunOne(actions, Unlock(t));
    var s := RunTable(actions);
    forall x | x in s.tickets && Holds(s, x, s.tickets[t].path) ensures x == t { OneHolder(actions, x, t); }
  }

  /** A caller that leaves is gone, and with the last one the entry. */
  lemma LeaveActs(actions: seq<LockAction>, t: Thread)
    requires t in RunTable(actions).tickets && RunTable(actions).tickets[t].phase == Leaving
    ensures var s, u := RunTable(actions), RunTable(actions + [Leave(t)]);
            var path := s.tickets[t].path;
            && u.tickets == s.tickets - {t} && u.holder == s.holder
            && (forall p :: p != path ==> (p in u.locks <==> p in s.locks) && (p in s.locks ==> u.locks[p] == s.locks[p]))
            && (path in u.locks <==> exists x :: x in s.tickets && x != t && s.tickets[x].path == path)
            && (path in u.locks ==> u.locks[path] == s.tickets[t].entry)
  {
    hide RunTable, Users, Counted, NextTable;
    TableRunKeeps(actions);
    RunOne(actions, Leave(t));
    EntryWhileReferred(actions + [Leave(t)], RunTable(actions).tickets[t].path);
    LeaveFields(RunTable(actions), t);
    var s, u := RunTable(actions), RunTable(actions + [Leave(t)]);
    var path := s.tickets[t].path;
    assert s.locks[path] == s.tickets[t].entry;
    if x :| x in s.tickets && x != t && s.tickets[x].path == path { assert x in u.tickets && u.tickets[x].path == path; }
    if x :| x in u.tickets && u.tickets[x].path == path { assert x in s.tickets && x != t && s.tickets[x].path == path; }
  }

  lemma LeaveFields(s: Table, t: Thread)
    requires Leaves(s, t)
    ensures var u := NextTable(s, Leave(t));
            && u.tickets == s.tickets - {t} && u.holder == s.holder
            && (u.locks == s.locks || u.locks == s.locks - {s.tickets[t].path})
  {}
}
