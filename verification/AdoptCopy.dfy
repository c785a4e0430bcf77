/**
  Adopting a session file: stage a copy, publish it under the session's name, verify it,
  and otherwise undo everything.  Any file-system step may fail; Directory.fails decides
  which.  Adopt states what the directory holds after success, after an error with a clean
  cleanup, and after an error whose cleanup failed too.
 */
module AdoptCopy {
  import opened Wrappers

  type Name = string
  type Bytes = seq<byte>
  type Names = map<Name, Bytes>

  datatype Outcome = Done | Missing | Taken | Failed

  datatype AdoptError = InvalidSource | TooLarge | HashMismatch | Collision | Io

  /** One directory.  A step that fails changes nothing, except a write, which may stop anywhere. */
  class Directory {
    var names: Names
    var step: nat
    const fails: nat -> bool

    constructor (names: Names, fails: nat -> bool)
      ensures this.names == names && this.fails == fails && step == 0
    {
      this.names, this.fails, step := names, fails, 0;
    }

    /** No step fails. */
    ghost predicate Reliable()
    {
      forall n :: !fails(n)
    }

    /** No step failed between two counts of steps. */
    ghost predicate Flawless(from: nat, to: nat)
    {
      from <= to && forall n :: from <= n < to ==> !fails(n)
    }

    method Try() returns (ok: bool)
      modifies this`step
      ensures ok == !fails(old(step)) && step == old(step) + 1
    {
      ok := !fails(step);
      step := step + 1;
    }

    method Lstat(name: Name) returns (r: Outcome)
      modifies this`step
      ensures r == Done ==> name in names
      ensures r == Missing ==> name !in names
      ensures r != Taken && (Reliable() ==> r != Failed)
      ensures step == old(step) + 1 && (r != Failed ==> !fails(old(step)))
    {
      var ok := Try();
      r := if !ok then Failed else if name in names then Done else Missing;
    }

    method Remove(name: Name) returns (r: Outcome)
      modifies this
      ensures r == Done || r == Missing ==> names == old(names) - {name} && (r == Done <==> name in old(names))
      ensures r == Failed ==> names == old(names)
      ensures r != Taken && (Reliable() ==> r != Failed)
      ensures step == old(step) + 1 && (r != Failed ==> !fails(old(step)))
    {
      var ok := Try();
      if !ok {
        return Failed;
      }
      r := if name in names then Done else Missing;
      names := names - {name};
    }

    method Rename(from: Name, to: Name) returns (ok: bool)
      modifies this
      ensures ok ==> from in old(names) && names == (old(names) - {from})[to := old(names)[from]]
      ensures !ok ==> names == old(names)
      ensures Reliable() && from in old(names) ==> ok
      ensures step == old(step) + 1 && (ok ==> !fails(old(step)))
    {
      ok := Try();
      ok := ok && from in names;
      if ok {
        names := (names - {from})[to := names[from]];
      }
    }

    /** A hard link never replaces a name. */
    method Link(from: Name, to: Name) returns (r: Outcome)
      modifies this
      ensures r == Done ==> from in old(names) && to !in old(names) && names == old(names)[to := old(names)[from]]
      ensures r != Done ==> names == old(names)
      ensures r == Taken ==> to in names
      ensures Reliable() && from in old(names) ==> r == if to in old(names) then Taken else Done
    {
      var ok := Try();
      if !ok || from !in names {
        return Failed;
      }
      if to in names {
        return Taken;
      }
      names := names[to := names[from]];
      r := Done;
    }

    /** An exclusive creation, empty. */
    method Create(name: Name) returns (r: Outcome)
      modifies this
      ensures r == Done ==> name !in old(names) && names == old(names)[name := []]
      ensures r != Done ==> names == old(names)
      ensures r == Taken ==> name in names
      ensures Reliable() ==> r == if name in old(names) then Taken else Done
    {
      var ok := Try();
      if !ok {
        return Failed;
      }
      if name in names {
        return Taken;
      }
      names := names[name := []];
      r := Done;
    }

    method Write(name: Name, content: Bytes, partial: nat) returns (ok: bool)
      requires name in names
      modifies this
      ensures name in names && names == old(names)[name := names[name]]
      ensures ok ==> names[name] == content
      ensures step == old(step) + 1 && (ok <==> !fails(old(step)))
    {
      ok := Try();
      names := names[name := if ok || partial > |content| then content else content[..partial]];
    }

    method Read(name: Name) returns (r: Option<Bytes>)
      modifies this`step
      ensures r.Some? ==> name in names && r.value == names[name]
      ensures Reliable() && name in names ==> r.Some?
      ensures step == old(step) + 1 && (r.Some? ==> !fails(old(step)))
    {
      var ok := Try();
      r := if ok && name in names then Some(names[name]) else None;
    }

    /** The first of a hundred candidate names that is free. */
    method CreateUnique(candidates: seq<Name>) returns (r: Option<Name>)
      modifies this
      ensures r.Some? ==> r.value in candidates && r.value !in old(names) && names == old(names)[r.value := []]
      ensures r.None? ==> names == old(names)
      ensures Reliable() && r.None? ==> forall c :: c in candidates ==> c in old(names)
    {
      for i := 0 to |candidates|
        invariant names == old(names) && forall k :: 0 <= k < i ==> candidates[k] in names
      {
        var made := Create(candidates[i]);
        if made == Done { return Some(candidates[i]); }
        if made != Taken { return None; }
      }
      r := None;
    }

    method LinkUnique(from: Name, candidates: seq<Name>) returns (r: Option<Name>)
      modifies this
      ensures r.Some? ==> r.value in candidates && from in old(names) && r.value !in old(names)
                          && names == old(names)[r.value := old(names)[from]]
      ensures r.None? ==> names == old(names)
      ensures Reliable() && from in old(names) && r.None? ==> forall c :: c in candidates ==> c in old(names)
    {
      for i := 0 to |candidates|
        invariant names == old(names) && forall k :: 0 <= k < i ==> candidates[k] in names
      {
        var made := Link(from, candidates[i]);
        if made == Done { return Some(candidates[i]); }
        if made != Taken { return None; }
      }
      r := None;
    }
  }

  // What cleanup can rely on

  /** The names an adoption still answers for, and whether dest is its own copy. */
  datatype Debt = Debt(staging: Option<Name>, rollback: Option<Name>, published: bool)

  function Own(d: Debt): set<Name>
  {
    (if d.staging.Some? then {d.staging.value} else {}) + (if d.rollback.Some? then {d.rollback.value} else {})
  }

  /** The directory is base, but for a staging file, a rollback link, and a published copy. */
  predicate Owes(base: Names, names: Names, dest: Name, d: Debt)
  {
    && Own(d) !! base.Keys && dest !in Own(d) && (d.staging.Some? ==> d.staging != d.rollback)
    && names - Own(d) - {dest} == base - {dest}
    && (!d.published ==> names - Own(d) == base)
    && (d.published && d.rollback.None? ==> dest !in base)
    && (d.published && d.rollback.Some? ==>
          dest in base && d.rollback.value in names && names[d.rollback.value] == base[dest])
  }

  /** Prior content of dest is still there, under dest or under the rollback name. */
  predicate PriorKept(base: Names, names: Names, dest: Name, d: Debt)
  {
    dest in base ==>
      || (dest in names && names[dest] == base[dest])
      || (d.rollback.Some? && d.rollback.value in names && names[d.rollback.value] == base[dest])
  }

  /** Nothing but the adoption's own names differs. */
  predicate Contained(base: Names, names: Names, dest: Name, d: Debt)
  {
    names - Own(d) - {dest} == base - {dest} && PriorKept(base, names, dest, d)
  }

  lemma OwesContained(base: Names, names: Names, dest: Name, d: Debt)
    requires Owes(base, names, dest, d)
    ensures Contained(base, names, dest, d)
  {
    if dest in base && !d.published {
      assert dest in names - Own(d);
    }
  }

  lemma Unstaged(base: Names, names: Names, dest: Name, d: Debt)
    requires Owes(base, names, dest, d) && d.staging.Some?
    ensures Owes(base, names - {d.staging.value}, dest, d.(staging := None))
    ensures Owes(base, names - {d.staging.value}, dest, d)
  {
    var s, less := d.staging.value, d.(staging := None);
    assert Own(d) == Own(less) + {s};
    assert names - {s} - Own(less) == names - Own(d);
    assert names - {s} - Own(d) == names - Own(d);
  }

  lemma RolledBack(base: Names, names: Names, dest: Name, d: Debt)
    requires Owes(base, names, dest, d) && d.staging.None? && d.rollback.Some? && d.published
    ensures (names - {d.rollback.value})[dest := names[d.rollback.value]] == base
  {
    var r := d.rollback.value;
    assert Own(d) == {r};
    var after := (names - {r})[dest := names[r]];
    assert after - {dest} == names - {r} - {dest};
    SplitOff(after, base, dest);
  }

  lemma SplitOff(a: Names, b: Names, dest: Name)
    requires a - {dest} == b - {dest} && dest in a && dest in b && a[dest] == b[dest]
    ensures a == b
  {
    assert a == (a - {dest})[dest := a[dest]];
    assert b == (b - {dest})[dest := b[dest]];
  }

  lemma Withdrawn(base: Names, names: Names, dest: Name, d: Debt)
    requires Owes(base, names, dest, d) && d.staging.None? && d.rollback.None? && d.published
    ensures names - {dest} == base
  {
    assert Own(d) == {} && names - {} == names;
    assert base - {dest} == base;
  }

  lemma Unlinked(base: Names, names: Names, dest: Name, d: Debt)
    requires Owes(base, names, dest, d) && d.staging.None? && !d.published
    ensures d.rollback.Some? ==> names - {d.rollback.value} == base
    ensures d.rollback.None? ==> names == base
  {
    if d.rollback.Some? {
      assert Own(d) == {d.rollback.value};
    } else {
      assert Own(d) == {} && names - {} == names;
    }
  }

  /** Whatever fails, only the adoption's own names can differ; a clean cleanup restores base. */
  method Cleanup(dir: Directory, dest: Name, d: Debt, ghost base: Names) returns (clean: bool)
    requires Owes(base, dir.names, dest, d)
    modifies dir
    ensures clean ==> dir.names == base
    ensures Contained(base, dir.names, dest, d)
    ensures dir.Reliable() ==> clean
    ensures clean ==> dir.Flawless(old(dir.step), dir.step)
  {
    clean := true;
    ghost var less := d;
    OwesContained(base, dir.names, dest, d);
    if d.staging.Some? {
      Unstaged(base, dir.names, dest, d);
      var removed := dir.Remove(d.staging.value);
      if removed == Failed {
        clean := false;
      } else {
        less := d.(staging := None);
      }
      OwesContained(base, dir.names, dest, d);
    }
    assert Owes(base, dir.names, dest, less);
    var settled := Settle(dir, dest, d, less, base);
    clean := clean && settled;
  }

  /** The published copy or the unused rollback link. */
  method Settle(dir: Directory, dest: Name, d: Debt, ghost less: Debt, ghost base: Names) returns (settled: bool)
    requires Owes(base, dir.names, dest, less) && Contained(base, dir.names, dest, d)
    requires less == d || less == d.(staging := None)
    modifies dir
    ensures settled && less.staging.None? ==> dir.names == base
    ensures Contained(base, dir.names, dest, d)
    ensures dir.Reliable() ==> settled
    ensures settled ==> dir.Flawless(old(dir.step), dir.step)
  {
    hide Owes;
    ghost var before := dir.names;
    settled := true;
    if d.published {
      if d.rollback.Some? {
        Renamable(base, before, dest, less);
        if less.staging.None? { RolledBack(base, before, dest, less); }
        settled := dir.Rename(d.rollback.value, dest);
        if settled { ContainedRestored(base, before, dir.names, dest, d); }
      } else {
        Absent(base, before, dest, less);
        if less.staging.None? { Withdrawn(base, before, dest, less); }
        var removed := dir.Remove(dest);
        settled := removed != Failed;
        if settled { ContainedRemoved(base, before, dest, d); }
      }
      var synced := dir.Try();
      settled := settled && synced;
    } else if d.rollback.Some? {
      if less.staging.None? { Unlinked(base, before, dest, less); }
      DestKept(base, before, dest, less);
      var removed := dir.Remove(d.rollback.value);
      settled := removed != Failed;
      if settled { ContainedUnlinked(base, before, dest, d); }
    } else if less.staging.None? {
      Unlinked(base, before, dest, less);
    }
  }

  lemma Renamable(base: Names, names: Names, dest: Name, d: Debt)
    requires Owes(base, names, dest, d) && d.rollback.Some? && d.published
    ensures dest in base && d.rollback.value in names && names[d.rollback.value] == base[dest] && d.rollback.value != dest
  {}

  lemma Absent(base: Names, names: Names, dest: Name, d: Debt)
    requires Owes(base, names, dest, d) && d.rollback.None? && d.published
    ensures dest !in base
  {}

  lemma DestKept(base: Names, names: Names, dest: Name, d: Debt)
    requires Owes(base, names, dest, d) && !d.published
    ensures dest in base ==> dest in names && names[dest] == base[dest]
    ensures d.rollback.Some? ==> d.rollback.value != dest
  {
    assert dest in base ==> dest in names - Own(d);
  }

  lemma ContainedRestored(base: Names, before: Names, names: Names, dest: Name, d: Debt)
    requires Contained(base, before, dest, d) && d.rollback.Some? && dest in base && d.rollback.value in before
    requires before[d.rollback.value] == base[dest] && names == (before - {d.rollback.value})[dest := before[d.rollback.value]]
    ensures Contained(base, names, dest, d)
  {
    assert names - Own(d) - {dest} == before - Own(d) - {dest};
  }

  lemma ContainedRemoved(base: Names, before: Names, dest: Name, d: Debt)
    requires Contained(base, before, dest, d) && dest !in base
    ensures Contained(base, before - {dest}, dest, d)
  {
    assert before - {dest} - Own(d) - {dest} == before - Own(d) - {dest};
  }

  lemma ContainedUnlinked(base: Names, before: Names, dest: Name, d: Debt)
    requires Contained(base, before, dest, d) && d.rollback.Some? && d.rollback.value != dest
    requires dest in base ==> dest in before && before[dest] == base[dest]
    ensures Contained(base, before - {d.rollback.value}, dest, d)
  {
    assert before - {d.rollback.value} - Own(d) - {dest} == before - Own(d) - {dest};
  }

  // Each step of an adoption and what is owed after it

  lemma Staged(base: Names, tmp: Name, x: Bytes, dest: Name)
    requires tmp !in base && tmp != dest
    ensures Owes(base, base[tmp := x], dest, Debt(Some(tmp), None, false))
  {
    var d := Debt(Some(tmp), None, false);
    assert Own(d) == {tmp};
    assert base[tmp := x] - Own(d) == base;
  }

  lemma Intruded(base: Names, tmp: Name, x: Bytes, dest: Name, y: Bytes)
    requires tmp !in base && tmp != dest
    ensures base[tmp := x][dest := y] == base[dest := y][tmp := x] && tmp !in base[dest := y]
  {}

  lemma Linked(base: Names, tmp: Name, x: Bytes, dest: Name, r: Name)
    requires tmp !in base && tmp != dest && dest in base && r !in base[tmp := x]
    ensures Owes(base, base[tmp := x][r := base[dest]], dest, Debt(Some(tmp), Some(r), false))
  {
    var d := Debt(Some(tmp), Some(r), false);
    assert Own(d) == {tmp, r};
    assert base[tmp := x][r := base[dest]] - Own(d) == base;
  }

  /** The directory once the copy x is published and nothing is staged. */
  function PublishedNames(base: Names, dest: Name, x: Bytes, rollback: Option<Name>): Names
  {
    var published := base[dest := x];
    if rollback.Some? && dest in base then published[rollback.value := base[dest]] else published
  }

  lemma Published(base: Names, dest: Name, x: Bytes, rollback: Option<Name>)
    requires rollback.Some? ==> rollback.value !in base && rollback.value != dest
    requires rollback.Some? <==> dest in base
    ensures Owes(base, PublishedNames(base, dest, x, rollback), dest, Debt(None, rollback, true))
  {
    var d, names := Debt(None, rollback, true), PublishedNames(base, dest, x, rollback);
    assert Own(d) == if rollback.Some? then {rollback.value} else {};
    assert names - Own(d) - {dest} == base - {dest};
  }

  lemma Replaced(base: Names, tmp: Name, x: Bytes, dest: Name, rollback: Option<Name>)
    requires tmp !in base && tmp != dest && (rollback.Some? <==> dest in base)
    requires rollback.Some? ==> rollback.value !in base[tmp := x] && rollback.value != dest
    ensures var names := if rollback.Some? then base[tmp := x][rollback.value := base[dest]] else base[tmp := x];
            tmp in names && (names - {tmp})[dest := names[tmp]] == PublishedNames(base, dest, x, rollback)
  {}

  lemma LinkedOut(base: Names, tmp: Name, x: Bytes, dest: Name)
    requires tmp !in base && tmp != dest && dest !in base
    ensures var names := base[tmp := x][dest := x];
            && Owes(base, names, dest, Debt(Some(tmp), None, true))
            && names - {tmp} == PublishedNames(base, dest, x, None)
  {
    var d, names := Debt(Some(tmp), None, true), base[tmp := x][dest := x];
    assert Own(d) == {tmp};
    assert names - Own(d) - {dest} == base - {dest};
  }

  // The adoption

  class Source {
    var at: nat
    const contentAt: nat -> Option<Bytes>

    constructor (contentAt: nat -> Option<Bytes>)
      ensures this.contentAt == contentAt && at == 0
    {
      this.contentAt, at := contentAt, 0;
    }

    /** The file may change or fail between reads. */
    method Read() returns (r: Option<Bytes>)
      modifies this
      ensures r == contentAt(old(at)) && at == old(at) + 1
    {
      r := contentAt(at);
      at := at + 1;
    }
  }

  /**
    What other processes write to dest: intruder before the inspection that precedes
    publication, late directly before the rename.
   */
  datatype Request = Request(dest: Name, expected: string, limit: nat, replace: bool, sameFile: bool, partial: nat,
                             intruder: Option<Bytes>, late: Option<Bytes>, stagingNames: seq<Name>, rollbackNames: seq<Name>)

  datatype Adopted = Adopted(content: Bytes, created: bool)

  /** The bytes were the source's at the first of the two reads, and for a new copy at the last too. */
  ghost predicate FromSource(src: Source, a: Adopted, first: nat, last: nat)
    reads src
  {
    && first <= last < src.at && src.contentAt(first) == Some(a.content)
    && (a.created ==> first < last && src.contentAt(last) == Some(a.content))
  }

  /** Another session's header is refused with the error that the caller reports for it. */
  method ValidateSource(src: Source, q: Request, session: Bytes -> Option<string>, other: AdoptError) returns (e: Option<AdoptError>)
    modifies src
    ensures src.at == old(src.at) + 1
    ensures e.None? <==> var c := src.contentAt(old(src.at)); c.Some? && |c.value| <= q.limit && session(c.value) == Some(q.expected)
    ensures e.Some? ==> var c := src.contentAt(old(src.at));
              e.value == if c.None? then Io else if |c.value| > q.limit then TooLarge
                         else if session(c.value).None? then InvalidSource else other
  {
    var c := src.Read();
    if c.None? {
      return Some(Io);
    }
    if |c.value| > q.limit {
      return Some(TooLarge);
    }
    if session(c.value).None? {
      return Some(InvalidSource);
    }
    e := if session(c.value).value == q.expected then None else Some(other);
  }

  method VerifyExisting(dir: Directory, q: Request, content: Bytes) returns (r: Result<Adopted, AdoptError>)
    modifies dir`step
    ensures r.Ok? ==> r.value == Adopted(content, false) && q.dest in dir.names && dir.names[q.dest] == content
    ensures r.Ok? || r == Err(Collision)
    ensures r.Ok? ==> |content| <= q.limit && !q.sameFile
    ensures dir.Reliable() && q.dest in dir.names && dir.names[q.dest] == content && |content| <= q.limit && !q.sameFile ==> r.Ok?
  {
    var existing := dir.Read(q.dest);
    if existing.None? || |existing.value| > q.limit || q.sameFile || existing.value != content {
      return Err(Collision);
    }
    r := Ok(Adopted(content, false));
  }

  /** Fill and check the staging file. */
  method Stage(dir: Directory, src: Source, q: Request, tmp: Name, content: Bytes, ghost base: Names) returns (e: Option<AdoptError>)
    requires tmp !in base && tmp != q.dest && dir.names == base[tmp := []]
    modifies dir, src
    ensures tmp in dir.names && dir.names == base[tmp := dir.names[tmp]] && src.at == old(src.at) + 1
    ensures e.None? ==> dir.names[tmp] == content && |content| <= q.limit
    ensures dir.Reliable() && src.contentAt(old(src.at)) == Some(content) && |content| <= q.limit ==> e.None?
    ensures e.None? ==> dir.Flawless(old(dir.step), dir.step)
  {
    var copy := src.Read();
    if copy.None? {
      return Some(Io);
    }
    var written := dir.Write(tmp, copy.value, q.partial);
    if !written {
      return Some(Io);
    }
    if |copy.value| > q.limit {
      return Some(TooLarge);
    }
    var synced := dir.Try();
    var closed := dir.Try();
    if !synced || !closed {
      return Some(Io);
    }
    var stable := dir.Try();
    e := if copy.value != content || !stable then Some(HashMismatch) else None;
  }

  lemma LateWritten(base: Names, names: Names, dest: Name, d: Debt, y: Bytes)
    requires Owes(base, names, dest, d) && !d.published
    ensures Owes(base[dest := y], names[dest := y], dest, d)
  {
    assert names[dest := y] - Own(d) == base[dest := y];
  }

  lemma LateOverwritten(names: Names, tmp: Name, dest: Name, y: Bytes)
    requires tmp in names && tmp != dest
    ensures tmp in names[dest := y] && (names[dest := y] - {tmp})[dest := names[dest := y][tmp]] == (names - {tmp})[dest := names[tmp]]
  {}

  /**
    Publish by rename over dest, keeping what was there under a rollback name.  What is
    written directly before the rename is part of the base if the rename fails, and is
    overwritten if it succeeds.
   */
  method Replace(dir: Directory, q: Request, tmp: Name, x: Bytes, ghost base: Names)
    returns (ok: bool, d: Debt, ghost late: bool)
    requires tmp !in base && tmp != q.dest && dir.names == base[tmp := x] && q.dest !in q.rollbackNames
    modifies dir
    ensures late ==> q.late.Some?
    ensures ok ==> (late <==> q.late.Some?)
    ensures Owes(if late && !ok then base[q.dest := q.late.value] else base, dir.names, q.dest, d)
    ensures ok ==> d.staging.None? && d.published && dir.names == PublishedNames(base, q.dest, x, d.rollback)
    ensures ok ==> (d.rollback.Some? <==> q.dest in base)
    ensures dir.Reliable() && (q.dest in base ==> FreeName(q.rollbackNames, base.Keys + {tmp})) ==> ok
  {
    hide Owes;
    Staged(base, tmp, x, q.dest);
    d, late := Debt(Some(tmp), None, false), false;
    var present := dir.Lstat(q.dest);
    if present == Failed {
      return false, d, false;
    }
    if present == Done {
      var link := dir.LinkUnique(q.dest, q.rollbackNames);
      if link.None? {
        return false, d, false;
      }
      Linked(base, tmp, x, q.dest, link.value);
      d := d.(rollback := link);
    }
    Replaced(base, tmp, x, q.dest, d.rollback);
    if q.late.Some? {
      LateWritten(base, dir.names, q.dest, d, q.late.value);
      LateOverwritten(dir.names, tmp, q.dest, q.late.value);
      dir.names, late := dir.names[q.dest := q.late.value], true;
    }
    ok := dir.Rename(tmp, q.dest);
    if ok {
      Published(base, q.dest, x, d.rollback);
      d := Debt(None, d.rollback, true);
    }
  }

  /** Publish by a link, which cannot replace anything; taken tells that dest was there. */
  method LinkOut(dir: Directory, q: Request, tmp: Name, x: Bytes, ghost base: Names) returns (ok: bool, taken: bool, d: Debt)
    requires tmp !in base && tmp != q.dest && dir.names == base[tmp := x]
    modifies dir
    ensures Owes(base, dir.names, q.dest, d)
    ensures ok ==> d == Debt(None, None, true) && q.dest !in base && dir.names == PublishedNames(base, q.dest, x, None)
    ensures taken ==> !ok && d == Debt(Some(tmp), None, false) && dir.names == base[tmp := x] && q.dest in base
    ensures dir.Reliable() ==> if q.dest in base then taken else ok
  {
    hide Owes;
    Staged(base, tmp, x, q.dest);
    d, ok, taken := Debt(Some(tmp), None, false), false, false;
    var link := dir.Link(tmp, q.dest);
    if link != Done {
      var present := dir.Lstat(q.dest);
      taken := present == Done;
      return;
    }
    LinkedOut(base, tmp, x, q.dest);
    d := d.(published := true);
    Unstaged(base, dir.names, q.dest, d);
    var removed := dir.Remove(tmp);
    ok := removed == Done;
    if ok {
      Published(base, q.dest, x, None);
      d := d.(staging := None);
    }
  }

  /** Read the copy back, compare it with the source once more, and drop the rollback link. */
  method VerifyPublished(dir: Directory, src: Source, q: Request, content: Bytes, d: Debt, ghost base: Names)
    returns (e: Option<AdoptError>, rest: Debt)
    requires d.staging.None? && d.published && Owes(base, dir.names, q.dest, d)
    requires dir.names == PublishedNames(base, q.dest, content, d.rollback) && (d.rollback.Some? <==> q.dest in base)
    modifies dir, src
    ensures e.Some? ==> rest == d && Owes(base, dir.names, q.dest, d)
    ensures e.None? ==> rest == Debt(None, None, false) && dir.names == base[q.dest := content]
    ensures e.None? ==> src.at == old(src.at) + 1 && src.contentAt(old(src.at)) == Some(content)
    ensures src.at >= old(src.at)
    ensures e.None? ==> !q.sameFile
    ensures dir.Reliable() && src.contentAt(old(src.at)) == Some(content) && |content| <= q.limit && !q.sameFile ==> e.None?
    ensures e.None? ==> dir.Flawless(old(dir.step), dir.step)
  {
    rest := d;
    var synced := dir.Try();
    if !synced {
      return Some(Io), rest;
    }
    var published := dir.Read(q.dest);
    if published.None? {
      return Some(Io), rest;
    }
    if |published.value| > q.limit {
      return Some(TooLarge), rest;
    }
    if q.sameFile {
      return Some(Collision), rest;
    }
    var final := src.Read();
    if final.None? {
      return Some(Io), rest;
    }
    if published.value != final.value || final.value != content {
      return Some(HashMismatch), rest;
    }
    if d.rollback.Some? {
      var removed := dir.Remove(d.rollback.value);
      if removed != Done {
        return Some(Io), rest;
      }
      assert PublishedNames(base, q.dest, content, d.rollback) - {d.rollback.value} == base[q.dest := content];
    }
    e, rest := None, Debt(None, None, false);
  }

  /** Which writes of other processes happened, and whether the rename succeeded after the late one. */
  datatype Interference = Interference(early: bool, late: bool, renamed: bool)

  /** The directory with what was written before the inspection. */
  function Early(start: Names, q: Request, i: Interference): Names
  {
    if i.early && q.intruder.Some? then start[q.dest := q.intruder.value] else start
  }

  /** What the adoption must leave behind on an error: with the late write too, unless it was overwritten. */
  function BaseOf(start: Names, q: Request, i: Interference): Names
  {
    if i.late && !i.renamed && q.late.Some? then Early(start, q, i)[q.dest := q.late.value] else Early(start, q, i)
  }

  /** Some of the candidates is not taken. */
  predicate FreeName(candidates: seq<Name>, taken: set<Name>)
  {
    exists c :: c in candidates && c !in taken
  }

  /** A session file that may be adopted. */
  predicate Valid(q: Request, x: Bytes, session: Bytes -> Option<string>)
  {
    |x| <= q.limit && session(x) == Some(q.expected)
  }

  /** Names are free, nobody interferes, and an existing copy is the same or may be replaced. */
  predicate Unhindered(names: Names, q: Request, x: Bytes)
  {
    && Alone(q) && FreeName(q.stagingNames, names.Keys) && (q.dest in names && !q.replace ==> names[q.dest] == x)
    && FreeName(q.rollbackNames, names.Keys + (set c | c in q.stagingNames))
  }

  /** The source keeps its content from a read on. */
  ghost predicate Serves(src: Source, from: nat, content: Bytes)
  {
    forall k: nat :: from <= k ==> src.contentAt(k) == Some(content)
  }

  /** No other process writes to dest, and dest is not the source itself. */
  predicate Alone(q: Request)
  {
    q.intruder.None? && q.late.None? && !q.sameFile
  }

  /** Everything between the staging file's creation and the cleanup. */
  method PublishCopy(dir: Directory, src: Source, q: Request, tmp: Name, content: Bytes)
    returns (r: Result<Adopted, AdoptError>, d: Debt, ghost base: Names, ghost i: Interference)
    requires tmp in dir.names && dir.names[tmp] == [] && tmp != q.dest && q.dest !in q.rollbackNames
    modifies dir, src
    ensures base == BaseOf(old(dir.names) - {tmp}, q, i) && (i.late ==> q.late.Some? && q.replace)
    ensures r.Ok? ==> (i.early <==> q.intruder.Some?) && (r.value.created ==> (i.late <==> q.replace && q.late.Some?))
    ensures src.at > old(src.at)
    ensures r.Err? ==> Owes(base, dir.names, q.dest, d)
    ensures r.Ok? ==> r.value.content == content
    ensures r.Ok? && r.value.created ==>
              && d == Debt(None, None, false) && dir.names == base[q.dest := content]
              && src.at > old(src.at) + 1 && src.contentAt(src.at - 1) == Some(content)
    ensures r.Ok? && !r.value.created ==> Owes(base, dir.names, q.dest, d) && q.dest in base && base[q.dest] == content
    ensures r.Ok? ==> !q.sameFile && (!q.replace && q.dest in base ==> !r.value.created)
    ensures dir.Reliable() && Serves(src, old(src.at), content) && |content| <= q.limit && Alone(q)
              && (q.dest in base ==> if q.replace then FreeName(q.rollbackNames, base.Keys + {tmp}) else base[q.dest] == content) ==>
            r == Ok(Adopted(content, q.replace || q.dest !in base))
  {
    hide Owes;
    base, i := dir.names - {tmp}, Interference(false, false, false);
    assert dir.names == base[tmp := []];
    var e := Stage(dir, src, q, tmp, content, base);
    if e.Some? {
      Staged(base, tmp, dir.names[tmp], q.dest);
      return Err(e.value), Debt(Some(tmp), None, false), base, i;
    }
    if q.intruder.Some? {
      Intruded(base, tmp, content, q.dest, q.intruder.value);
      dir.names := dir.names[q.dest := q.intruder.value];
      base, i := base[q.dest := q.intruder.value], i.(early := true);
    }
    var ok;
    if q.replace {
      ghost var late;
      ok, d, late := Replace(dir, q, tmp, content, base);
      i := i.(late := late, renamed := ok);
      base := if late && !ok then base[q.dest := q.late.value] else base;
    } else {
      var taken;
      ok, taken, d := LinkOut(dir, q, tmp, content, base);
      if taken {
        r := VerifyExisting(dir, q, content);
        return;
      }
    }
    if !ok {
      return Err(Io), d, base, i;
    }
    e, d := VerifyPublished(dir, src, q, content, d, base);
    r := if e.Some? then Err(e.value) else Ok(Adopted(content, true));
  }

  /** Two validations, the hash, and a look at dest. */
  method Prepare(dir: Directory, src: Source, q: Request, session: Bytes -> Option<string>)
    returns (content: Bytes, present: bool, e: Option<AdoptError>)
    modifies dir`step, src
    ensures src.at >= old(src.at)
    ensures e.None? ==>
              && src.at == old(src.at) + 3 && src.contentAt(old(src.at) + 2) == Some(content) && |content| <= q.limit
              && (forall k :: old(src.at) <= k <= old(src.at) + 1 ==> src.contentAt(k).Some? && Valid(q, src.contentAt(k).value, session))
              && (present <==> q.dest in dir.names)
    ensures var x := src.contentAt(old(src.at));
            x.Some? && Serves(src, old(src.at), x.value) && Valid(q, x.value, session) && dir.Reliable() ==> e.None?
    ensures var x, y := src.contentAt(old(src.at)), src.contentAt(old(src.at) + 1);
            && (x.Some? && |x.value| <= q.limit && session(x.value) != Some(q.expected) ==> e == Some(InvalidSource))
            && (x.Some? && Valid(q, x.value, session) && y.Some? && |y.value| <= q.limit && session(y.value) !in {None, Some(q.expected)} ==>
                  e == Some(HashMismatch))
    ensures var x, y, z := src.contentAt(old(src.at)), src.contentAt(old(src.at) + 1), src.contentAt(old(src.at) + 2);
            x.Some? && Valid(q, x.value, session) && y.Some? && Valid(q, y.value, session) ==>
              && (z.None? ==> e == Some(Io)) && (z.Some? && |z.value| > q.limit ==> e == Some(TooLarge))
  {
    content, present := [], false;
    e := ValidateSource(src, q, session, InvalidSource);
    if e.Some? { return; }
    e := ValidateSource(src, q, session, HashMismatch);
    if e.Some? { return; }
    var hashed := src.Read();
    if hashed.None? || |hashed.value| > q.limit {
      return content, present, Some(if hashed.None? then Io else TooLarge);
    }
    content := hashed.value;
    var there := dir.Lstat(q.dest);
    present := there == Done;
    e := if there == Failed then Some(Io) else None;
  }

  /**
    On success dest holds the source's bytes and nothing else changed.  On an error with a
    clean cleanup nothing changed at all.  On any error only the adoption's own names differ
    and the prior content of dest is not lost.  What another process writes directly before
    the rename survives such an error if and only if the rename failed.
   */
  method Adopt(dir: Directory, src: Source, q: Request, session: Bytes -> Option<string>)
    returns (r: Result<Adopted, AdoptError>, clean: bool, ghost base: Names, ghost d: Debt, ghost i: Interference)
    requires q.dest !in q.stagingNames && q.dest !in q.rollbackNames
    modifies dir, src
    ensures base == BaseOf(old(dir.names), q, i) && (i.late ==> q.late.Some? && q.replace)
    ensures r.Err? && clean ==> dir.names == base
    ensures r.Err? && clean && i.late ==>
              dir.names == if i.renamed then Early(old(dir.names), q, i) else Early(old(dir.names), q, i)[q.dest := q.late.value]
    ensures r.Err? ==> Contained(base, dir.names, q.dest, d)
    ensures r.Ok? ==> clean && dir.names == base[q.dest := r.value.content]
    ensures r.Ok? ==> exists first, last :: old(src.at) <= first && FromSource(src, r.value, first, last)
    ensures r.Ok? && !r.value.created ==> dir.names == base
    ensures dir.Reliable() ==> clean
    ensures r.Ok? && r.value.created ==> (i.early <==> q.intruder.Some?) && (i.late <==> q.replace && q.late.Some?)
    // What was accepted
    ensures r.Ok? ==> !q.sameFile && forall k :: old(src.at) <= k <= old(src.at) + 1 ==>
              src.contentAt(k).Some? && Valid(q, src.contentAt(k).value, session)
    ensures r.Ok? && !q.replace && q.dest in base ==> !r.value.created && base[q.dest] == r.value.content
    ensures var x := src.contentAt(old(src.at));
            x.Some? && Serves(src, old(src.at), x.value) && Valid(q, x.value, session) && dir.Reliable() ==>
              && (Unhindered(old(dir.names), q, x.value) ==> r == Ok(Adopted(x.value, q.replace || q.dest !in old(dir.names))))
              && (!q.replace && q.dest in old(dir.names) && old(dir.names)[q.dest] != x.value ==> r == Err(Collision))
  {
    hide Owes, Contained;
    base, d, clean, i := dir.names, Debt(None, None, false), true, Interference(false, false, false);
    NothingOwed(base, q.dest);
    ghost var first := src.at + 2;
    var content, present, e := Prepare(dir, src, q, session);
    if e.Some? {
      return Err(e.value), true, base, d, i;
    }
    if present && !q.replace {
      r := VerifyExisting(dir, q, content);
      if r.Ok? {
        assert FromSource(src, r.value, first, first);
        assert dir.names == base[q.dest := content];
      }
      return;
    }
    var tmp := dir.CreateUnique(q.stagingNames);
    if tmp.None? {
      return Err(Io), true, base, d, i;
    }
    assert dir.names - {tmp.value} == base;
    var debt;
    r, debt, base, i := PublishCopy(dir, src, q, tmp.value, content);
    d := debt;
    if r.Ok? && r.value.created {
      assert FromSource(src, r.value, first, src.at - 1);
      return;
    }
    clean := Cleanup(dir, q.dest, debt, base);
    if r.Ok? {
      if clean {
        assert FromSource(src, r.value, first, first);
        assert base == base[q.dest := content];
      } else {
        r := Err(Io);
      }
    }
  }

  lemma NothingOwed(base: Names, dest: Name)
    ensures Contained(base, base, dest, Debt(None, None, false))
  {
    assert Own(Debt(None, None, false)) == {} && base - {} == base;
  }
}
