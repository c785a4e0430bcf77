/**
  The durable send queue.  An operation changes memory, persists the whole store through a
  temporary file and a rename, and rolls memory back on any error.  Conservation and the
  exact relation of memory and disk hold after every run of operations, faults at any
  stage, and restarts.
 */
module SendQueue {
  import opened Wrappers

  type ChatId = string
  type Id = string

  datatype Body = Body(id: Id, text: string, hasImage: bool, createdAt: int, requestId: Id, images: seq<string>)
  datatype DispatchState = Unset | Reserved | Attempted
  datatype Item = Item(body: Body, delivery: Id, state: DispatchState, cursor: Id)

  datatype Queue = Queue(revision: nat, items: seq<Item>, dispatching: Option<Item>)
  const EmptyQueue: Queue := Queue(0, [], None)

  type Chats = map<ChatId, Queue>

  function Get(c: Chats, chat: ChatId): Queue
  {
    if chat in c then c[chat] else EmptyQueue
  }

  /** Equal for every lookup: an empty queue may be stored or absent. */
  ghost predicate Agree(a: Chats, b: Chats)
  {
    forall chat :: Get(a, chat) == Get(b, chat)
  }

  datatype Op =
    | Append(chat: ChatId, item: Item, newId: Id, now: int)
    | Begin(chat: ChatId, newId: Id)
    | Mark(chat: ChatId, delivery: Id, cursor: Id)
    | Complete(chat: ChatId, delivery: Id)
    | Restore(chat: ChatId, delivery: Id)

  /** What Append stores: missing id and time filled in, the image flag recomputed. */
  function Filled(item: Item, newId: Id, now: int): Item
  {
    var b := item.body;
    item.(body := b.(id := if b.id == "" then newId else b.id,
                     createdAt := if b.createdAt == 0 then now else b.createdAt,
                     hasImage := b.images != []))
  }

  function ReservedItem(item: Item, newId: Id): Item
  {
    Item(item.body, if item.delivery == "" then newId else item.delivery, Reserved, "")
  }

  predicate Dispatches(q: Queue, delivery: Id)
  {
    q.dispatching.Some? && q.dispatching.value.delivery == delivery
  }

  /** The queue an operation wants, or nothing when there is nothing to change. */
  function Change(q: Queue, op: Op): Option<Queue>
  {
    match op
    case Append(_, item, newId, now) => Some(Queue(q.revision + 1, q.items + [Filled(item, newId, now)], q.dispatching))
    case Begin(_, newId) =>
      if q.dispatching.Some? || q.items == [] then None
      else Some(Queue(q.revision + 1, q.items[1..], Some(ReservedItem(q.items[0], newId))))
    case Mark(_, delivery, cursor) =>
      if !Dispatches(q, delivery) then None
      else Some(q.(revision := q.revision + 1, dispatching := Some(q.dispatching.value.(state := Attempted, cursor := cursor))))
    case Complete(_, delivery) =>
      if !Dispatches(q, delivery) then None else Some(q.(revision := q.revision + 1, dispatching := None))
    case Restore(_, delivery) =>
      if !Dispatches(q, delivery) then None
      else Some(Queue(q.revision + 1, [q.dispatching.value] + q.items, None))
  }

  // Persisting, stage by stage

  /** Where persisting can fail; everything from OpenDir on comes after the rename. */
  datatype Stage = MakeDir | Encode | CreateTemp | Chmod | Write | SyncFile | CloseFile | Rename | OpenDir | SyncDir | CloseDir

  predicate AfterRename(fault: Option<Stage>)
  {
    fault.None? || fault.value.OpenDir? || fault.value.SyncDir? || fault.value.CloseDir?
  }

  // Histories

  /** An append as the caller made it: its item, and the id and time to use where that has none. */
  datatype Given = Given(item: Item, newId: Id, now: int)

  /** lost is the last operation that reached the disk and was rolled back in memory. */
  datatype State = State(mem: Chats, disk: Option<Chats>, lost: Option<Op>, done: map<ChatId, seq<Item>>, added: map<ChatId, seq<Given>>)

  datatype Action = Do(op: Op, fault: Option<Stage>) | Restart

  function Listed<T>(m: map<ChatId, seq<T>>, chat: ChatId): seq<T>
  {
    if chat in m then m[chat] else []
  }

  function OnDisk(s: State): Chats
  {
    match s.disk case None => map[] case Some(c) => c
  }

  /** The histories once an operation counts. */
  function Record(s: State, op: Op): (t: State)
    ensures t.mem == s.mem && t.disk == s.disk && t.lost == s.lost
  {
    match op
    case Append(chat, item, newId, now) => s.(added := s.added[chat := Listed(s.added, chat) + [Given(item, newId, now)]])
    case Complete(chat, _) =>
      var q := Get(s.mem, chat);
      if q.dispatching.None? then s else s.(done := s.done[chat := Listed(s.done, chat) + [q.dispatching.value]])
    case _ => s
  }

  function Wanted(c: Chats, op: Op): Chats
  {
    match Change(Get(c, op.chat), op) case None => c case Some(q) => c[op.chat := q]
  }

  function Step(s: State, a: Action): State
  {
    match a
    case Restart =>
      (if s.lost.Some? then Record(s, s.lost.value) else s).(mem := OnDisk(s), lost := None)
    case Do(op, fault) =>
      if Change(Get(s.mem, op.chat), op).None? then s
      else if fault.None? then
        Record(s, op).(mem := Wanted(s.mem, op), disk := Some(Wanted(s.mem, op)), lost := None)
      else
        var rolledBack := s.mem[op.chat := Get(s.mem, op.chat)];
        if AfterRename(fault) then s.(mem := rolledBack, disk := Some(Wanted(s.mem, op)), lost := Some(op))
        else s.(mem := rolledBack)
  }

  const Initial: State := State(map[], None, None, map[], map[])

  function Run(actions: seq<Action>): State
  {
    if actions == [] then Initial else Step(Run(actions[..|actions| - 1]), actions[|actions| - 1])
  }

  // What every run keeps

  /** Completed, dispatching, queued. */
  function Line(done: seq<Item>, q: Queue): seq<Item>
  {
    done + (if q.dispatching.Some? then [q.dispatching.value] else []) + q.items
  }

  /** Everything that passed through a chat's queue, oldest first. */
  function Flow(s: State, chat: ChatId): seq<Item>
  {
    Line(Listed(s.done, chat), Get(s.mem, chat))
  }

  /** What the queue holds for an append: the caller's fields, an id, a time and an image flag filled in. */
  predicate StoredFor(x: Item, g: Given)
  {
    && x.body.text == g.item.body.text && x.body.requestId == g.item.body.requestId && x.body.images == g.item.body.images
    && x.body.id == (if g.item.body.id == "" then g.newId else g.item.body.id)
    && x.body.createdAt == (if g.item.body.createdAt == 0 then g.now else g.item.body.createdAt)
    && (x.body.hasImage <==> g.item.body.images != [])
    && (g.item.delivery != "" ==> x.delivery == g.item.delivery)
  }

  predicate SameBodies(a: seq<Item>, b: seq<Given>)
  {
    |a| == |b| && forall k :: 0 <= k < |a| ==> StoredFor(a[k], b[k])
  }

  ghost predicate Conserved(s: State)
  {
    forall chat :: SameBodies(Flow(s, chat), Listed(s.added, chat))
  }

  /** Disk is memory, or what memory would be had the lost operation not been rolled back. */
  ghost predicate DiskKnown(s: State)
  {
    match s.lost
    case None => Agree(OnDisk(s), s.mem)
    case Some(op) => Change(Get(s.mem, op.chat), op).Some? && Agree(OnDisk(s), Wanted(s.mem, op))
  }

  /** One chat keeps or extends its flow, keeps bodies, and never changes an assigned delivery id. */
  predicate Extends(a: seq<Item>, b: seq<Item>)
  {
    |a| <= |b| && forall k :: 0 <= k < |a| ==>
      a[k].body == b[k].body && (a[k].delivery != "" ==> b[k].delivery == a[k].delivery)
  }

  lemma ExtendsTransitive(a: seq<Item>, b: seq<Item>, c: seq<Item>)
    requires Extends(a, b) && Extends(b, c)
    ensures Extends(a, c)
  {}

  /** A state whose memory looks the same has the same flow. */
  lemma FlowOfLookups(s: State, t: State, chat: ChatId)
    requires Get(s.mem, chat) == Get(t.mem, chat) && Listed(s.done, chat) == Listed(t.done, chat)
    ensures Flow(s, chat) == Flow(t, chat)
  {}

  /** What an operation does to the line: one more item, new annotations on one, or nothing. */
  lemma EffectOnLine(done: seq<Item>, q: Queue, op: Op)
    requires Change(q, op).Some?
    ensures var r := Change(q, op).value;
            match op
            case Append(_, item, newId, now) => Line(done, r) == Line(done, q) + [Filled(item, newId, now)]
            case Complete(_, _) => q.dispatching.Some? && Line(done + [q.dispatching.value], r) == Line(done, q)
            case Restore(_, _) => Line(done, r) == Line(done, q)
            case _ => && |done| < |Line(done, q)| && r.dispatching.Some?
                      && Line(done, r) == Line(done, q)[|done| := r.dispatching.value]
                      && Annotates(Line(done, q)[|done|], r.dispatching.value)
  {
    match op {
      case Begin(_, newId) => assert q.items == [q.items[0]] + q.items[1..];
      case _ =>
    }
  }

  /** Same body, and a delivery id is kept. */
  predicate Annotates(a: Item, b: Item)
  {
    a.body == b.body && (a.delivery != "" ==> b.delivery == a.delivery)
  }

  lemma ExtendsSnoc(a: seq<Item>, b: seq<Given>, g: Given)
    ensures var x := Filled(g.item, g.newId, g.now); Extends(a, a + [x]) && (SameBodies(a, b) ==> SameBodies(a + [x], b + [g]))
  {}

  lemma ExtendsUpdate(a: seq<Item>, b: seq<Given>, k: nat, x: Item)
    requires k < |a| && Annotates(a[k], x)
    ensures Extends(a, a[k := x]) && (SameBodies(a, b) ==> SameBodies(a[k := x], b))
  {}

  /** An operation that takes effect extends the flow of its own chat, by one item if it appends. */
  lemma EffectOnFlow(s: State, op: Op, t: State)
    requires Change(Get(s.mem, op.chat), op).Some?
    requires Get(t.mem, op.chat) == Change(Get(s.mem, op.chat), op).value
    requires t.done == Record(s, op).done && t.added == Record(s, op).added
    ensures Extends(Flow(s, op.chat), Flow(t, op.chat))
    ensures SameBodies(Flow(s, op.chat), Listed(s.added, op.chat)) ==> SameBodies(Flow(t, op.chat), Listed(t.added, op.chat))
  {
    hide Line, Change, Extends, SameBodies, Annotates;
    var done, q, added := Listed(s.done, op.chat), Get(s.mem, op.chat), Listed(s.added, op.chat);
    EffectOnLine(done, q, op);
    ExtendsSame(Line(done, q));
    match op {
      case Append(_, item, newId, now) => ExtendsSnoc(Line(done, q), added, Given(item, newId, now));
      case Complete(_, _) =>
      case Restore(_, _) =>
      case Begin(_, _) => ExtendsUpdate(Line(done, q), added, |done|, Change(q, op).value.dispatching.value);
      case Mark(_, _, _) => ExtendsUpdate(Line(done, q), added, |done|, Change(q, op).value.dispatching.value);
    }
  }

  /** Another chat is untouched. */
  lemma EffectElsewhere(s: State, op: Op, t: State, chat: ChatId)
    requires chat != op.chat && Get(t.mem, chat) == Get(s.mem, chat)
    requires t.done == Record(s, op).done && t.added == Record(s, op).added
    ensures Flow(t, chat) == Flow(s, chat) && Listed(t.added, chat) == Listed(s.added, chat)
  {}

  ghost predicate Inv(s: State)
  {
    Conserved(s) && DiskKnown(s)
  }

  /** When an operation counts, with memory as it wanted it. */
  lemma TakesEffect(s: State, op: Op, t: State)
    requires Change(Get(s.mem, op.chat), op).Some? && Agree(t.mem, Wanted(s.mem, op))
    requires t.done == Record(s, op).done && t.added == Record(s, op).added
    ensures forall chat :: Extends(Flow(s, chat), Flow(t, chat))
    ensures Conserved(s) ==> Conserved(t)
  {
    hide Flow, SameBodies, Extends, Record, Change;
    EffectOnFlow(s, op, t);
    forall chat ensures Extends(Flow(s, chat), Flow(t, chat)) && (Conserved(s) ==> SameBodies(Flow(t, chat), Listed(t.added, chat))) {
      if chat != op.chat {
        assert Get(t.mem, chat) == Get(Wanted(s.mem, op), chat) == Get(s.mem, chat);
        EffectElsewhere(s, op, t, chat);
        ExtendsSame(Flow(s, chat));
      }
    }
  }

  lemma ExtendsSame(a: seq<Item>)
    ensures Extends(a, a)
  {}

  lemma RestartKeeps(s: State)
    requires Inv(s)
    ensures Inv(Step(s, Restart)) && forall chat :: Extends(Flow(s, chat), Flow(Step(s, Restart), chat))
  {
    hide Flow, SameBodies, Extends, Record, Change, Wanted;
    var t := Step(s, Restart);
    if s.lost.Some? { TakesEffect(s, s.lost.value, t); } else { Unchanged(s, t); }
  }

  lemma OpKeeps(s: State, op: Op, fault: Option<Stage>)
    requires Inv(s)
    ensures var t := Step(s, Do(op, fault)); Inv(t) && forall chat :: Extends(Flow(s, chat), Flow(t, chat))
  {
    hide Flow, SameBodies, Extends, Record, Change, Wanted;
    var t := Step(s, Do(op, fault));
    if Change(Get(s.mem, op.chat), op).Some? && fault.None? {
      TakesEffect(s, op, t);
    } else {
      RolledBack(s.mem, op);
      Unchanged(s, t);
    }
  }

  /** No operation, fault or restart breaks the invariant or an item's identity. */
  lemma StepKeeps(s: State, a: Action)
    requires Inv(s)
    ensures Inv(Step(s, a)) && forall chat :: Extends(Flow(s, chat), Flow(Step(s, a), chat))
  {
    hide Inv, Step, Flow, Extends;
    match a
    case Restart => RestartKeeps(s);
    case Do(op, fault) => OpKeeps(s, op, fault);
  }

  lemma Unchanged(s: State, t: State)
    requires Agree(s.mem, t.mem) && s.done == t.done && s.added == t.added
    ensures forall chat :: Extends(Flow(s, chat), Flow(t, chat))
    ensures Conserved(s) ==> Conserved(t)
  {
    hide SameBodies;
    forall chat ensures Flow(s, chat) == Flow(t, chat) { FlowOfLookups(s, t, chat); }
  }

  /** Rolling back may store an empty queue that was absent; no lookup can tell. */
  lemma RolledBack(c: Chats, op: Op)
    ensures var r := c[op.chat := Get(c, op.chat)];
            Agree(r, c) && forall o: Op :: Get(r, o.chat) == Get(c, o.chat) && Agree(Wanted(r, o), Wanted(c, o))
  {}

  lemma {:induction false} RunKeeps(actions: seq<Action>)
    ensures Inv(Run(actions))
  {
    hide Inv, Step;
    if actions == [] {
      InitialKeeps();
    } else {
      RunKeeps(actions[..|actions| - 1]);
      StepKeeps(Run(actions[..|actions| - 1]), actions[|actions| - 1]);
    }
  }

  lemma InitialKeeps()
    ensures Inv(Initial)
  {}

  /** Along a run every item keeps its place and body, and its delivery id once it has one. */
  lemma {:induction false} IdentityIsStable(actions: seq<Action>, n: nat, chat: ChatId)
    requires n <= |actions|
    ensures Extends(Flow(Run(actions[..n]), chat), Flow(Run(actions), chat))
    decreases |actions|
  {
    hide Step, Inv, Flow, Extends;
    if n == |actions| {
      assert actions[..n] == actions;
      ExtendsSame(Flow(Run(actions), chat));
    } else {
      var past := actions[..|actions| - 1];
      IdentityIsStable(past, n, chat);
      assert past[..n] == actions[..n];
      RunKeeps(past);
      StepKeeps(Run(past), actions[|actions| - 1]);
      ExtendsTransitive(Flow(Run(actions[..n]), chat), Flow(Run(past), chat), Flow(Run(actions), chat));
    }
  }

  /** Completed, then dispatching, then queued: exactly what the callers appended, in order, field by field. */
  lemma NothingLostOrDuplicated(actions: seq<Action>, chat: ChatId)
    ensures var s := Run(actions);
            var q := Get(s.mem, chat);
            var flow := Listed(s.done, chat) + (if q.dispatching.Some? then [q.dispatching.value] else []) + q.items;
            && |flow| == |Listed(s.added, chat)|
            && forall k :: 0 <= k < |flow| ==>
                 var body, g := flow[k].body, Listed(s.added, chat)[k];
                 && body.text == g.item.body.text && body.requestId == g.item.body.requestId && body.images == g.item.body.images
                 && body.id == (if g.item.body.id == "" then g.newId else g.item.body.id)
                 && body.createdAt == (if g.item.body.createdAt == 0 then g.now else g.item.body.createdAt)
                 && (body.hasImage <==> g.item.body.images != [])
                 && (g.item.delivery != "" ==> flow[k].delivery == g.item.delivery)
  {
    RunKeeps(actions);
  }

  // Revisions

  predicate Commits(s: State, a: Action, chat: ChatId)
  {
    match a
    case Do(op, fault) => op.chat == chat && fault.None? && Change(Get(s.mem, chat), op).Some?
    case Restart => s.lost.Some? && s.lost.value.chat == chat
  }

  function Committed(actions: seq<Action>, chat: ChatId): nat
  {
    if actions == [] then 0
    else Committed(actions[..|actions| - 1], chat)
         + if Commits(Run(actions[..|actions| - 1]), actions[|actions| - 1], chat) then 1 else 0
  }

  lemma ChangeBumps(q: Queue, op: Op)
    ensures Change(q, op).Some? ==> Change(q, op).value.revision == q.revision + 1
  {}

  lemma StepRevision(s: State, a: Action, chat: ChatId)
    requires DiskKnown(s)
    ensures Get(Step(s, a).mem, chat).revision == Get(s.mem, chat).revision + if Commits(s, a, chat) then 1 else 0
  {
    hide Change;
    match a {
      case Restart =>
        assert Get(OnDisk(s), chat) == Get(if s.lost.Some? then Wanted(s.mem, s.lost.value) else s.mem, chat);
        if s.lost.Some? { ChangeBumps(Get(s.mem, s.lost.value.chat), s.lost.value); }
      case Do(op, fault) => ChangeBumps(Get(s.mem, op.chat), op);
    }
  }

  /** The revision counts the changes that took effect, and nothing else. */
  lemma {:induction false} RevisionCounts(actions: seq<Action>, chat: ChatId)
    ensures Get(Run(actions).mem, chat).revision == Committed(actions, chat)
  {
    hide Step, Commits, Conserved;
    if actions != [] {
      RevisionCounts(actions[..|actions| - 1], chat);
      RunKeeps(actions[..|actions| - 1]);
      StepRevision(Run(actions[..|actions| - 1]), actions[|actions| - 1], chat);
    }
  }

  /** The k-th action reached the disk, or memory was read from it. */
  predicate Settles(actions: seq<Action>, k: nat)
    requires k < |actions|
  {
    match actions[k]
    case Restart => true
    case Do(op, fault) => Change(Get(Run(actions[..k]).mem, op.chat), op).Some? && AfterRename(fault)
  }

  /** The n-th action failed after its rename, and nothing after it reached the disk or restarted. */
  ghost predicate LostAt(actions: seq<Action>, n: nat, op: Op)
    requires n < |actions|
  {
    && actions[n].Do? && actions[n].op == op && actions[n].fault.Some? && Settles(actions, n)
    && forall k: nat :: n < k < |actions| ==> !Settles(actions, k)
  }

  ghost predicate Outstanding(actions: seq<Action>, op: Op)
  {
    exists n: nat :: n < |actions| && LostAt(actions, n, op)
  }

  lemma SettlesPrefix(actions: seq<Action>, m: nat, k: nat)
    requires k < m <= |actions|
    ensures Settles(actions[..m], k) <==> Settles(actions, k)
  {
    assert actions[..m][..k] == actions[..k];
  }

  /** An action that does not settle leaves the same operation outstanding. */
  lemma OutstandingKept(actions: seq<Action>, op: Op)
    requires actions != [] && !Settles(actions, |actions| - 1)
    ensures Outstanding(actions, op) <==> Outstanding(actions[..|actions| - 1], op)
  {
    hide Settles;
    var m := |actions| - 1;
    var past := actions[..m];
    forall k: nat | k < m ensures Settles(past, k) <==> Settles(actions, k) { SettlesPrefix(actions, m, k); }
    if n: nat :| n < |actions| && LostAt(actions, n, op) {
      assert n < m && past[n] == actions[n];
      assert LostAt(past, n, op);
    }
    if n: nat :| n < |past| && LostAt(past, n, op) {
      assert past[n] == actions[n];
      assert LostAt(actions, n, op);
    }
  }

  /** One that settles is itself outstanding if it failed, and nothing else is. */
  lemma OutstandingLast(actions: seq<Action>, op: Op)
    requires actions != [] && Settles(actions, |actions| - 1)
    ensures Outstanding(actions, op) <==>
            var a := actions[|actions| - 1]; a.Do? && a.op == op && a.fault.Some?
  {
    hide Settles;
    var m := |actions| - 1;
    if n: nat :| n < |actions| && LostAt(actions, n, op) { assert n == m; }
    if actions[m].Do? && actions[m].op == op && actions[m].fault.Some? { assert LostAt(actions, m, op); }
  }

  /** The model's record of a lost operation is what the history says. */
  lemma {:induction false} LostExactly(actions: seq<Action>, op: Op)
    ensures Run(actions).lost == Some(op) <==> Outstanding(actions, op)
  {
    hide Change, Wanted, Record;
    if actions != [] {
      var past := actions[..|actions| - 1];
      if Settles(actions, |actions| - 1) {
        OutstandingLast(actions, op);
      } else {
        LostExactly(past, op);
        OutstandingKept(actions, op);
      }
    }
  }

  /** Memory and disk differ only by an operation that failed after its rename and is still the last to reach the disk. */
  lemma DiskIsMemoryOrLost(actions: seq<Action>)
    ensures var s := Run(actions);
            && (forall op :: Outstanding(actions, op) ==> Agree(OnDisk(s), Wanted(s.mem, op)))
            && ((forall op :: !Outstanding(actions, op)) ==> Agree(OnDisk(s), s.mem))
  {
    hide Change, Step, Wanted, Outstanding, Agree, Conserved;
    RunKeeps(actions);
    forall op ensures Run(actions).lost == Some(op) <==> Outstanding(actions, op) { LostExactly(actions, op); }
  }

  /** Memory and disk agree exactly when no such operation is outstanding. */
  lemma AgreeExactly(actions: seq<Action>)
    ensures var s := Run(actions); Agree(OnDisk(s), s.mem) <==> forall op :: !Outstanding(actions, op)
  {
    hide Change, Step, Outstanding, Conserved;
    RunKeeps(actions);
    forall op ensures Run(actions).lost == Some(op) <==> Outstanding(actions, op) { LostExactly(actions, op); }
    var s := Run(actions);
    if s.lost.Some? {
      var op := s.lost.value;
      ChangeBumps(Get(s.mem, op.chat), op);
      assert Get(OnDisk(s), op.chat) == Get(Wanted(s.mem, op), op.chat);
    }
  }

  /** They can disagree: an append whose directory sync fails is on disk and not in memory. */
  lemma MemoryCanTrailDisk(item: Item)
    ensures var s := Run([Do(Append("chat", item, "id", 1), Some(SyncDir))]);
            !Agree(OnDisk(s), s.mem)
  {
    var a := Do(Append("chat", item, "id", 1), Some(SyncDir));
    assert [a][..0] == [];
    assert Run([a]) == Step(Run([]), a);
    LostExactly([a], a.op);
    AgreeExactly([a]);
  }

  // The store

  datatype OpError = NotFound | PersistFailed

  class Store {
    var chats: Chats
    /** The queue file and the temporary file beside it. */
    var disk: Option<Chats>
    var temp: Option<Chats>

    /** A store opened from what is on disk; no file means no chats. */
    constructor (disk: Option<Chats>)
      ensures this.disk == disk && temp == None && chats == (match disk case None => map[] case Some(c) => c)
    {
      this.disk, temp := disk, None;
      chats := match disk case None => map[] case Some(c) => c;
    }

    /** Write beside, sync, rename, sync the directory; stop at the faulty stage. */
    method Persist(fault: Option<Stage>) returns (ok: bool)
      requires temp.None?
      modifies this`disk, this`temp
      ensures ok <==> fault.None?
      ensures disk == if AfterRename(fault) then Some(chats) else old(disk)
      ensures fault.None? || fault.value in {OpenDir, SyncDir, CloseDir} ==> disk == Some(chats)
      ensures fault.Some? && fault.value in {MakeDir, Encode, CreateTemp, Chmod, Write, SyncFile, CloseFile, Rename} ==> disk == old(disk)
      ensures temp == None
    {
      if fault == Some(MakeDir) || fault == Some(Encode) || fault == Some(CreateTemp) {
        return false;
      }
      temp := Some(map[]);
      if fault == Some(Chmod) || fault == Some(Write) {
        temp := None;
        return false;
      }
      temp := Some(chats);
      if fault == Some(SyncFile) || fault == Some(CloseFile) || fault == Some(Rename) {
        temp := None;
        return false;
      }
      disk, temp := temp, None;
      ok := fault.None?;
    }

    /** Install, persist, and put the prior queue back on an error. */
    method CommitLocked(chat: ChatId, prior: Queue, next: Queue, fault: Option<Stage>) returns (ok: bool)
      requires temp.None? && prior == Get(chats, chat)
      modifies this
      ensures temp.None? && (ok <==> fault.None?)
      ensures chats == old(chats)[chat := if ok then next else prior]
      ensures disk == if AfterRename(fault) then Some(old(chats)[chat := next]) else old(disk)
    {
      chats := chats[chat := next];
      ok := Persist(fault);
      if !ok {
        chats := chats[chat := prior];
      }
    }

    /** Every other chat's queue is as it was. */
    ghost predicate OthersKept(was: Chats, chat: ChatId)
      reads this
    {
      forall c :: c != chat ==> Get(chats, c) == Get(was, c)
    }

    /** The state this store is in, with the histories of a run. */
    ghost predicate In(s: State)
      reads this
    {
      chats == s.mem && disk == s.disk && temp.None?
    }

    method AppendItem(chat: ChatId, item: Item, newId: Id, now: int, fault: Option<Stage>, ghost s: State)
      returns (id: Id, revision: nat, ok: bool)
      requires In(s)
      modifies this
      ensures In(Step(s, Do(Append(chat, item, newId, now), fault)))
      ensures ok <==> fault.None?
      ensures ok ==>
                && Get(chats, chat).items == old(Get(chats, chat).items) + [Get(chats, chat).items[|old(Get(chats, chat).items)|]]
                && var x := Get(chats, chat).items[|old(Get(chats, chat).items)|];
                   && x.body.text == item.body.text && x.body.requestId == item.body.requestId && x.body.images == item.body.images
                   && x.body.id == id == (if item.body.id == "" then newId else item.body.id)
                   && x.body.createdAt == (if item.body.createdAt == 0 then now else item.body.createdAt)
                   && (x.body.hasImage <==> item.body.images != [])
                   && x.delivery == item.delivery && x.state == item.state && x.cursor == item.cursor
      ensures ok ==> Get(chats, chat).dispatching == old(Get(chats, chat).dispatching)
                     && revision == old(Get(chats, chat).revision) + 1 && disk == Some(chats)
      ensures !ok ==> Get(chats, chat) == old(Get(chats, chat))
      ensures revision == Get(chats, chat).revision && OthersKept(old(chats), chat)
    {
      var queue := Get(chats, chat);
      var added := Filled(item, newId, now);
      var next := Queue(queue.revision + 1, queue.items + [added], queue.dispatching);
      ok := CommitLocked(chat, queue, next, fault);
      id, revision := if ok then added.body.id else "", if ok then next.revision else queue.revision;
    }

    method BeginDispatch(chat: ChatId, newId: Id, fault: Option<Stage>, ghost s: State)
      returns (item: Option<Item>, ok: bool)
      requires In(s)
      modifies this
      ensures In(Step(s, Do(Begin(chat, newId), fault)))
      ensures ok <==> fault.None? || Change(Get(s.mem, chat), Begin(chat, newId)).None?
      ensures ok ==> item == Get(chats, chat).dispatching
      ensures ok && old(Get(chats, chat).dispatching).None? && old(Get(chats, chat).items) != [] ==>
                && item.Some?
                && var head, q := old(Get(chats, chat).items)[0], Get(chats, chat);
                   && item.value.body == head.body && item.value.delivery == (if head.delivery == "" then newId else head.delivery)
                   && item.value.state == Reserved && item.value.cursor == ""
                   && q.items == old(Get(chats, chat).items)[1..] && q.revision == old(Get(chats, chat).revision) + 1
                   && disk == Some(chats)
      ensures !ok || old(Get(chats, chat).dispatching).Some? || old(Get(chats, chat).items) == [] ==>
                Get(chats, chat) == old(Get(chats, chat))
      ensures !ok ==> item == None
      ensures OthersKept(old(chats), chat)
    {
      var queue := Get(chats, chat);
      if queue.dispatching.Some? {
        return queue.dispatching, true;
      }
      if queue.items == [] {
        return None, true;
      }
      var head := ReservedItem(queue.items[0], newId);
      ok := CommitLocked(chat, queue, Queue(queue.revision + 1, queue.items[1..], Some(head)), fault);
      item := if ok then Some(head) else None;
    }

    method MarkDispatchAttempted(chat: ChatId, delivery: Id, cursor: Id, fault: Option<Stage>, ghost s: State)
      returns (revision: nat, e: Option<OpError>)
      requires In(s)
      modifies this
      ensures In(Step(s, Do(Mark(chat, delivery, cursor), fault))) && revision == Get(chats, chat).revision
      ensures e == Some(NotFound) <==> (old(Get(chats, chat)).dispatching.None? || old(Get(chats, chat)).dispatching.value.delivery != delivery)
      ensures e == None <==> !(old(Get(chats, chat)).dispatching.None? || old(Get(chats, chat)).dispatching.value.delivery != delivery) && fault.None?
      ensures e == None ==>
                var q := Get(chats, chat);
                q.items == old(Get(chats, chat)).items && q.dispatching == Some(old(Get(chats, chat)).dispatching.value.(state := Attempted, cursor := cursor)) && q.revision == old(Get(chats, chat)).revision + 1 && disk == Some(chats)
      ensures e != None ==> Get(chats, chat) == old(Get(chats, chat))
      ensures OthersKept(old(chats), chat)
    {
      var queue := Get(chats, chat);
      if !Dispatches(queue, delivery) {
        return queue.revision, Some(NotFound);
      }
      var item := queue.dispatching.value.(state := Attempted, cursor := cursor);
      var next := queue.(revision := queue.revision + 1, dispatching := Some(item));
      var ok := CommitLocked(chat, queue, next, fault);
      revision, e := if ok then next.revision else queue.revision, if ok then None else Some(PersistFailed);
    }

    method CompleteDispatch(chat: ChatId, delivery: Id, fault: Option<Stage>, ghost s: State)
      returns (revision: nat, e: Option<OpError>)
      requires In(s)
      modifies this
      ensures In(Step(s, Do(Complete(chat, delivery), fault))) && revision == Get(chats, chat).revision
      ensures e == Some(NotFound) <==> (old(Get(chats, chat)).dispatching.None? || old(Get(chats, chat)).dispatching.value.delivery != delivery)
      ensures e == None <==> !(old(Get(chats, chat)).dispatching.None? || old(Get(chats, chat)).dispatching.value.delivery != delivery) && fault.None?
      ensures e == None ==>
                var q := Get(chats, chat);
                q.items == old(Get(chats, chat)).items && q.dispatching == None && q.revision == old(Get(chats, chat)).revision + 1 && disk == Some(chats)
      ensures e != None ==> Get(chats, chat) == old(Get(chats, chat))
      ensures OthersKept(old(chats), chat)
    {
      var queue := Get(chats, chat);
      if !Dispatches(queue, delivery) {
        return queue.revision, Some(NotFound);
      }
      var next := queue.(revision := queue.revision + 1, dispatching := None);
      var ok := CommitLocked(chat, queue, next, fault);
      revision, e := if ok then next.revision else queue.revision, if ok then None else Some(PersistFailed);
    }

    method RestoreDispatch(chat: ChatId, delivery: Id, fault: Option<Stage>, ghost s: State)
      returns (revision: nat, e: Option<OpError>)
      requires In(s)
      modifies this
      ensures In(Step(s, Do(Restore(chat, delivery), fault))) && revision == Get(chats, chat).revision
      ensures e == Some(NotFound) <==> (old(Get(chats, chat)).dispatching.None? || old(Get(chats, chat)).dispatching.value.delivery != delivery)
      ensures e == None <==> !(old(Get(chats, chat)).dispatching.None? || old(Get(chats, chat)).dispatching.value.delivery != delivery) && fault.None?
      ensures e == None ==>
                var q := Get(chats, chat);
                q.items == [old(Get(chats, chat)).dispatching.value] + old(Get(chats, chat)).items && q.dispatching == None && q.revision == old(Get(chats, chat)).revision + 1 && disk == Some(chats)
      ensures e != None ==> Get(chats, chat) == old(Get(chats, chat))
      ensures OthersKept(old(chats), chat)
    {
      var queue := Get(chats, chat);
      if !Dispatches(queue, delivery) {
        return queue.revision, Some(NotFound);
      }
      var next := Queue(queue.revision + 1, [queue.dispatching.value] + queue.items, None);
      var ok := CommitLocked(chat, queue, next, fault);
      revision, e := if ok then next.revision else queue.revision, if ok then None else Some(PersistFailed);
    }
  }
}
