/**
  The subscriber broadcaster outside replays: bounded queues, preview shedding, and
  the transfer of an overflowed subscriber's frames to the subscriber that takes its
  place.  Each action is one critical section of publish, attach, finalize or release,
  or one step of a subscription's pump, and actions interleave freely.

  An Item is a queued frame.  Its snapshot mark says that it came from the initial
  snapshot of an attach and not from a publication; the code never looks at the mark.
 */
module Broadcast {
  import opened Wrappers

  const TRANSFER_CAPACITY: nat := 256

  datatype Frame = Frame(entryAppended: bool, preview: bool, notice: Option<string>, payload: nat)

  datatype Item = Item(frame: Frame, snapshot: bool)

  // Which frames a subscriber must get

  predicate Due(wants: bool, f: Frame) { !f.preview && (wants || !f.entryAppended) }

  /** Previews may be shed, and entry_appended is only for on-demand subscribers. */
  function Wanted(wants: bool, frames: seq<Frame>): seq<Frame>
  {
    if frames == [] then [] else
    Wanted(wants, frames[..|frames| - 1]) + (if Due(wants, frames[|frames| - 1]) then [frames[|frames| - 1]] else [])
  }

  /** The published frames among items, without previews. */
  function Committed(items: seq<Item>): seq<Frame>
  {
    if items == [] then [] else
    Committed(items[..|items| - 1]) +
    (if items[|items| - 1].snapshot || items[|items| - 1].frame.preview then [] else [items[|items| - 1].frame])
  }

  lemma WantedSnoc(wants: bool, frames: seq<Frame>, f: Frame)
    ensures Wanted(wants, frames + [f]) == Wanted(wants, frames) + (if Due(wants, f) then [f] else [])
  {
    assert (frames + [f])[..|frames|] == frames;
  }

  lemma {:induction false} CommittedConcat(a: seq<Item>, b: seq<Item>)
    ensures Committed(a + b) == Committed(a) + Committed(b)
  {
    if b == [] {
      assert a + b == a;
    } else {
      var n := |b| - 1;
      assert (a + b)[..|a + b| - 1] == a + b[..n];
      CommittedConcat(a, b[..n]);
    }
  }

  lemma CommittedOne(i: Item)
    ensures Committed([i]) == if i.snapshot || i.frame.preview then [] else [i.frame]
  {
    assert [i][..0] == [];
  }

  // Overflow transfers

  datatype Transfer = Transfer(
    frames: seq<Item>, suffix: seq<Item>, reserved: nat, finalized: bool, overflowed: bool, consumed: bool, wants: bool,
    // The history of the subscription that overflowed, known once the transfer is final.
    log: seq<Item>, start: nat)

  function Append(t: Transfer, f: Frame): Transfer
  {
    if f.entryAppended && !t.wants then t else
    var size := if t.finalized then |t.frames| else t.reserved + |t.suffix|;
    if t.overflowed || size >= TRANSFER_CAPACITY then t.(overflowed := true)
    else if t.finalized then t.(frames := t.frames + [Item(f, false)])
    else t.(suffix := t.suffix + [Item(f, false)])
  }

  function Finalize(t: Transfer, prefix: seq<Item>): Transfer
  {
    if t.finalized then t
    else if |prefix| + |t.suffix| > TRANSFER_CAPACITY
    then t.(overflowed := true, suffix := [], reserved := 0, finalized := true)
    else t.(frames := prefix + t.suffix, suffix := [], reserved := 0, finalized := true)
  }

  // Subscriptions

  /** A frame that the pump has taken is held until it is delivered or fails. */
  datatype Sub = Sub(key: string, wants: bool, cap: nat, q: seq<Item>, held: Option<Item>, failed: Option<Item>, exited: bool,
                     // Everything delivered to the client since the publication numbered start, over reattachments.
                     log: seq<Item>, start: nat)

  function AsSeq(i: Option<Item>): seq<Item> { if i.Some? then [i.value] else [] }

  /** What was taken from the queue but not delivered. */
  function Taken(x: Sub): seq<Item> { if x.failed.Some? then AsSeq(x.failed) else AsSeq(x.held) }

  function Undelivered(x: Sub): seq<Item> { Taken(x) + x.q }

  /** None when the subscriber must be detached. */
  function Enqueue(x: Sub, i: Item): Option<Sub>
  {
    if i.frame.entryAppended && !x.wants then Some(x)
    else if |x.q| < x.cap then Some(x.(q := x.q + [i]))
    else if i.frame.preview then Some(x) else None
  }

  function EnqueueAll(x: Sub, items: seq<Item>): Option<Sub>
  {
    if items == [] then Some(x) else
    match EnqueueAll(x, items[..|items| - 1])
    case None => None
    case Some(y) => Enqueue(y, items[|items| - 1])
  }

  predicate WfSub(x: Sub)
  {
    |x.q| <= x.cap && !(x.held.Some? && x.failed.Some?) && (x.exited ==> x.held.None?)
  }

  /** The committed frames of a subscription: delivered, then taken, then queued. */
  function Stream(x: Sub): seq<Frame> { Committed(x.log) + Committed(Undelivered(x)) }

  /** Delivered, taken and queued frames are, in order, the published frames that are due. */
  predicate GapFree(x: Sub, published: seq<Frame>)
  {
    WfSub(x) && x.start <= |published| && Stream(x) == Wanted(x.wants, published[x.start..])
  }

  /** The same for an overflowed subscription together with the frames published since. */
  predicate GapFreeLeaving(x: Sub, t: Transfer, published: seq<Frame>)
  {
    && WfSub(x) && x.start <= |published| && t.wants == x.wants && t.reserved == x.cap + 1 && t.frames == []
    && (!t.overflowed ==>
          && t.reserved + |t.suffix| <= TRANSFER_CAPACITY
          && Stream(x) + Committed(t.suffix) == Wanted(x.wants, published[x.start..]))
  }

  predicate GapFreeFinal(t: Transfer, published: seq<Frame>)
  {
    && |t.frames| <= TRANSFER_CAPACITY
    && (!t.overflowed ==>
          t.start <= |published| && Committed(t.log) + Committed(t.frames) == Wanted(t.wants, published[t.start..]))
  }

  // Steps on one subscription or transfer

  lemma PublishedSnoc(wants: bool, published: seq<Frame>, start: nat, f: Frame)
    requires start <= |published|
    ensures Wanted(wants, (published + [f])[start..]) ==
            Wanted(wants, published[start..]) + (if Due(wants, f) then [f] else [])
  {
    assert (published + [f])[start..] == published[start..] + [f];
    WantedSnoc(wants, published[start..], f);
  }

  lemma CommittedSnoc(items: seq<Item>, f: Frame)
    ensures Committed(items + [Item(f, false)]) == Committed(items) + (if f.preview then [] else [f])
  {
    CommittedConcat(items, [Item(f, false)]);
    CommittedOne(Item(f, false));
  }

  lemma EnqueueKeeps(x: Sub, f: Frame, published: seq<Frame>)
    requires GapFree(x, published) && Enqueue(x, Item(f, false)).Some?
    ensures GapFree(Enqueue(x, Item(f, false)).value, published + [f])
  {
    hide Committed;
    hide Wanted;
    var y := Enqueue(x, Item(f, false)).value;
    PublishedSnoc(x.wants, published, x.start, f);
    CommittedSnoc(Undelivered(x), f);
    if y.q != x.q {
      assert Undelivered(y) == Undelivered(x) + [Item(f, false)];
    }
  }

  /** A full queue turns the subscription into a transfer that starts with the frame. */
  lemma OverflowKeeps(x: Sub, f: Frame, published: seq<Frame>)
    requires GapFree(x, published) && Enqueue(x, Item(f, false)).None?
    ensures GapFreeLeaving(x, Append(Opened(x), f), published + [f])
  {
    hide Committed;
    hide Wanted;
    PublishedSnoc(x.wants, published, x.start, f);
    CommittedSnoc([], f);
    NothingCommitted();
  }

  lemma NothingCommitted()
    ensures Committed([]) == []
  {}

  function Opened(x: Sub): Transfer
  {
    Transfer([], [], x.cap + 1, false, false, false, x.wants, [], 0)
  }

  /** Publishing while a transfer waits for its subscription to exit; publish skips previews. */
  lemma AppendOpenKeeps(x: Sub, t: Transfer, f: Frame, published: seq<Frame>)
    requires !t.finalized && GapFreeLeaving(x, t, published)
    ensures GapFreeLeaving(x, if f.preview then t else Append(t, f), published + [f])
  {
    hide Committed;
    hide Wanted;
    PublishedSnoc(x.wants, published, x.start, f);
    CommittedSnoc(t.suffix, f);
  }

  lemma AppendFinalKeeps(t: Transfer, f: Frame, published: seq<Frame>)
    requires t.finalized && GapFreeFinal(t, published)
    ensures GapFreeFinal(if f.preview then t else Append(t, f), published + [f])
  {
    hide Committed;
    hide Wanted;
    if !t.overflowed {
      PublishedSnoc(t.wants, published, t.start, f);
      CommittedSnoc(t.frames, f);
    }
  }

  /** The undelivered frames fit the reservation, so finalizing never newly overflows. */
  lemma FinalizeKeeps(x: Sub, t: Transfer, published: seq<Frame>)
    requires GapFreeLeaving(x, t, published) && !t.finalized && x.exited
    ensures GapFreeFinal(Finalize(t, Undelivered(x)).(log := x.log, start := x.start), published)
    ensures !t.overflowed ==> !Finalize(t, Undelivered(x)).overflowed
  {
    hide Committed;
    hide Wanted;
    CommittedConcat(Undelivered(x), t.suffix);
  }

  // Reattachment

  function FilterEntries(items: seq<Item>, wants: bool): seq<Item>
  {
    if wants || items == [] then items else
    FilterEntries(items[..|items| - 1], wants) +
    (if items[|items| - 1].frame.entryAppended then [] else [items[|items| - 1]])
  }

  function Notices(items: seq<Item>): (s: set<string>)
    ensures forall n :: n in s <==> exists i :: 0 <= i < |items| && items[i].frame.notice == Some(n)
  {
    set i | 0 <= i < |items| && items[i].frame.notice.Some? :: items[i].frame.notice.value
  }

  /** The initial snapshot without the notices that the transfer brings. */
  function WithoutNotices(items: seq<Item>, notices: set<string>): seq<Item>
  {
    if items == [] then [] else
    var f := items[|items| - 1].frame;
    WithoutNotices(items[..|items| - 1], notices) +
    (if f.notice.Some? && f.notice.value in notices then [] else [items[|items| - 1]])
  }

  predicate AllSnapshot(items: seq<Item>) { forall i :: 0 <= i < |items| ==> items[i].snapshot }

  lemma {:induction false} SnapshotsCommitNothing(items: seq<Item>)
    requires AllSnapshot(items)
    ensures Committed(items) == []
  {
    if items != [] { SnapshotsCommitNothing(items[..|items| - 1]); }
  }

  lemma {:induction false} FilterKeepsSnapshots(items: seq<Item>, wants: bool, notices: set<string>)
    requires AllSnapshot(items)
    ensures AllSnapshot(FilterEntries(items, wants)) && AllSnapshot(WithoutNotices(items, notices))
  {
    if items != [] { FilterKeepsSnapshots(items[..|items| - 1], wants, notices); }
  }

  lemma {:induction false} FilterKeepsCommitted(items: seq<Item>, wants: bool)
    requires !wants ==> forall i :: 0 <= i < |Committed(items)| ==> !Committed(items)[i].entryAppended
    ensures Committed(FilterEntries(items, wants)) == Committed(items)
  {
    if !wants && items != [] {
      var most, last := items[..|items| - 1], items[|items| - 1];
      assert Committed(items) == Committed(most) + Committed([last]) by {
        CommittedConcat(most, [last]);
        assert items == most + [last];
      }
      assert forall i :: 0 <= i < |Committed(most)| ==> Committed(most)[i] == Committed(items)[i];
      FilterKeepsCommitted(most, wants);
      CommittedConcat(FilterEntries(most, wants), [last]);
      CommittedOne(last);
      assert FilterEntries(most, wants) + [] == FilterEntries(most, wants);
      assert Committed(items) != Committed(most) ==> Committed(items)[|Committed(most)|] == last.frame;
    }
  }

  lemma {:induction false} WantedAreDue(wants: bool, frames: seq<Frame>)
    ensures forall i :: 0 <= i < |Wanted(wants, frames)| ==> Due(wants, Wanted(wants, frames)[i])
  {
    if frames != [] { WantedAreDue(wants, frames[..|frames| - 1]); }
  }

  lemma {:induction false} EnqueueAllFits(x: Sub, items: seq<Item>)
    requires |x.q| + |items| <= x.cap && (x.wants || forall i :: 0 <= i < |items| ==> !items[i].frame.entryAppended)
    ensures EnqueueAll(x, items) == Some(x.(q := x.q + items))
  {
    if items == [] {
      assert x.q + items == x.q;
    } else {
      EnqueueAllFits(x, items[..|items| - 1]);
      assert x.q + items == (x.q + items[..|items| - 1]) + [items[|items| - 1]];
    }
  }

  lemma {:induction false} Filtered(items: seq<Item>, wants: bool, notices: set<string>)
    ensures !wants ==> forall i :: 0 <= i < |FilterEntries(items, wants)| ==> !FilterEntries(items, wants)[i].frame.entryAppended
    ensures (forall i :: 0 <= i < |items| ==> !items[i].frame.entryAppended) ==>
              forall i :: 0 <= i < |WithoutNotices(items, notices)| ==> !WithoutNotices(items, notices)[i].frame.entryAppended
  {
    if items != [] { Filtered(items[..|items| - 1], wants, notices); }
  }

  /** Enqueueing a snapshot leaves the queue well formed and commits nothing. */
  lemma {:induction false} SnapshotQueued(x: Sub, items: seq<Item>)
    requires WfSub(x) && AllSnapshot(x.q) && AllSnapshot(items) && EnqueueAll(x, items).Some?
    ensures var y := EnqueueAll(x, items).value; WfSub(y) && AllSnapshot(y.q) && y == x.(q := y.q)
  {
    if items != [] { SnapshotQueued(x, items[..|items| - 1]); }
  }

  function Marked(frames: seq<Frame>): seq<Item> { seq(|frames|, i requires 0 <= i < |frames| => Item(frames[i], true)) }

  function AsSnapshots(items: seq<Item>): seq<Item>
  {
    seq(|items|, i requires 0 <= i < |items| => items[i].(snapshot := true))
  }

  /**
    The subscription an attach creates.  Taking over a transfer continues its history
    when the capability is the same, and otherwise starts a new one.
   */
  function Attached(key: string, wants: bool, size: nat, initial: seq<Frame>, t: Option<Transfer>, now: nat): Option<Sub>
  {
    var snapshot := FilterEntries(Marked(initial), wants);
    var continued := t.Some? && t.value.wants == wants;
    var moved := if t.None? then [] else FilterEntries(if continued then t.value.frames else AsSnapshots(t.value.frames), wants);
    var items := if t.None? then snapshot else WithoutNotices(snapshot, Notices(moved)) + moved;
    var cap := if t.Some? && size < |items| then |items| else size;
    EnqueueAll(Sub(key, wants, cap, [], None, None, false,
                   if continued then t.value.log else [], if continued then t.value.start else now), items)
  }

  lemma AttachFresh(key: string, wants: bool, size: nat, initial: seq<Frame>, published: seq<Frame>)
    requires Attached(key, wants, size, initial, None, |published|).Some?
    ensures GapFree(Attached(key, wants, size, initial, None, |published|).value, published)
  {
    var x := Sub(key, wants, size, [], None, None, false, [], |published|);
    var items := FilterEntries(Marked(initial), wants);
    FilterKeepsSnapshots(Marked(initial), wants, {});
    SnapshotQueued(x, items);
    var y := EnqueueAll(x, items).value;
    SnapshotsCommitNothing(y.q);
    assert Undelivered(y) == y.q;
    NothingCommitted();
    assert published[|published|..] == [];
  }

  /** What a takeover queues: the snapshot first, which commits nothing, then the moved frames. */
  lemma TakeoverQueue(wants: bool, initial: seq<Frame>, frames: seq<Item>)
    ensures var snapshot := FilterEntries(Marked(initial), wants);
            var moved := FilterEntries(frames, wants);
            var items := WithoutNotices(snapshot, Notices(moved)) + moved;
            && Committed(items) == Committed(moved)
            && (!wants ==> forall i :: 0 <= i < |items| ==> !items[i].frame.entryAppended)
  {
    hide Committed;
    var snapshot := FilterEntries(Marked(initial), wants);
    var moved := FilterEntries(frames, wants);
    var front := WithoutNotices(snapshot, Notices(moved));
    FilterKeepsSnapshots(Marked(initial), wants, {});
    FilterKeepsSnapshots(snapshot, wants, Notices(moved));
    SnapshotsCommitNothing(front);
    Filtered(Marked(initial), wants, {});
    Filtered(snapshot, wants, Notices(moved));
    Filtered(frames, wants, {});
    CommittedConcat(front, moved);
  }

  lemma MovedCommits(t: Transfer, wants: bool, published: seq<Frame>)
    requires !t.overflowed && GapFreeFinal(t, published)
    ensures t.wants == wants ==> Committed(FilterEntries(t.frames, wants)) == Committed(t.frames)
    ensures t.wants != wants ==> Committed(FilterEntries(AsSnapshots(t.frames), wants)) == []
  {
    if t.wants == wants {
      MovedNotFiltered(t, published);
      FilterKeepsCommitted(t.frames, wants);
    } else {
      FilterKeepsSnapshots(AsSnapshots(t.frames), wants, {});
      SnapshotsCommitNothing(FilterEntries(AsSnapshots(t.frames), wants));
    }
  }

  /** Taking over a final transfer never overflows the new queue and continues without a gap. */
  lemma AttachTransfer(key: string, wants: bool, size: nat, initial: seq<Frame>, t: Transfer, published: seq<Frame>)
    requires t.finalized && !t.overflowed && GapFreeFinal(t, published)
    ensures var x := Attached(key, wants, size, initial, Some(t), |published|);
            && x.Some? && GapFree(x.value, published)
            && (t.wants == wants ==> x.value.log == t.log && x.value.start == t.start)
  {
    hide Committed;
    hide Wanted;
    hide EnqueueAll;
    hide FilterEntries;
    hide WithoutNotices;
    hide AsSnapshots;
    var frames := if t.wants == wants then t.frames else AsSnapshots(t.frames);
    var moved := FilterEntries(frames, wants);
    var items := WithoutNotices(FilterEntries(Marked(initial), wants), Notices(moved)) + moved;
    TakeoverQueue(wants, initial, frames);
    MovedCommits(t, wants, published);
    var x := Sub(key, wants, if size < |items| then |items| else size, [], None, None, false,
                 if t.wants == wants then t.log else [], if t.wants == wants then t.start else |published|);
    EnqueueAllFits(x, items);
    assert [] + items == items;
    NothingCommitted();
    NothingWanted(wants);
    assert published[|published|..] == [];
  }

  lemma NothingWanted(wants: bool)
    ensures Wanted(wants, []) == []
  {}

  lemma MovedNotFiltered(t: Transfer, published: seq<Frame>)
    requires !t.overflowed && GapFreeFinal(t, published)
    ensures !t.wants ==> forall i :: 0 <= i < |Committed(t.frames)| ==> !Committed(t.frames)[i].entryAppended
  {
    WantedAreDue(t.wants, published[t.start..]);
    forall i | 0 <= i < |Committed(t.frames)| && !t.wants ensures !Committed(t.frames)[i].entryAppended {
      assert Wanted(t.wants, published[t.start..])[|Committed(t.log)| + i] == Committed(t.frames)[i];
    }
  }

  // The broadcaster

  /** A transfer is named by the subscription that overflowed into it. */
  datatype State = State(
    published: seq<Frame>,
    nextId: nat,
    subs: map<nat, Sub>,
    leaving: map<nat, Sub>,
    transfers: map<string, nat>,
    instances: map<nat, Transfer>)

  const INITIAL := State([], 0, map[], map[], map[], map[])

  datatype Action =
    | Publish(frame: Frame, order: seq<nat>)
    | Take(id: nat)
    | Deliver(id: nat, ok: bool)
    | Stop(id: nat)
    | Retire(id: nat)
    | FinalizeTransfer(id: nat)
    | Release(key: string, id: nat)
    | RetireAll
    // pending is what an earlier critical section read of the transfer that the subscriber owns.
    | Attach(key: string, wants: bool, size: nat, initial: seq<Frame>, owned: Option<(string, nat)>, pending: bool)

  function Overflowing(st: State, f: Frame): set<nat>
  {
    set id | id in st.subs && Enqueue(st.subs[id], Item(f, false)).None? && st.subs[id].key != ""
  }

  /** The last overflowing subscription of a key owns its transfer; order is the order of the walk. */
  function Owners(transfers: map<string, nat>, subs: map<nat, Sub>, over: set<nat>, order: seq<nat>): map<string, nat>
  {
    if order == [] then transfers else
    var id := order[|order| - 1];
    var before := Owners(transfers, subs, over, order[..|order| - 1]);
    if id in over && id in subs then before[subs[id].key := id] else before
  }

  function DoPublish(st: State, f: Frame, order: seq<nat>): State
  {
    var over := Overflowing(st, f);
    State(
      st.published + [f],
      st.nextId,
      map id | id in st.subs && Enqueue(st.subs[id], Item(f, false)).Some? :: Enqueue(st.subs[id], Item(f, false)).value,
      st.leaving + map id | id in over && id in st.subs :: st.subs[id],
      Owners(st.transfers, st.subs, over, order),
      (map id | id in st.instances ::
         if id in st.transfers.Values && !f.preview then Append(st.instances[id], f) else st.instances[id]) +
      map id | id in over && id in st.subs :: Append(Opened(st.subs[id]), f))
  }

  function Pumped(st: State, id: nat): Option<Sub>
  {
    if id in st.subs then Some(st.subs[id]) else if id in st.leaving then Some(st.leaving[id]) else None
  }

  function SetPumped(st: State, id: nat, x: Sub): State
  {
    if id in st.subs then st.(subs := st.subs[id := x]) else st.(leaving := st.leaving[id := x])
  }

  function PumpTake(x: Sub): Sub
  {
    if x.exited || x.held.Some? || x.failed.Some? || x.q == [] then x else x.(held := Some(x.q[0]), q := x.q[1..])
  }

  /** A delivery that fails ends the pump and keeps the frame. */
  function PumpDeliver(x: Sub, ok: bool): Sub
  {
    if x.held.None? then x
    else if ok then x.(held := None, log := x.log + [x.held.value])
    else x.(held := None, failed := x.held, exited := true)
  }

  /** None when the attach is refused with an overflow error. */
  function Accept(st: State, key: string, wants: bool, size: nat, initial: seq<Frame>, owned: Option<(string, nat)>, pending: bool)
    : Option<State>
  {
    var lost := owned.Some? && pending && (owned.value.0 !in st.transfers || st.transfers[owned.value.0] != owned.value.1);
    if lost then None else
    if key !in st.transfers || st.transfers[key] !in st.instances then
      var x := Attached(key, wants, size, initial, None, |st.published|);
      if x.None? then None else Some(st.(nextId := st.nextId + 1, subs := st.subs[st.nextId := x.value]))
    else
      var id := st.transfers[key];
      var t := st.instances[id];
      if t.overflowed || !t.finalized then None else
      var x := Attached(key, wants, size, initial, Some(t), |st.published|);
      var taken := st.(nextId := st.nextId + 1, transfers := st.transfers - {key},
                       instances := st.instances[id := t.(consumed := true)]);
      if x.None? then None else Some(taken.(subs := taken.subs[st.nextId := x.value]))
  }

  function Next(st: State, a: Action): State
  {
    match a
    case Publish(f, order) => DoPublish(st, f, order)
    case Take(id) => if Pumped(st, id).None? then st else SetPumped(st, id, PumpTake(Pumped(st, id).value))
    case Deliver(id, ok) => if Pumped(st, id).None? then st else SetPumped(st, id, PumpDeliver(Pumped(st, id).value, ok))
    case Stop(id) =>
      if id in st.leaving && st.leaving[id].held.None? then st.(leaving := st.leaving[id := st.leaving[id].(exited := true)]) else st
    case Retire(id) => st.(subs := st.subs - {id})
    case FinalizeTransfer(id) =>
      if id in st.leaving && st.leaving[id].exited && id in st.instances && !st.instances[id].finalized && id in st.transfers.Values
      then var x := st.leaving[id];
           st.(leaving := st.leaving - {id},
               instances := st.instances[id := Finalize(st.instances[id], Undelivered(x)).(log := x.log, start := x.start)])
      else st
    case Release(key, id) =>
      if key in st.transfers && st.transfers[key] == id then st.(transfers := st.transfers - {key}) else st
    case RetireAll => st.(subs := map[], transfers := map[])
    case Attach(key, wants, size, initial, owned, pending) =>
      var r := Accept(st, key, wants, size, initial, owned, pending);
      if r.Some? then r.value else st.(nextId := st.nextId + 1)
  }

  function Run(actions: seq<Action>): State
  {
    if actions == [] then INITIAL else Next(Run(actions[..|actions| - 1]), actions[|actions| - 1])
  }

  /** A registered transfer: open beside its leaving subscription, or final. */
  predicate TransferOk(st: State, id: nat)
  {
    && id in st.instances
    && (if st.instances[id].finalized then GapFreeFinal(st.instances[id], st.published)
        else id in st.leaving && GapFreeLeaving(st.leaving[id], st.instances[id], st.published))
  }

  predicate Inv(st: State)
  {
    && (forall id :: id in st.subs ==> id < st.nextId && id !in st.leaving && GapFree(st.subs[id], st.published))
    && (forall id :: id in st.leaving ==> id < st.nextId)
    && (forall id :: id in st.instances ==> id < st.nextId && id !in st.subs)
    && (forall key :: key in st.transfers ==> TransferOk(st, st.transfers[key]))
  }

  lemma {:induction false} OwnersFrom(transfers: map<string, nat>, subs: map<nat, Sub>, over: set<nat>, order: seq<nat>)
    ensures var o := Owners(transfers, subs, over, order);
            forall key :: key in o ==> (o[key] in over && o[key] in subs) || (key in transfers && o[key] == transfers[key])
  {
    if order != [] { OwnersFrom(transfers, subs, over, order[..|order| - 1]); }
  }

  lemma PublishOpensTransfer(st: State, f: Frame, order: seq<nat>, id: nat)
    requires Inv(st) && id in Overflowing(st, f)
    ensures TransferOk(DoPublish(st, f, order), id)
  {
    hide GapFree, GapFreeLeaving, GapFreeFinal, Owners, Append, TransferOk;
    OverflowKeeps(st.subs[id], f, st.published);
    AppendNeverFinalizes(Opened(st.subs[id]), f);
    var next := DoPublish(st, f, order);
    assert next.leaving[id] == st.subs[id] && next.instances[id] == Append(Opened(st.subs[id]), f);
    OpenTransferOk(next, id);
  }

  lemma OpenTransferOk(st: State, id: nat)
    requires id in st.instances && !st.instances[id].finalized && id in st.leaving
    requires GapFreeLeaving(st.leaving[id], st.instances[id], st.published)
    ensures TransferOk(st, id)
  {}

  lemma PublishAppendsTransfer(st: State, f: Frame, order: seq<nat>, key: string)
    requires Inv(st) && key in st.transfers && st.transfers[key] !in Overflowing(st, f)
    ensures TransferOk(DoPublish(st, f, order), st.transfers[key])
  {
    hide GapFree, GapFreeLeaving, GapFreeFinal, Owners, Append;
    var id, next := st.transfers[key], DoPublish(st, f, order);
    RegisteredApart(st, key);
    assert id in st.transfers.Values;
    AppendNeverFinalizes(st.instances[id], f);
    if st.instances[id].finalized {
      AppendFinalKeeps(st.instances[id], f, st.published);
    } else {
      AppendOpenKeeps(st.leaving[id], st.instances[id], f, st.published);
    }
  }

  lemma PublishKeepsTransfer(st: State, f: Frame, order: seq<nat>, key: string)
    requires Inv(st) && key in DoPublish(st, f, order).transfers
    ensures var next := DoPublish(st, f, order); TransferOk(next, next.transfers[key])
  {
    hide GapFree, TransferOk, Owners, Append, Enqueue;
    OwnersFrom(st.transfers, st.subs, Overflowing(st, f), order);
    var id := DoPublish(st, f, order).transfers[key];
    if id in Overflowing(st, f) {
      PublishOpensTransfer(st, f, order, id);
    } else {
      PublishAppendsTransfer(st, f, order, key);
    }
  }

  /** Publishing keeps subscriptions, leavers and transfers apart. */
  lemma PublishKeepsIds(st: State, f: Frame, order: seq<nat>)
    requires Inv(st)
    ensures var next := DoPublish(st, f, order);
            && (forall id :: id in next.subs ==> id in st.subs && id < next.nextId && id !in next.leaving)
            && (forall id :: id in next.leaving ==> id < next.nextId)
            && (forall id :: id in next.instances ==> id < next.nextId && id !in next.subs)
  {
    hide GapFree, TransferOk, Owners, Append, Enqueue, Opened;
  }

  lemma PublishKeepsSub(st: State, f: Frame, order: seq<nat>, id: nat)
    requires Inv(st) && id in DoPublish(st, f, order).subs
    ensures var next := DoPublish(st, f, order); GapFree(next.subs[id], next.published)
  {
    hide GapFree, TransferOk, Owners, Append, Enqueue, Opened;
    EnqueueKeeps(st.subs[id], f, st.published);
  }

  lemma PublishKeeps(st: State, f: Frame, order: seq<nat>)
    requires Inv(st)
    ensures Inv(DoPublish(st, f, order))
  {
    hide GapFree, TransferOk, DoPublish;
    PublishKeepsIds(st, f, order);
    var next := DoPublish(st, f, order);
    forall id | id in next.subs ensures GapFree(next.subs[id], next.published) { PublishKeepsSub(st, f, order, id); }
    forall key | key in next.transfers ensures TransferOk(next, next.transfers[key]) {
      PublishKeepsTransfer(st, f, order, key);
    }
  }

  lemma AppendNeverFinalizes(t: Transfer, f: Frame)
    ensures Append(t, f).finalized == t.finalized
  {}

  /** A pump step moves a frame without losing it. */
  predicate SameStream(x: Sub, y: Sub)
  {
    WfSub(y) && Stream(y) == Stream(x) && y.cap == x.cap && y.wants == x.wants && y.start == x.start
  }

  lemma PumpTakeKeeps(x: Sub)
    requires WfSub(x)
    ensures SameStream(x, PumpTake(x))
  {
    assert Undelivered(PumpTake(x)) == Undelivered(x);
  }

  lemma PumpDeliverKeeps(x: Sub, ok: bool)
    requires WfSub(x)
    ensures SameStream(x, PumpDeliver(x, ok))
  {
    hide Committed;
    if x.held.Some? {
      CommittedConcat(x.log, [x.held.value]);
      CommittedConcat([x.held.value], x.q);
      assert [] + x.q == x.q;
    }
  }

  lemma SameStreamGapFree(x: Sub, y: Sub, published: seq<Frame>)
    requires GapFree(x, published) && SameStream(x, y)
    ensures GapFree(y, published)
  {
    hide Stream, Wanted;
  }

  lemma SameStreamLeaving(x: Sub, y: Sub, t: Transfer, published: seq<Frame>)
    requires GapFreeLeaving(x, t, published) && SameStream(x, y)
    ensures GapFreeLeaving(y, t, published)
  {
    hide Stream, Wanted, Committed;
  }

  lemma GapFreeWf(x: Sub, published: seq<Frame>)
    requires GapFree(x, published)
    ensures WfSub(x)
  {}

  lemma PumpKeepsTransfer(st: State, id: nat, y: Sub, t: nat)
    requires Pumped(st, id).Some? && (WfSub(Pumped(st, id).value) ==> SameStream(Pumped(st, id).value, y))
    requires TransferOk(st, t) && t !in st.subs
    ensures TransferOk(SetPumped(st, id, y), t)
  {
    hide GapFreeFinal, SameStream, Stream, Wanted, Committed;
    if !st.instances[t].finalized && t == id {
      SameStreamLeaving(st.leaving[id], y, st.instances[t], st.published);
    }
  }

  lemma PumpKeeps(st: State, id: nat, y: Sub)
    requires Inv(st) && Pumped(st, id).Some? && (WfSub(Pumped(st, id).value) ==> SameStream(Pumped(st, id).value, y))
    ensures Inv(SetPumped(st, id, y))
  {
    hide GapFree, SameStream, TransferOk, WfSub;
    var next := SetPumped(st, id, y);
    if id in st.subs {
      GapFreeWf(st.subs[id], st.published);
      SameStreamGapFree(st.subs[id], y, st.published);
    }
    forall key | key in next.transfers ensures TransferOk(next, next.transfers[key]) {
      RegisteredApart(st, key);
      PumpKeepsTransfer(st, id, y, st.transfers[key]);
    }
  }

  lemma RegisteredApart(st: State, key: string)
    requires Inv(st) && key in st.transfers
    ensures TransferOk(st, st.transfers[key]) && st.transfers[key] !in st.subs
  {
    hide GapFree;
    assert TransferOk(st, st.transfers[key]);
  }

  lemma FinalizeStepKeeps(st: State, id: nat)
    requires Inv(st)
    ensures Inv(Next(st, FinalizeTransfer(id)))
  {
    hide GapFree;
    hide GapFreeLeaving;
    hide GapFreeFinal;
    hide Finalize;
    var next := Next(st, FinalizeTransfer(id));
    if next != st {
      var k :| k in st.transfers && st.transfers[k] == id;
      assert TransferOk(st, id);
      FinalizeKeeps(st.leaving[id], st.instances[id], st.published);
      Finalizes(st.instances[id], Undelivered(st.leaving[id]));
      forall key | key in next.transfers ensures TransferOk(next, next.transfers[key]) {
        assert TransferOk(st, st.transfers[key]);
      }
    }
  }

  lemma Finalizes(t: Transfer, prefix: seq<Item>)
    ensures Finalize(t, prefix).finalized
  {}

  /** The subscription that an attach adds. */
  lemma AttachAdds(st: State, a: Action)
    requires Inv(st) && a.Attach?
    ensures var r := Accept(st, a.key, a.wants, a.size, a.initial, a.owned, a.pending);
            r.Some? ==>
              && st.nextId in r.value.subs && GapFree(r.value.subs[st.nextId], st.published)
              && r.value.subs == st.subs[st.nextId := r.value.subs[st.nextId]]
              && r.value.published == st.published && r.value.leaving == st.leaving && r.value.nextId == st.nextId + 1
              && r.value.transfers.Keys <= st.transfers.Keys
              && (forall k :: k in r.value.transfers ==> r.value.transfers[k] == st.transfers[k])
              && r.value.instances.Keys == st.instances.Keys
              && (forall id :: id in st.instances ==>
                    r.value.instances[id] == st.instances[id] || r.value.instances[id] == st.instances[id].(consumed := true))
  {
    hide GapFree;
    hide GapFreeLeaving;
    hide GapFreeFinal;
    hide Attached;
    var key, wants, size, initial := a.key, a.wants, a.size, a.initial;
    if key in st.transfers {
      assert TransferOk(st, st.transfers[key]);
      var t := st.instances[st.transfers[key]];
      if t.finalized && !t.overflowed {
        AttachTransfer(key, wants, size, initial, t, st.published);
      }
    } else if Attached(key, wants, size, initial, None, |st.published|).Some? {
      AttachFresh(key, wants, size, initial, st.published);
    }
  }

  lemma AttachKeeps(st: State, a: Action)
    requires Inv(st) && a.Attach?
    ensures Inv(Next(st, a))
  {
    hide GapFree;
    hide GapFreeLeaving;
    hide GapFreeFinal;
    hide Accept;
    var next := Next(st, a);
    AttachAdds(st, a);
    forall k | k in next.transfers ensures TransferOk(next, next.transfers[k]) {
      assert TransferOk(st, st.transfers[k]);
      ConsumedKeeps(st.instances[st.transfers[k]], st.published);
    }
  }

  lemma ConsumedKeeps(t: Transfer, published: seq<Frame>)
    ensures GapFreeFinal(t.(consumed := true), published) == GapFreeFinal(t, published)
    ensures forall x :: GapFreeLeaving(x, t.(consumed := true), published) == GapFreeLeaving(x, t, published)
  {}

  lemma RemovalKeeps(st: State, subs: map<nat, Sub>, transfers: map<string, nat>)
    requires Inv(st)
    requires forall id :: id in subs ==> id in st.subs && subs[id] == st.subs[id]
    requires forall key :: key in transfers ==> key in st.transfers && transfers[key] == st.transfers[key]
    ensures Inv(st.(subs := subs, transfers := transfers))
  {
    hide GapFree;
    hide GapFreeLeaving;
    hide GapFreeFinal;
    forall key | key in transfers ensures TransferOk(st.(subs := subs, transfers := transfers), transfers[key]) {
      assert TransferOk(st, st.transfers[key]);
    }
  }

  lemma PumpStepKeeps(st: State, a: Action)
    requires Inv(st) && (a.Take? || a.Deliver? || a.Stop?)
    ensures Inv(Next(st, a))
  {
    hide Inv;
    hide Committed;
    if Pumped(st, a.id).Some? {
      var x := Pumped(st, a.id).value;
      if a.Take? {
        if WfSub(x) { PumpTakeKeeps(x); }
        PumpKeeps(st, a.id, PumpTake(x));
      } else if a.Deliver? {
        if WfSub(x) { PumpDeliverKeeps(x, a.ok); }
        PumpKeeps(st, a.id, PumpDeliver(x, a.ok));
      } else if a.id in st.leaving && st.leaving[a.id].held.None? {
        StoppedKeeps(st, a.id);
      }
    }
  }

  lemma StoppedKeeps(st: State, id: nat)
    requires Inv(st) && id in st.leaving && st.leaving[id].held.None?
    ensures Inv(st.(leaving := st.leaving[id := st.leaving[id].(exited := true)]))
  {
    hide Committed;
    hide Wanted;
    var y := st.leaving[id].(exited := true);
    assert Undelivered(y) == Undelivered(st.leaving[id]);
    PumpKeeps(st, id, y);
    assert id !in st.subs;
  }

  lemma StepKeeps(st: State, a: Action)
    requires Inv(st)
    ensures Inv(Next(st, a))
  {
    hide Inv;
    hide DoPublish;
    hide Accept;
    match a
    case Publish(f, order) => PublishKeeps(st, f, order);
    case Take(_) => PumpStepKeeps(st, a);
    case Deliver(_, _) => PumpStepKeeps(st, a);
    case Stop(_) => PumpStepKeeps(st, a);
    case Retire(id) => RemovalKeeps(st, st.subs - {id}, st.transfers);
    case FinalizeTransfer(id) => FinalizeStepKeeps(st, id);
    case Release(key, _) => RemovalKeeps(st, st.subs, st.transfers - {key});
    case RetireAll => RemovalKeeps(st, map[], map[]);
    case Attach(_, _, _, _, _, _) => AttachKeeps(st, a);
  }

  lemma {:induction false} RunKeeps(actions: seq<Action>)
    ensures Inv(Run(actions))
  {
    if actions != [] {
      RunKeeps(actions[..|actions| - 1]);
      StepKeeps(Run(actions[..|actions| - 1]), actions[|actions| - 1]);
    }
  }

  // What every run of the broadcaster guarantees

  /**
    What a client has received over its subscription and all that it took over, followed
    by what is still on its way, is every due frame published since it first attached,
    once and in order.
   */
  lemma SubscriberSeesEveryFrame(actions: seq<Action>, id: nat)
    requires id in Run(actions).subs
    ensures var x := Run(actions).subs[id];
            && x.start <= |Run(actions).published|
            && Committed(x.log) + Committed(Undelivered(x)) == Wanted(x.wants, Run(actions).published[x.start..])
  {
    RunKeeps(actions);
  }

  /** The transfer that the subscriber owns was still to be consumed, and is no longer registered. */
  predicate OwnedLost(st: State, owned: Option<(string, nat)>, pending: bool)
  {
    owned.Some? && pending && (owned.value.0 !in st.transfers || st.transfers[owned.value.0] != owned.value.1)
  }

  /**
    An attach for a registered transfer continues its history exactly, unless the owned
    transfer was lost or the registered one is not final or has overflowed; then, and only
    then, it is refused.
   */
  lemma ReattachContinuesOrIsRefused(actions: seq<Action>, a: Action)
    requires a.Attach? && a.key in Run(actions).transfers
    ensures var st := Run(actions);
            var id := st.transfers[a.key];
            var r := Accept(st, a.key, a.wants, a.size, a.initial, a.owned, a.pending);
            && id in st.instances
            && |st.instances[id].frames| <= TRANSFER_CAPACITY
            && (r.None? <==> OwnedLost(st, a.owned, a.pending) || !st.instances[id].finalized || st.instances[id].overflowed)
            && (r.Some? && st.instances[id].wants == a.wants ==>
                  && st.nextId in r.value.subs
                  && var x := r.value.subs[st.nextId];
                     x.log == st.instances[id].log && x.start == st.instances[id].start && GapFree(x, st.published))
  {
    hide GapFree, GapFreeLeaving, Attached, Run;
    RunKeeps(actions);
    var st := Run(actions);
    RegisteredApart(st, a.key);
    var t := st.instances[st.transfers[a.key]];
    TransferBounded(st, st.transfers[a.key]);
    if t.finalized && !t.overflowed {
      AttachTransfer(a.key, a.wants, a.size, a.initial, t, st.published);
    }
  }

  lemma TransferBounded(st: State, id: nat)
    requires TransferOk(st, id)
    ensures |st.instances[id].frames| <= TRANSFER_CAPACITY
  {}

  /** Finalizing a registered transfer never newly overflows it. */
  lemma FinalizeNeverOverflows(actions: seq<Action>, key: string)
    requires key in Run(actions).transfers
    ensures var st := Run(actions);
            var id := st.transfers[key];
            && id in st.instances
            && (!st.instances[id].finalized && id in st.leaving && st.leaving[id].exited && !st.instances[id].overflowed ==>
                  !Finalize(st.instances[id], Undelivered(st.leaving[id])).overflowed)
  {
    RunKeeps(actions);
    var st := Run(actions);
    var id := st.transfers[key];
    assert TransferOk(st, id);
    if !st.instances[id].finalized && st.leaving[id].exited {
      FinalizeKeeps(st.leaving[id], st.instances[id], st.published);
    }
  }
}
