/**
  From an overflow to the subscriber that takes over.  What each action of the broadcaster
  does is stated in fields of the state; then the whole way is followed: a full queue, its
  transfer, any interleaving of other actions, and the attach for the same key.
 */
module OverflowHandover {
  import opened Wrappers
  import opened Broadcast

  lemma RunSnoc(actions: seq<Action>, a: Action)
    ensures Run(actions + [a]) == Next(Run(actions), a)
  {
    assert (actions + [a])[..|actions|] == actions;
  }

  lemma RunConcat(actions: seq<Action>, more: seq<Action>, a: Action)
    ensures Run(actions + (more + [a])) == Next(Run(actions + more), a)
  {
    assert actions + (more + [a]) == (actions + more) + [a];
    RunSnoc(actions + more, a);
  }

  /** No room for a frame that the subscriber must get. */
  predicate Full(x: Sub, f: Frame)
  {
    |x.q| >= x.cap && !f.preview && (x.wants || !f.entryAppended)
  }

  // What the actions do

  /**
    A publication reaches every subscription that wants it: behind its queue while there is
    room; a full queue sheds a preview, and for any other frame the subscription ends.
   */
  lemma PublishActs(actions: seq<Action>, f: Frame, order: seq<nat>, id: nat)
    requires id in Run(actions).subs
    ensures var st, next := Run(actions), Run(actions + [Publish(f, order)]);
            var x := st.subs[id];
            && next.published == st.published + [f]
            && (id !in next.subs <==> Full(x, f))
            && (Full(x, f) && x.key != "" ==> id in next.leaving && next.leaving[id] == x)
            && (!Full(x, f) ==>
                  next.subs[id] == if |x.q| < x.cap && (x.wants || !f.entryAppended) then x.(q := x.q + [Item(f, false)]) else x)
  {
    hide Run, Owners;
    RunSnoc(actions, Publish(f, order));
  }

  /** It goes to every registered transfer as well, unless it is a preview. */
  lemma PublishFeedsTransfers(actions: seq<Action>, f: Frame, order: seq<nat>, key: string)
    requires key in Run(actions).transfers
    requires forall id :: id in Run(actions).subs && Run(actions).subs[id].key == key ==> !Full(Run(actions).subs[id], f)
    ensures var st, next := Run(actions), Run(actions + [Publish(f, order)]);
            var id := st.transfers[key];
            && key in next.transfers && next.transfers[key] == id && id in st.instances && id in next.instances
            && var t := st.instances[id];
               var full := t.overflowed || (if t.finalized then |t.frames| else t.reserved + |t.suffix|) >= 256;
               next.instances[id] ==
                 if f.preview || (f.entryAppended && !t.wants) then t
                 else if full then t.(overflowed := true)
                 else if t.finalized then t.(frames := t.frames + [Item(f, false)])
                 else t.(suffix := t.suffix + [Item(f, false)])
  {
    hide Run, Owners, GapFree, GapFreeLeaving, GapFreeFinal;
    RunSnoc(actions, Publish(f, order));
    var st := Run(actions);
    RunKeeps(actions);
    RegisteredApart(st, key);
    assert st.transfers[key] in st.transfers.Values;
    OwnersKept(st.transfers, st.subs, Overflowing(st, f), order, key);
  }

  lemma {:induction false} OwnersKept(transfers: map<string, nat>, subs: map<nat, Sub>, over: set<nat>, order: seq<nat>, key: string)
    requires forall i :: i in over && i in subs ==> subs[i].key != key
    ensures var o := Owners(transfers, subs, over, order);
            (key in o <==> key in transfers) && (key in transfers ==> o[key] == transfers[key])
  {
    if order != [] { OwnersKept(transfers, subs, over, order[..|order| - 1], key); }
  }

  lemma {:induction false} OwnerIsLast(transfers: map<string, nat>, subs: map<nat, Sub>, over: set<nat>, order: seq<nat>, k: nat)
    requires k < |order| && order[k] in over && order[k] in subs
    requires forall m :: k < m < |order| && order[m] in over && order[m] in subs ==> subs[order[m]].key != subs[order[k]].key
    ensures var o := Owners(transfers, subs, over, order); subs[order[k]].key in o && o[subs[order[k]].key] == order[k]
  {
    if k < |order| - 1 {
      OwnerIsLast(transfers, subs, over, order[..|order| - 1], k);
    }
  }

  /** The k-th subscription of the walk overflows, and is the last of its key to do so. */
  predicate Overflows(st: State, f: Frame, order: seq<nat>, k: nat)
  {
    && k < |order| && order[k] in st.subs && Full(st.subs[order[k]], f) && st.subs[order[k]].key != ""
    && forall m :: k < m < |order| && order[m] in st.subs && st.subs[order[m]].key == st.subs[order[k]].key ==>
         !Full(st.subs[order[m]], f)
  }

  /** An overflow ends the subscription and registers a transfer for its key that starts with the frame. */
  lemma OverflowRegisters(actions: seq<Action>, f: Frame, order: seq<nat>, k: nat)
    requires Overflows(Run(actions), f, order, k)
    ensures var st, next := Run(actions), Run(actions + [Publish(f, order)]);
            var id := order[k];
            var x := st.subs[id];
            && id !in next.subs && id in next.leaving && next.leaving[id] == x
            && x.key in next.transfers && next.transfers[x.key] == id && id in next.instances
            && next.instances[id] ==
                 if x.cap + 1 >= 256 then Transfer([], [], x.cap + 1, false, true, false, x.wants, [], 0)
                 else Transfer([], [Item(f, false)], x.cap + 1, false, false, false, x.wants, [], 0)
  {
    hide Run, Owners, Append, Opened, Overflowing, Full;
    var st := Run(actions);
    RunSnoc(actions, Publish(f, order));
    PublishActs(actions, f, order, order[k]);
    forall id ensures id in Overflowing(st, f) <==> id in st.subs && Full(st.subs[id], f) && st.subs[id].key != "" {
      OverflowingIsFull(st, f, id);
    }
    OwnerIsLast(st.transfers, st.subs, Overflowing(st, f), order, k);
    FullWants(st.subs[order[k]], f);
    FirstAppended(st.subs[order[k]], f);
  }

  lemma OverflowingIsFull(st: State, f: Frame, id: nat)
    ensures id in Overflowing(st, f) <==> id in st.subs && Full(st.subs[id], f) && st.subs[id].key != ""
  {}

  lemma FirstAppended(x: Sub, f: Frame)
    requires x.wants || !f.entryAppended
    ensures Append(Opened(x), f) ==
            if x.cap + 1 >= 256 then Transfer([], [], x.cap + 1, false, true, false, x.wants, [], 0)
            else Transfer([], [Item(f, false)], x.cap + 1, false, false, false, x.wants, [], 0)
  {}

  lemma FullWants(x: Sub, f: Frame)
    requires Full(x, f)
    ensures x.wants || !f.entryAppended
  {}

  /** The pump takes the oldest queued frame while it holds none and has not failed. */
  lemma TakeActs(actions: seq<Action>, id: nat)
    ensures var st, next := Run(actions), Run(actions + [Take(id)]);
            && next == st.(subs := next.subs, leaving := next.leaving)
            && next.subs.Keys == st.subs.Keys && next.leaving.Keys == st.leaving.Keys
            && (forall i :: i in st.subs && i != id ==> next.subs[i] == st.subs[i])
            && (forall i :: i in st.leaving && (i != id || id in st.subs) ==> next.leaving[i] == st.leaving[i])
            && (id in st.subs ==> var x := st.subs[id];
                  next.subs[id] == if x.exited || x.held.Some? || x.failed.Some? || x.q == [] then x
                                   else x.(held := Some(x.q[0]), q := x.q[1..]))
            && (id in st.leaving && id !in st.subs ==> var x := st.leaving[id];
                  next.leaving[id] == if x.exited || x.held.Some? || x.failed.Some? || x.q == [] then x
                                      else x.(held := Some(x.q[0]), q := x.q[1..]))
  {
    hide Run;
    RunSnoc(actions, Take(id));
  }

  /** A delivery of the held frame reaches the client, or fails, keeps the frame and ends the pump. */
  lemma DeliverActs(actions: seq<Action>, id: nat, ok: bool)
    ensures var st, next := Run(actions), Run(actions + [Deliver(id, ok)]);
            && next == st.(subs := next.subs, leaving := next.leaving)
            && next.subs.Keys == st.subs.Keys && next.leaving.Keys == st.leaving.Keys
            && (forall i :: i in st.subs && i != id ==> next.subs[i] == st.subs[i])
            && (forall i :: i in st.leaving && (i != id || id in st.subs) ==> next.leaving[i] == st.leaving[i])
            && (id in st.subs ==> var x := st.subs[id];
                  next.subs[id] == if x.held.None? then x
                                   else if ok then x.(held := None, log := x.log + [x.held.value])
                                   else x.(held := None, failed := x.held, exited := true))
            && (id in st.leaving && id !in st.subs ==> var x := st.leaving[id];
                  next.leaving[id] == if x.held.None? then x
                                      else if ok then x.(held := None, log := x.log + [x.held.value])
                                      else x.(held := None, failed := x.held, exited := true))
  {
    hide Run;
    RunSnoc(actions, Deliver(id, ok));
  }

  /** A leaving pump that holds no frame exits. */
  lemma StopActs(actions: seq<Action>, id: nat)
    ensures var st, next := Run(actions), Run(actions + [Stop(id)]);
            next == if id in st.leaving && st.leaving[id].held.None?
                    then st.(leaving := st.leaving[id := st.leaving[id].(exited := true)]) else st
  {
    hide Run;
    RunSnoc(actions, Stop(id));
  }

  /** Once its pump has exited, a registered transfer is completed with what was not delivered in front. */
  lemma FinalizeActs(actions: seq<Action>, key: string)
    requires key in Run(actions).transfers
    ensures var st := Run(actions);
            var id := st.transfers[key];
            var next := Run(actions + [FinalizeTransfer(id)]);
            && id in st.instances && next.transfers == st.transfers && next.subs == st.subs && next.published == st.published
            && (st.instances[id].finalized || (id in st.leaving && !st.leaving[id].exited) ==> next == st)
            && (!st.instances[id].finalized ==> id in st.leaving)
            && (!st.instances[id].finalized && st.leaving[id].exited ==>
                  && var t, x := st.instances[id], st.leaving[id];
                     && id !in next.leaving && next.instances.Keys == st.instances.Keys
                     && next.instances[id].finalized && next.instances[id].overflowed == t.overflowed
                     && next.instances[id].log == x.log && next.instances[id].start == x.start && next.instances[id].wants == x.wants
                     && (!t.overflowed ==>
                           next.instances[id].frames == (if x.failed.Some? then [x.failed.value] else []) + x.q + t.suffix))
  {
    hide Run, GapFree, Stream, Wanted, Committed;
    RunKeeps(actions);
    var st := Run(actions);
    var id := st.transfers[key];
    RegisteredApart(st, key);
    assert id in st.transfers.Values;
    RunSnoc(actions, FinalizeTransfer(id));
    if !st.instances[id].finalized && st.leaving[id].exited {
      FinalizeKeeps(st.leaving[id], st.instances[id], st.published);
      assert st.leaving[id].held.None?;
      assert [] + st.leaving[id].q == st.leaving[id].q;
    }
  }

  /** Retiring, releasing and retiring all take away what they name and nothing else. */
  lemma RemovalsAct(actions: seq<Action>, id: nat, key: string)
    ensures var st := Run(actions);
            && (var next := Run(actions + [Retire(id)]);
                id !in next.subs && next == st.(subs := next.subs) && forall i :: i != id ==> (i in next.subs <==> i in st.subs) && (i in st.subs ==> next.subs[i] == st.subs[i]))
            && (var next := Run(actions + [Release(key, id)]);
                && next == st.(transfers := next.transfers)
                && (forall k :: k != key ==> (k in next.transfers <==> k in st.transfers) && (k in st.transfers ==> next.transfers[k] == st.transfers[k]))
                && (key in next.transfers <==> key in st.transfers && st.transfers[key] != id)
                && (key in next.transfers ==> next.transfers[key] == st.transfers[key]))
            && Run(actions + [RetireAll]) == st.(subs := map[], transfers := map[])
  {
    hide Run;
    RunSnoc(actions, Retire(id));
    RunSnoc(actions, Release(key, id));
    RunSnoc(actions, RetireAll);
  }

  // The way of one overflow

  /** The action does not take the key's transfer away: no release or retirement, no attach for the key, no further overflow of it. */
  predicate Leaves(st: State, a: Action, key: string, id: nat)
  {
    match a
    case Publish(f, _) => forall i :: i in st.subs && st.subs[i].key == key ==> !Full(st.subs[i], f)
    case Release(k, i) => k != key || i != id
    case RetireAll => false
    case Attach(k, _, _, _, _, _) => k != key
    case _ => true
  }

  predicate Undisturbed(actions: seq<Action>, more: seq<Action>, key: string, id: nat)
  {
    forall n: nat :: n < |more| ==> Leaves(Run(actions + more[..n]), more[n], key, id)
  }

  /** What stays of an overflow before publication n: the transfer of its subscription, still registered for the key. */
  predicate Carries(st: State, was: Sub, id: nat, n: nat)
  {
    && was.key in st.transfers && st.transfers[was.key] == id && id in st.instances && id !in st.subs && n <= |st.published|
    && st.instances[id].wants == was.wants
    && (!st.instances[id].finalized ==> id in st.leaving && CarriesOpen(st.leaving[id], st.instances[id], was, st.published[n..]))
    && (st.instances[id].finalized && !st.instances[id].overflowed ==>
          st.instances[id].start == was.start && was.log <= st.instances[id].log)
  }

  /** Open, it keeps one place for each frame not yet delivered and one for each due frame since; 256 in all. */
  predicate CarriesOpen(x: Sub, t: Transfer, was: Sub, since: seq<Frame>)
  {
    && x.start == was.start && x.cap == was.cap && x.wants == was.wants && was.log <= x.log && t.reserved == was.cap + 1
    && (t.overflowed <==> was.cap + 1 + |Wanted(was.wants, since)| > 256)
    && (!t.overflowed ==> |t.suffix| == |Wanted(was.wants, since)|)
  }

  lemma WantedOne(wants: bool, f: Frame)
    requires Due(wants, f)
    ensures Wanted(wants, [f]) == [f]
  {
    WantedSnoc(wants, [], f);
    assert [] + [f] == [f];
  }

  lemma OverflowCarries(actions: seq<Action>, f: Frame, order: seq<nat>, k: nat)
    requires Overflows(Run(actions), f, order, k)
    ensures var st := Run(actions);
            Carries(Run(actions + [Publish(f, order)]), st.subs[order[k]], order[k], |st.published|)
  {
    hide Run, Wanted;
    var st := Run(actions);
    OverflowRegisters(actions, f, order, k);
    PublishActs(actions, f, order, order[k]);
    WantedOne(st.subs[order[k]].wants, f);
    assert (st.published + [f])[|st.published|..] == [f];
  }

  lemma PublishCarries(actions: seq<Action>, f: Frame, order: seq<nat>, was: Sub, id: nat, n: nat)
    requires Carries(Run(actions), was, id, n) && Leaves(Run(actions), Publish(f, order), was.key, id)
    ensures Carries(Run(actions + [Publish(f, order)]), was, id, n)
  {
    hide Run, Wanted, DoPublish;
    var st, next := Run(actions), Run(actions + [Publish(f, order)]);
    PublishFeedsTransfers(actions, f, order, was.key);
    RunKeeps(actions);
    PublishApart(st, f, order, id);
    RunSnoc(actions, Publish(f, order));
    assert (st.published + [f])[n..] == st.published[n..] + [f];
    WantedSnoc(was.wants, st.published[n..], f);
  }

  lemma PublishApart(st: State, f: Frame, order: seq<nat>, id: nat)
    requires id !in st.subs
    ensures var next := DoPublish(st, f, order);
            && id !in next.subs && next.published == st.published + [f]
            && (id in st.leaving ==> id in next.leaving && next.leaving[id] == st.leaving[id])
  {
    hide Owners, Append, Opened, Enqueue;
  }

  lemma AttachCarries(st: State, a: Action, was: Sub, id: nat, n: nat)
    requires Inv(st) && Carries(st, was, id, n) && a.Attach? && a.key != was.key
    ensures Carries(Next(st, a), was, id, n)
  {
    hide GapFree, GapFreeLeaving, GapFreeFinal, Attached, Wanted;
  }

  lemma PumpCarries(actions: seq<Action>, a: Action, was: Sub, id: nat, n: nat)
    requires Carries(Run(actions), was, id, n) && (a.Take? || a.Deliver? || a.Stop?)
    ensures Carries(Run(actions + [a]), was, id, n)
  {
    hide Run, Wanted;
    match a
    case Take(i) => TakeActs(actions, i);
    case Deliver(i, ok) => DeliverActs(actions, i, ok);
    case Stop(i) => StopActs(actions, i);
  }

  lemma FinalizeCarries(actions: seq<Action>, i: nat, was: Sub, id: nat, n: nat)
    requires Carries(Run(actions), was, id, n)
    ensures Carries(Run(actions + [FinalizeTransfer(i)]), was, id, n)
  {
    hide Run, Wanted;
    if i == id {
      FinalizeActs(actions, was.key);
    } else {
      RunSnoc(actions, FinalizeTransfer(i));
    }
  }

  lemma StepCarries(actions: seq<Action>, a: Action, was: Sub, id: nat, n: nat)
    requires Carries(Run(actions), was, id, n) && Leaves(Run(actions), a, was.key, id)
    ensures Carries(Run(actions + [a]), was, id, n)
  {
    hide Run, CarriesOpen;
    match a
    case Publish(f, order) => PublishCarries(actions, f, order, was, id, n);
    case Take(_) => PumpCarries(actions, a, was, id, n);
    case Deliver(_, _) => PumpCarries(actions, a, was, id, n);
    case Stop(_) => PumpCarries(actions, a, was, id, n);
    case Retire(i) => RemovalsAct(actions, i, "");
    case FinalizeTransfer(i) => FinalizeCarries(actions, i, was, id, n);
    case Release(key, i) => RemovalsAct(actions, i, key);
    case RetireAll => assert false;
    case Attach(_, _, _, _, _, _) =>
      RunKeeps(actions);
      RunSnoc(actions, a);
      AttachCarries(Run(actions), a, was, id, n);
  }

  lemma {:induction false} RunCarries(actions: seq<Action>, more: seq<Action>, was: Sub, id: nat, n: nat)
    requires Carries(Run(actions), was, id, n) && Undisturbed(actions, more, was.key, id)
    ensures Carries(Run(actions + more), was, id, n)
  {
    hide Run, Carries, Leaves;
    if more == [] {
      assert actions + more == actions;
    } else {
      var most, a := more[..|more| - 1], more[|more| - 1];
      assert Undisturbed(actions, most, was.key, id) by {
        assert forall m: nat :: m < |most| ==> most[..m] == more[..m] && most[m] == more[m];
      }
      RunCarries(actions, most, was, id, n);
      assert Leaves(Run(actions + more[..|more| - 1]), more[|more| - 1], was.key, id);
      StepCarries(actions + most, a, was, id, n);
      assert actions + more == actions + most + [a];
    }
  }

  // What an attach queues

  /** At are the positions of items that hold, in order, and picked is what stands there. */
  predicate Picks(items: seq<Item>, picked: seq<Item>, at: seq<nat>)
  {
    && |at| == |picked|
    && (forall j :: 0 <= j < |at| ==> at[j] < |items| && picked[j] == items[at[j]])
    && forall i, j :: 0 <= i < j < |at| ==> at[i] < at[j]
  }

  lemma PicksSnoc(items: seq<Item>, picked: seq<Item>, at: seq<nat>, last: Item)
    requires Picks(items, picked, at)
    ensures Picks(items + [last], picked, at) && Picks(items + [last], picked + [last], at + [|items|])
  {}

  /** Clients without the capability get exactly the frames that are not entry_appended, in order. */
  lemma {:induction false} FilterPicks(items: seq<Item>, wants: bool) returns (at: seq<nat>)
    ensures Picks(items, FilterEntries(items, wants), at)
    ensures forall i: nat :: i in at <==> i < |items| && (wants || !items[i].frame.entryAppended)
  {
    if items == [] {
      at := [];
    } else if wants {
      at := seq(|items|, i requires 0 <= i < |items| => i);
      forall i: nat | i < |items| ensures i in at { assert at[i] == i; }
    } else {
      var n := |items| - 1;
      at := FilterPicks(items[..n], wants);
      PicksSnoc(items[..n], FilterEntries(items[..n], wants), at, items[n]);
      assert items[..n] + [items[n]] == items;
      assert FilterEntries(items[..n], wants) + [] == FilterEntries(items[..n], wants);
      if !items[n].frame.entryAppended { at := at + [n]; }
    }
  }

  /** The snapshot keeps exactly the frames whose notice is not among those named. */
  lemma {:induction false} NoticePicks(items: seq<Item>, notices: set<string>) returns (at: seq<nat>)
    ensures Picks(items, WithoutNotices(items, notices), at)
    ensures forall i: nat :: i in at <==> i < |items| && !(items[i].frame.notice.Some? && items[i].frame.notice.value in notices)
  {
    if items == [] {
      at := [];
    } else {
      var n := |items| - 1;
      at := NoticePicks(items[..n], notices);
      PicksSnoc(items[..n], WithoutNotices(items[..n], notices), at, items[n]);
      assert items[..n] + [items[n]] == items;
      assert WithoutNotices(items[..n], notices) + [] == WithoutNotices(items[..n], notices);
      if !(items[n].frame.notice.Some? && items[n].frame.notice.value in notices) { at := at + [n]; }
    }
  }

  /** There is room for every item that is wanted and is no preview, counting all wanted items before it. */
  predicate RoomFor(x: Sub, items: seq<Item>)
  {
    forall j :: 0 <= j < |items| && !items[j].frame.preview && (x.wants || !items[j].frame.entryAppended) ==>
      |x.q| + |FilterEntries(items[..j], x.wants)| < x.cap
  }

  lemma RoomSnoc(x: Sub, items: seq<Item>)
    requires items != []
    ensures var n := |items| - 1;
            RoomFor(x, items) <==>
            && RoomFor(x, items[..n])
            && (!items[n].frame.preview && (x.wants || !items[n].frame.entryAppended) ==>
                  |x.q| + |FilterEntries(items[..n], x.wants)| < x.cap)
  {
    hide FilterEntries;
    assert forall j :: 0 <= j < |items| - 1 ==> items[..|items| - 1][..j] == items[..j];
  }

  /** Items are queued while there is room; behind that previews are shed, and any other wanted frame fails. */
  lemma {:induction false} EnqueueAllExact(x: Sub, items: seq<Item>)
    requires |x.q| <= x.cap
    ensures EnqueueAll(x, items).Some? <==> RoomFor(x, items)
    ensures var wanted := FilterEntries(items, x.wants);
            RoomFor(x, items) ==>
              EnqueueAll(x, items).value ==
                x.(q := if |x.q| + |wanted| <= x.cap then x.q + wanted else (x.q + wanted)[..x.cap])
  {
    hide FilterEntries, RoomFor;
    if items == [] {
      assert x.q + [] == x.q;
      NothingFiltered(x);
    } else {
      EnqueueAllExact(x, items[..|items| - 1]);
      RoomSnoc(x, items);
      EnqueueAllStep(x, items);
    }
  }

  lemma NothingFiltered(x: Sub)
    ensures FilterEntries([], x.wants) == [] && RoomFor(x, [])
  {}

  lemma FilterSnoc(items: seq<Item>, wants: bool)
    requires items != []
    ensures FilterEntries(items, wants) ==
            FilterEntries(items[..|items| - 1], wants) +
            (if wants || !items[|items| - 1].frame.entryAppended then [items[|items| - 1]] else [])
  {
    assert items == items[..|items| - 1] + [items[|items| - 1]];
  }

  lemma EnqueueAllStep(x: Sub, items: seq<Item>)
    requires |x.q| <= x.cap && items != []
    requires var wanted := FilterEntries(items[..|items| - 1], x.wants);
             EnqueueAll(x, items[..|items| - 1]).Some? ==>
               EnqueueAll(x, items[..|items| - 1]).value ==
                 x.(q := if |x.q| + |wanted| <= x.cap then x.q + wanted else (x.q + wanted)[..x.cap])
    ensures var before, wanted, last := FilterEntries(items[..|items| - 1], x.wants), FilterEntries(items, x.wants), items[|items| - 1];
            && (EnqueueAll(x, items).Some? <==>
                  && EnqueueAll(x, items[..|items| - 1]).Some?
                  && (!last.frame.preview && (x.wants || !last.frame.entryAppended) ==> |x.q| + |before| < x.cap))
            && (EnqueueAll(x, items).Some? ==>
                  EnqueueAll(x, items).value ==
                    x.(q := if |x.q| + |wanted| <= x.cap then x.q + wanted else (x.q + wanted)[..x.cap]))
  {
    hide FilterEntries;
    FilterSnoc(items, x.wants);
    var before, wanted, last := FilterEntries(items[..|items| - 1], x.wants), FilterEntries(items, x.wants), items[|items| - 1];
    assert x.q + (before + [last]) == (x.q + before) + [last];
    assert before + [] == before;
  }

  /** Without a registered transfer an attach queues its snapshot and starts a new history; it fails when the snapshot does not fit. */
  lemma FreshAttachActs(actions: seq<Action>, a: Action)
    requires a.Attach? && a.key !in Run(actions).transfers
    ensures var st, next := Run(actions), Run(actions + [a]);
            var items := FilterEntries(Marked(a.initial), a.wants);
            var fits := forall j :: 0 <= j < |items| && !items[j].frame.preview ==> j < a.size;
            && next.nextId == st.nextId + 1
            && (if fits && !OwnedLost(st, a.owned, a.pending)
                then next == st.(nextId := st.nextId + 1, subs := st.subs[st.nextId :=
                               Sub(a.key, a.wants, a.size, if |items| <= a.size then items else items[..a.size], None, None, false,
                                   [], |st.published|)])
                else next == st.(nextId := st.nextId + 1))
  {
    hide Run, FilterEntries, Attached;
    RunSnoc(actions, a);
    FreshQueue(a.key, a.wants, a.size, a.initial, |Run(actions).published|);
  }

  lemma FreshQueue(key: string, wants: bool, size: nat, initial: seq<Frame>, now: nat)
    ensures var items := FilterEntries(Marked(initial), wants);
            Attached(key, wants, size, initial, None, now) ==
            if forall j :: 0 <= j < |items| && !items[j].frame.preview ==> j < size
            then Some(Sub(key, wants, size, if |items| <= size then items else items[..size], None, None, false, [], now)) else None
  {
    hide FilterEntries, EnqueueAll;
    var items := FilterEntries(Marked(initial), wants);
    var x := Sub(key, wants, size, [], None, None, false, [], now);
    EnqueueAllExact(x, items);
    Filtered(Marked(initial), wants, {});
    FilteredAgain(items, wants);
    assert [] + items == items;
  }

  /** Filtering what has been filtered, or any part of it, changes nothing. */
  lemma {:induction false} FilteredAgain(items: seq<Item>, wants: bool)
    requires wants || forall i :: 0 <= i < |items| ==> !items[i].frame.entryAppended
    ensures FilterEntries(items, wants) == items
    ensures forall j :: 0 <= j <= |items| ==> FilterEntries(items[..j], wants) == items[..j]
  {
    if items == [] {
      assert items[..0] == items;
    } else {
      var n := |items| - 1;
      FilteredAgain(items[..n], wants);
      FilterSnoc(items, wants);
      assert items[..n] + [items[n]] == items;
      forall j | 0 <= j <= |items| ensures FilterEntries(items[..j], wants) == items[..j] {
        if j <= n { assert items[..n][..j] == items[..j]; } else { assert items[..j] == items; }
      }
    }
  }

  /** A takeover queues the snapshot without the notices that the transfer repeats, then the transfer, and always fits. */
  lemma TakeoverActs(actions: seq<Action>, a: Action)
    requires a.Attach? && a.key in Run(actions).transfers
    ensures var st, next := Run(actions), Run(actions + [a]);
            var id := st.transfers[a.key];
            && id in st.instances
            && var t := st.instances[id];
               var continued := t.wants == a.wants;
               var moved := FilterEntries(if continued then t.frames else AsSnapshots(t.frames), a.wants);
               var items := WithoutNotices(FilterEntries(Marked(a.initial), a.wants), Notices(moved)) + moved;
               if OwnedLost(st, a.owned, a.pending) || !t.finalized || t.overflowed
               then next == st.(nextId := st.nextId + 1)
               else && next.transfers == st.transfers - {a.key} && next.leaving == st.leaving && next.published == st.published
                    && next.nextId == st.nextId + 1
                    && next.subs == st.subs[st.nextId :=
                         Sub(a.key, a.wants, if a.size < |items| then |items| else a.size, items, None, None, false,
                             if continued then t.log else [], if continued then t.start else |st.published|)]
  {
    hide Run, FilterEntries, WithoutNotices, Attached, GapFree, GapFreeLeaving, GapFreeFinal, AsSnapshots, Notices, Marked;
    RunSnoc(actions, a);
    RunKeeps(actions);
    var st := Run(actions);
    RegisteredApart(st, a.key);
    TakeoverAdds(a.key, a.wants, a.size, a.initial, st.instances[st.transfers[a.key]], |st.published|);
  }

  lemma TakeoverAdds(key: string, wants: bool, size: nat, initial: seq<Frame>, t: Transfer, now: nat)
    ensures var continued := t.wants == wants;
            var moved := FilterEntries(if continued then t.frames else AsSnapshots(t.frames), wants);
            var items := WithoutNotices(FilterEntries(Marked(initial), wants), Notices(moved)) + moved;
            Attached(key, wants, size, initial, Some(t), now) ==
            Some(Sub(key, wants, if size < |items| then |items| else size, items, None, None, false,
                     if continued then t.log else [], if continued then t.start else now))
  {
    hide FilterEntries, WithoutNotices, EnqueueAll, AsSnapshots, Notices, Marked;
    var continued := t.wants == wants;
    var frames := if continued then t.frames else AsSnapshots(t.frames);
    var moved := FilterEntries(frames, wants);
    var items := WithoutNotices(FilterEntries(Marked(initial), wants), Notices(moved)) + moved;
    TakeoverQueue(wants, initial, frames);
    var cap := if size < |items| then |items| else size;
    EnqueueAllFits(Sub(key, wants, cap, [], None, None, false, if continued then t.log else [], if continued then t.start else now), items);
    assert [] + items == items;
  }

  // The whole way

  /**
    From a full queue to the next subscriber.  A keyed subscription whose queue is full when
    a frame it must get is published ends.  Whatever happens then, as long as its transfer is
    not released, retired, taken or replaced, an attach for the key with the same capability
    is refused, or what the old client received and what the new one will get is every due
    frame since the old one started, the overflowing frame among them, without a gap.
   */
  lemma OverflowIsHandedOver(actions: seq<Action>, f: Frame, order: seq<nat>, k: nat, more: seq<Action>, a: Action)
    requires Overflows(Run(actions), f, order, k)
    requires Undisturbed(actions + [Publish(f, order)], more, Run(actions).subs[order[k]].key, order[k])
    requires a.Attach? && a.key == Run(actions).subs[order[k]].key && a.wants == Run(actions).subs[order[k]].wants
    ensures var st, now := Run(actions), Run(actions + [Publish(f, order)] + more);
            var next := Run(actions + [Publish(f, order)] + more + [a]);
            var was, id := st.subs[order[k]], now.nextId;
            && order[k] !in now.subs && order[k] in now.instances && id !in now.subs && |st.published| < |now.published|
            && var t := now.instances[order[k]];
               && (id !in next.subs <==> OwnedLost(now, a.owned, a.pending) || !t.finalized || t.overflowed)
               && (!t.finalized ==>
                     (t.overflowed <==> was.cap + 1 + |Wanted(was.wants, now.published[|st.published|..])| > 256))
               && (id in next.subs ==>
                     && var x := next.subs[id];
                        && x.start == was.start && was.start <= |st.published| && was.log <= x.log
                        && now.published[|st.published|] == f && Due(was.wants, f)
                        && Committed(x.log) + Committed(x.q) == Wanted(was.wants, now.published[was.start..]))
  {
    hide Run, GapFree, GapFreeLeaving, GapFreeFinal, Wanted, Committed, Marked, Attached, FilterEntries, WithoutNotices, AsSnapshots, Notices, Undisturbed;
    var st, was := Run(actions), Run(actions).subs[order[k]];
    var begun := actions + [Publish(f, order)];
    OverflowCarries(actions, f, order, k);
    RunCarries(begun, more, was, order[k], |st.published|);
    var now, next := Run(begun + more), Run(begun + more + [a]);
    TakeoverActs(begun + more, a);
    RunKeeps(begun + more);
    RunKeeps(actions);
    PublishActs(actions, f, order, order[k]);
    PublishedGrows(begun, more);
    if now.nextId in next.subs {
      SubscriberSeesEveryFrame(begun + more + [a], now.nextId);
      Started(st, order[k]);
      assert [] + next.subs[now.nextId].q == next.subs[now.nextId].q;
    }
  }

  lemma Started(st: State, id: nat)
    requires Inv(st) && id in st.subs
    ensures st.subs[id].start <= |st.published|
  {}

  lemma {:induction false} PublishedGrows(actions: seq<Action>, more: seq<Action>)
    ensures Run(actions).published <= Run(actions + more).published
  {
    hide Run, Next;
    if more == [] {
      assert actions + more == actions;
    } else {
      var most, a := more[..|more| - 1], more[|more| - 1];
      PublishedGrows(actions, most);
      assert actions + more == (actions + most) + [a];
      RunSnoc(actions + most, a);
      PublishedKept(Run(actions + most), a);
    }
  }

  lemma PublishedKept(st: State, a: Action)
    ensures st.published <= Next(st, a).published
  {
    hide Attached, Owners, Append, Enqueue;
  }

  /** The shortest way: the pump holds nothing and exits, the transfer is completed, and the next attach takes it over. */
  lemma OverflowCompletes(actions: seq<Action>, f: Frame, order: seq<nat>, k: nat, a: Action)
    requires Overflows(Run(actions), f, order, k)
    requires Run(actions).subs[order[k]].held.None? && Run(actions).subs[order[k]].cap + 1 < 256
    requires a.Attach? && a.key == Run(actions).subs[order[k]].key && a.wants == Run(actions).subs[order[k]].wants && a.owned.None?
    ensures var was := Run(actions).subs[order[k]];
            var before := Run(actions + [Publish(f, order)] + [Stop(order[k])] + [FinalizeTransfer(order[k])]);
            var next := Run(actions + [Publish(f, order)] + [Stop(order[k])] + [FinalizeTransfer(order[k])] + [a]);
            var moved := FilterEntries((if was.failed.Some? then [was.failed.value] else []) + was.q + [Item(f, false)], was.wants);
            && before.nextId in next.subs && a.key !in next.transfers
            && next.subs[before.nextId].log == was.log
            && next.subs[before.nextId].q == WithoutNotices(FilterEntries(Marked(a.initial), a.wants), Notices(moved)) + moved
  {
    hide Run, FilterEntries, WithoutNotices, Notices, Marked;
    var id, was := order[k], Run(actions).subs[order[k]];
    var one := actions + [Publish(f, order)];
    var two := one + [Stop(id)];
    var three := two + [FinalizeTransfer(id)];
    OverflowRegisters(actions, f, order, k);
    StopActs(one, id);
    FinalizeActs(two, was.key);
    TakeoverActs(three, a);
  }

  // What the guarantees speak of

  /** The due frames are, in order, those that are no preview and that the capability admits. */
  lemma {:induction false} DuePicks(wants: bool, frames: seq<Frame>) returns (at: seq<nat>)
    ensures |at| == |Wanted(wants, frames)| && forall i, j :: 0 <= i < j < |at| ==> at[i] < at[j]
    ensures forall j :: 0 <= j < |at| ==> at[j] < |frames| && Wanted(wants, frames)[j] == frames[at[j]]
    ensures forall i: nat :: i in at <==> i < |frames| && !frames[i].preview && (wants || !frames[i].entryAppended)
  {
    at := [];
    if frames != [] {
      var n := |frames| - 1;
      at := DuePicks(wants, frames[..n]);
      assert forall i :: 0 <= i < n ==> frames[..n][i] == frames[i];
      if Due(wants, frames[n]) { at := at + [n]; }
    }
  }

  predicate PicksFrames(items: seq<Item>, frames: seq<Frame>, at: seq<nat>)
  {
    && |at| == |frames|
    && (forall j :: 0 <= j < |at| ==> at[j] < |items| && frames[j] == items[at[j]].frame)
    && forall i, j :: 0 <= i < j < |at| ==> at[i] < at[j]
  }

  lemma PicksFramesSnoc(items: seq<Item>, frames: seq<Frame>, at: seq<nat>, last: Item)
    requires PicksFrames(items, frames, at)
    ensures PicksFrames(items + [last], frames, at) && PicksFrames(items + [last], frames + [last.frame], at + [|items|])
  {}

  /** The committed frames are, in order, those published and no preview. */
  lemma {:induction false} CommittedPicks(items: seq<Item>) returns (at: seq<nat>)
    ensures PicksFrames(items, Committed(items), at)
    ensures forall i: nat :: i in at <==> i < |items| && !items[i].snapshot && !items[i].frame.preview
  {
    hide Committed, PicksFrames;
    at := [];
    if items == [] {
      NothingPicked();
    } else {
      var n := |items| - 1;
      at := CommittedPicks(items[..n]);
      CommittedLast(items);
      PicksFramesSnoc(items[..n], Committed(items[..n]), at, items[n]);
      assert items[..n] + [items[n]] == items;
      if !items[n].snapshot && !items[n].frame.preview { at := at + [n]; }
    }
  }

  lemma NothingPicked()
    ensures PicksFrames([], Committed([]), [])
  {}

  lemma CommittedLast(items: seq<Item>)
    requires items != []
    ensures var n := |items| - 1;
            Committed(items) == if items[n].snapshot || items[n].frame.preview then Committed(items[..n])
                                else Committed(items[..n]) + [items[n].frame]
  {}
}
