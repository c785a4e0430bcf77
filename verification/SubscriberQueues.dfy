/** The mutable parts of the broadcaster: one subscription's queue and one overflow transfer. */
module SubscriberQueues {
  import opened Wrappers
  import opened Broadcast

  class OverflowTransfer {
    var frames: seq<Item>
    var suffix: seq<Item>
    var reserved: nat
    var finalized: bool
    var overflowed: bool
    var consumed: bool
    const onDemandHistory: bool

    ghost function Contents(): Transfer
      reads this
    {
      Transfer(frames, suffix, reserved, finalized, overflowed, consumed, onDemandHistory, [], 0)
    }

    constructor (x: Subscription)
      ensures Contents() == Opened(x.Contents())
      ensures frames == suffix == [] && reserved == x.cap + 1 && onDemandHistory == x.onDemandHistory
      ensures !finalized && !overflowed && !consumed
    {
      frames, suffix, reserved := [], [], x.cap + 1;
      finalized, overflowed, consumed, onDemandHistory := false, false, false, x.onDemandHistory;
    }

    method AppendFrame(f: Frame)
      modifies this
      ensures Contents() == Append(old(Contents()), f)
      ensures reserved == old(reserved) && finalized == old(finalized) && consumed == old(consumed)
      ensures var wanted := onDemandHistory || !f.entryAppended;
              var full := old(overflowed) || old(if finalized then |frames| else reserved + |suffix|) >= 256;
              && overflowed == (old(overflowed) || (wanted && full))
              && frames == old(frames) + (if wanted && !full && finalized then [Item(f, false)] else [])
              && suffix == old(suffix) + (if wanted && !full && !finalized then [Item(f, false)] else [])
    {
      if f.entryAppended && !onDemandHistory { return; }
      var size := |frames|;
      if !finalized {
        size := reserved + |suffix|;
      }
      if overflowed || size >= TRANSFER_CAPACITY {
        overflowed := true;
        return;
      }
      if finalized {
        frames := frames + [Item(f, false)];
        return;
      }
      suffix := suffix + [Item(f, false)];
    }

    method FinalizeWith(prefix: seq<Item>)
      modifies this
      ensures Contents() == Finalize(old(Contents()), prefix)
      ensures finalized && consumed == old(consumed)
      ensures old(finalized) ==> frames == old(frames) && suffix == old(suffix) && overflowed == old(overflowed)
      ensures !old(finalized) ==> suffix == [] && reserved == 0
      ensures !old(finalized) ==> overflowed == (old(overflowed) || |prefix| + |old(suffix)| > 256)
      ensures !old(finalized) ==> frames == if |prefix| + |old(suffix)| <= 256 then prefix + old(suffix) else old(frames)
    {
      if finalized { return; }
      if |prefix| + |suffix| > TRANSFER_CAPACITY {
        overflowed, suffix, reserved, finalized := true, [], 0, true;
        return;
      }
      frames := prefix + suffix;
      suffix, reserved, finalized := [], 0, true;
    }
  }

  class Subscription {
    const key: string
    const onDemandHistory: bool
    const cap: nat
    var q: seq<Item>
    var held: Option<Item>
    var failed: Option<Item>
    var exited: bool
    var stopped: bool
    /** The replay gate: while it is shut, live frames wait here with their message sequence. */
    var replaying: bool
    var pendingLive: seq<(Frame, nat)>

    ghost function Contents(): Sub
      reads this
    {
      Sub(key, onDemandHistory, cap, q, held, failed, exited, [], 0)
    }

    constructor (key: string, onDemandHistory: bool, size: nat)
      ensures Contents() == Sub(key, onDemandHistory, size, [], None, None, false, [], 0)
      ensures !stopped && !replaying && pendingLive == []
    {
      this.key, this.onDemandHistory, cap := key, onDemandHistory, size;
      q, held, failed, exited, stopped, replaying, pendingLive := [], None, None, false, false, false, [];
    }

    /**
      Never blocks: sheds a preview at capacity, and otherwise reports the overflow.  A
      retained message carries what the sequence source says, any other frame zero.
     */
    method EnqueueFrame(i: Item, message: bool, source: Option<nat>) returns (ok: bool)
      modifies this`q, this`pendingLive
      ensures stopped ==> !ok
      ensures !stopped && i.frame.entryAppended && !onDemandHistory ==> ok
      ensures stopped || (i.frame.entryAppended && !onDemandHistory) ==> q == old(q) && pendingLive == old(pendingLive)
      ensures !stopped && !replaying ==>
                && (ok <==> Enqueue(old(Contents()), i).Some?) && pendingLive == old(pendingLive)
                && Contents() == (if ok then Enqueue(old(Contents()), i).value else old(Contents()))
      ensures !stopped && !replaying && (onDemandHistory || !i.frame.entryAppended) ==>
                && (ok <==> |old(q)| < cap || i.frame.preview)
                && q == old(q) + if |old(q)| < cap then [i] else []
      ensures !stopped && replaying && (onDemandHistory || !i.frame.entryAppended) ==>
                && q == old(q) && (ok <==> |old(pendingLive)| < cap || i.frame.preview)
                && pendingLive == old(pendingLive) + if |old(pendingLive)| < cap then [(i.frame, if message && source.Some? then source.value else 0)] else []
    {
      if stopped { return false; }
      if i.frame.entryAppended && !onDemandHistory { return true; }
      if replaying {
        if |pendingLive| >= cap {
          return i.frame.preview;
        }
        var messageSeq := 0;
        if message && source.Some? {
          messageSeq := source.value;
        }
        pendingLive := pendingLive + [(i.frame, messageSeq)];
        return true;
      }
      if |q| < cap {
        q := q + [i];
        return true;
      }
      ok := i.frame.preview;
    }

    /** The first frames of a subscription that nobody else has seen yet. */
    method EnqueueInitial(items: seq<Item>) returns (ok: bool)
      requires !stopped && !replaying
      modifies this`q, this`pendingLive
      ensures ok <==> EnqueueAll(old(Contents()), items).Some?
      ensures ok ==> Contents() == EnqueueAll(old(Contents()), items).value
    {
      for n := 0 to |items|
        invariant EnqueueAll(old(Contents()), items[..n]) == Some(Contents())
      {
        assert items[..n + 1][..n] == items[..n];
        ok := EnqueueFrame(items[n], false, None);
        if !ok {
          RefusedStaysRefused(old(Contents()), items, n + 1);
          return;
        }
      }
      assert items[..|items|] == items;
      ok := true;
    }

    /** Everything that was not delivered, once the pump has exited. */
    method DrainOverflowQueue() returns (frames: seq<Item>)
      requires held.None?
      modifies this
      ensures frames == Undelivered(old(Contents())) && q == []
      ensures frames == (if old(failed).Some? then [old(failed).value] else []) + old(q)
    {
      frames := [];
      if failed.Some? {
        frames := frames + [failed.value];
      }
      while |q| > 0
        invariant frames + q == Undelivered(old(Contents())) && held.None?
        decreases |q|
      {
        frames := frames + [q[0]];
        q := q[1..];
      }
    }
  }

  lemma {:induction false} RefusedStaysRefused(x: Sub, items: seq<Item>, n: nat)
    requires n <= |items| && EnqueueAll(x, items[..n]).None?
    ensures EnqueueAll(x, items).None?
  {
    if n == |items| {
      assert items[..n] == items;
    } else {
      assert items[..|items| - 1][..n] == items[..n];
      RefusedStaysRefused(x, items[..|items| - 1], n);
    }
  }

  method FilterEntryAppended(items: seq<Item>, onDemandHistory: bool) returns (filtered: seq<Item>)
    ensures filtered == FilterEntries(items, onDemandHistory)
  {
    if onDemandHistory { return items; }
    filtered := [];
    for n := 0 to |items|
      invariant filtered == FilterEntries(items[..n], false)
    {
      assert items[..n + 1][..n] == items[..n];
      if !items[n].frame.entryAppended {
        filtered := filtered + [items[n]];
      }
    }
    assert items[..|items|] == items;
  }

  /** The snapshot without the notices that the transfer repeats, then the transfer. */
  method MergeOverflowTransfer(initial: seq<Item>, transfer: seq<Item>) returns (merged: seq<Item>)
    ensures merged == WithoutNotices(initial, Notices(transfer)) + transfer
  {
    var notices: set<string> := {};
    for n := 0 to |transfer|
      invariant notices == set i | 0 <= i < n && transfer[i].frame.notice.Some? :: transfer[i].frame.notice.value
    {
      if transfer[n].frame.notice.Some? {
        notices := notices + {transfer[n].frame.notice.value};
      }
    }
    merged := [];
    for n := 0 to |initial|
      invariant merged == WithoutNotices(initial[..n], notices)
    {
      assert initial[..n + 1][..n] == initial[..n];
      var f := initial[n].frame;
      if !(f.notice.Some? && f.notice.value in notices) {
        merged := merged + [initial[n]];
      }
    }
    assert initial[..|initial|] == initial;
    merged := merged + transfer;
  }
}
