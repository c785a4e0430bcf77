/**
  What the actions of a subscription do after any run, said about its fields alone:
  which frames are retained, which ids a delivered page notes, and which retained
  messages are dropped.
 */
module ReplayActions {
  import opened Wrappers
  import opened ReplayGate

  /** A replay opens on a gate that is not shut yet, with nothing noted and nothing settled. */
  lemma BeginActs(cap: nat, actions: seq<Action>)
    ensures var g, h := Run(cap, actions), Run(cap, actions + [Begin]);
            if g.replaying then h == g
            else
              && h.replaying && h.round == g.round + 1 && h.retained == [] && h.outcomes == [] && h.pages == {} && h.own == {}
              && h.replayed == {} && !h.terminalSeen && h.q == g.q && h.pump == g.pump && h.pendingLive == g.pendingLive
              && h.drain == g.drain && h.ledger == g.ledger && h.stopped == g.stopped
  {
    hide Run, TerminalOutstanding, PageComing;
    RunSnoc(cap, actions, Begin);
  }

  /** A published frame is retained behind a shut gate and queued behind an open one, shed if it is a preview, or fatal. */
  lemma RetainActs(cap: nat, actions: seq<Action>, f: Frame, seq_: nat)
    ensures var g, h := Run(cap, actions), Run(cap, actions + [Retain(f, seq_)]);
            var p := Pending(f, if f.message then seq_ else 0);
            if g.stopped then h == g
            else if g.replaying && |g.pendingLive| < cap then
              h.pendingLive == g.pendingLive + [p] && h.retained == g.retained + [p] && h.q == g.q && h.drain == g.drain
              && h.outcomes == g.outcomes && h.replaying && !h.stopped
            else if !g.replaying && |g.q| < cap then
              h.q == g.q + [Queued(Live(f), g.round)] && h.pendingLive == g.pendingLive && h.outcomes == g.outcomes && !h.stopped
            else if f.preview then h == g
            else h.stopped && !h.replaying && h.outcomes == g.outcomes
  {
    hide Run;
    RunSnoc(cap, actions, Retain(f, seq_));
    CapKept(cap, actions);
  }

  /** A page or barrier is queued behind what is there, if there is room. */
  lemma AdmitActs(cap: nat, actions: seq<Action>, item: Item)
    requires !item.Live?
    ensures var g, h := Run(cap, actions), Run(cap, actions + [Admit(item)]);
            if |g.q| < cap then h == g.(q := g.q + [Queued(item, g.round)]) else h == g
  {
    hide Run;
    RunSnoc(cap, actions, Admit(item));
    CapKept(cap, actions);
  }

  /** An idle pump takes the head of the queue. */
  lemma TakeActs(cap: nat, actions: seq<Action>)
    ensures var g, h := Run(cap, actions), Run(cap, actions + [Take]);
            if g.pump.Idle? && g.q != [] then h == g.(pump := Delivering(g.q[0]), q := g.q[1..]) else h == g
  {
    hide Run;
    RunSnoc(cap, actions, Take);
  }

  /**
    A delivered page notes all its non-empty ids and nothing else, as its own replay's if it
    was admitted in it; a terminal or a barrier starts the drain, any other item ends the turn.
   */
  lemma DeliveryNotes(cap: nat, actions: seq<Action>)
    requires Run(cap, actions).pump.Delivering?
    ensures var g, h := Run(cap, actions), Run(cap, actions + [Deliver(true)]);
            var x := g.pump.x;
            && (forall id :: id in h.replayed <==> id in g.replayed || (g.replaying && x.item.Page? && id != "" && id in x.item.ids))
            && (forall id :: id in h.pages <==> id in g.pages || (g.replaying && x.item.Page? && id != "" && id in x.item.ids))
            && (forall id :: id in h.own <==>
                  id in g.own || (g.replaying && x.round == g.round && x.item.Page? && id != "" && id in x.item.ids))
            && h.pump == (if x.item.Barrier? || (x.item.Page? && x.item.terminal) then Draining else Idle)
            && h.q == g.q && h.pendingLive == g.pendingLive && h.drain == g.drain && h.outcomes == g.outcomes
            && h.replaying == g.replaying && h.stopped == g.stopped
  {
    hide Run;
    RunSnoc(cap, actions, Deliver(true));
  }

  /** A delivery that fails ends the pump and the subscription; a barrier delivers nothing and cannot fail. */
  lemma DeliveryFails(cap: nat, actions: seq<Action>)
    requires Run(cap, actions).pump.Delivering? && !Run(cap, actions).pump.x.item.Barrier?
    ensures var g, h := Run(cap, actions), Run(cap, actions + [Deliver(false)]);
            h.pump == Exited && h.stopped && !h.replaying && h.outcomes == g.outcomes && h.pages == g.pages
  {
    hide Run;
    RunSnoc(cap, actions, Deliver(false));
  }

  /** The drain is over, and the gate opens, when nothing is retained any more. */
  lemma DrainEnds(cap: nat, actions: seq<Action>)
    requires Run(cap, actions).pump.Draining?
    ensures var g, h := Run(cap, actions), Run(cap, actions + [Decide]);
            !g.replaying || (g.drain == [] && g.pendingLive == []) ==> h == g.(pump := Idle, replaying := false)
  {
    hide Run, DecideOldest;
    RunSnoc(cap, actions, Decide);
  }

  /** The oldest retained frame. */
  function Oldest(g: Gate): Pending
    requires g.drain != [] || g.pendingLive != []
  {
    if g.drain != [] then g.drain[0] else g.pendingLive[0]
  }

  /**
    The i-th recorded append of the message's payload can drop it: not older than the
    message, its entry on a page delivered in this replay, and not used up by an earlier
    verdict of this replay.
   */
  predicate CanDrop(g: Gate, p: Pending, i: nat)
  {
    && p.frame.message && p.seq_ > 0 && p.frame.payload in g.ledger.entries && i < |g.ledger.entries[p.frame.payload]|
    && var r := g.ledger.entries[p.frame.payload][i];
       r.mark >= p.seq_ && r.id in g.pages && forall j :: 0 <= j < |g.outcomes| && g.outcomes[j].Suppressed? ==> g.outcomes[j].id != r.id
  }

  lemma {:induction false} FirstOwner(records: seq<Record>, seq_: nat, replayed: set<EntryId>)
    ensures var f := FirstReplayed(Owners(records, seq_), replayed);
            && (f.None? <==> forall i :: 0 <= i < |records| ==> records[i].mark < seq_ || records[i].id !in replayed)
            && (f.Some? ==> exists i :: 0 <= i < |records| && records[i].id == f.value && records[i].mark >= seq_ && f.value in replayed
                              && forall j :: 0 <= j < i ==> records[j].mark < seq_ || records[j].id !in replayed)
  {
    if records != [] {
      var n := |records| - 1;
      var most, last := records[..n], records[n];
      FirstOwner(most, seq_, replayed);
      var os := Owners(most, seq_);
      assert Owners(records, seq_) == os + (if last.mark >= seq_ then [last.id] else []);
      FirstOfConcat(os, if last.mark >= seq_ then [last.id] else [], replayed);
      assert forall i :: 0 <= i < n ==> most[i] == records[i];
      var f := FirstReplayed(os, replayed);
      if f.Some? {
        var i :| 0 <= i < |most| && most[i].id == f.value && most[i].mark >= seq_ && f.value in replayed
                 && forall j :: 0 <= j < i ==> most[j].mark < seq_ || most[j].id !in replayed;
        assert records[i].id == f.value;
      } else if last.mark >= seq_ && last.id in replayed {
        assert [last.id][0] == last.id;
        assert records[n].id == last.id;
      }
    }
  }

  lemma {:induction false} FirstOfConcat(a: seq<EntryId>, b: seq<EntryId>, replayed: set<EntryId>)
    ensures FirstReplayed(a + b, replayed) ==
            if FirstReplayed(a, replayed).Some? then FirstReplayed(a, replayed) else FirstReplayed(b, replayed)
  {
    if a == [] {
      assert a + b == b;
    } else {
      FirstOfConcat(a[1..], b, replayed);
      assert (a + b)[1..] == a[1..] + b && (a + b)[0] == a[0];
    }
  }

  lemma VerdictFinds(g: Gate, p: Pending, pages: set<EntryId>, outcomes: seq<Outcome>)
    requires g.pages == pages && g.outcomes == outcomes
    requires forall id :: id in g.replayed <==>
               (id in pages && forall j :: 0 <= j < |outcomes| && outcomes[j].Suppressed? ==> outcomes[j].id != id)
    ensures var o := Verdict(g, p);
            && (o.Delivered? <==> forall i: nat :: !CanDrop(g, p, i))
            && (o.Suppressed? ==> exists i: nat :: CanDrop(g, p, i) && g.ledger.entries[p.frame.payload][i].id == o.id
                                    && forall j: nat :: j < i ==> !CanDrop(g, p, j))
  {
    hide Owners, FirstReplayed, MarkOf;
    var o := Verdict(g, p);
    if p.frame.message && p.seq_ > 0 && p.frame.payload in g.ledger.entries {
      var records := g.ledger.entries[p.frame.payload];
      FirstOwner(records, p.seq_, g.replayed);
      assert forall i: nat :: i < |records| ==> (CanDrop(g, p, i) <==> records[i].mark >= p.seq_ && records[i].id in g.replayed);
      if o.Suppressed? {
        var i :| 0 <= i < |records| && records[i].id == o.id && records[i].mark >= p.seq_ && o.id in g.replayed
                 && forall j :: 0 <= j < i ==> records[j].mark < p.seq_ || records[j].id !in g.replayed;
        assert CanDrop(g, p, i);
      }
    }
  }

  lemma UnusedMeans(g: Gate)
    requires Unused(g) && !g.pump.Decided?
    ensures forall id :: id in g.replayed <==>
              (id in g.pages && forall j :: 0 <= j < |g.outcomes| && g.outcomes[j].Suppressed? ==> g.outcomes[j].id != id)
  {
    assert Verdicts(g) == g.outcomes;
    forall id
      ensures Consumed(g.outcomes, id) <==> !forall j :: 0 <= j < |g.outcomes| && g.outcomes[j].Suppressed? ==> g.outcomes[j].id != id
    {
      if Consumed(g.outcomes, id) { var j :| 0 <= j < |g.outcomes| && g.outcomes[j].Suppressed? && g.outcomes[j].id == id; }
    }
  }

  /**
    The drain turns to the oldest retained frame.  It is to be delivered if and only if no
    recorded append can drop it, and otherwise the earliest append that can is named.
   */
  lemma VerdictExactly(cap: nat, actions: seq<Action>)
    requires Run(cap, actions).pump.Draining? && Run(cap, actions).replaying
    requires Run(cap, actions).drain != [] || Run(cap, actions).pendingLive != []
    ensures var g, h := Run(cap, actions), Run(cap, actions + [Decide]);
            var p := Oldest(g);
            && h.pump.Decided? && h.pump.outcome.p == p && h.pump.round == g.round && h.outcomes == g.outcomes
            && (h.pump.outcome.Delivered? <==> forall i: nat :: !CanDrop(g, p, i))
            && (h.pump.outcome.Suppressed? ==>
                  exists i: nat :: CanDrop(g, p, i) && g.ledger.entries[p.frame.payload][i].id == h.pump.outcome.id
                    && forall j: nat :: j < i ==> !CanDrop(g, p, j))
            && h.drain == (if g.drain != [] then g.drain else g.pendingLive)
            && h.pendingLive == (if g.drain != [] then g.pendingLive else []) && h.replaying && h.pages == g.pages
  {
    hide Run, Verdict, CanDrop, WfLedger, Recorded, InOrder, Shut, Injective, Unused, DrainNext;
    RunKeeps(cap, actions);
    RunSnoc(cap, actions, Decide);
    var g := Run(cap, actions);
    UnusedMeans(g);
    var m := if g.drain != [] then g else g.(drain := g.pendingLive, pendingLive := []);
    VerdictFinds(m, Oldest(g), g.pages, g.outcomes);
    SameDrops(g, m, Oldest(g));
    DecidesOn(g, m);
  }

  lemma DecidesOn(g: Gate, m: Gate)
    requires g.pump.Draining? && g.replaying && (g.drain != [] || g.pendingLive != [])
    requires m == if g.drain != [] then g else g.(drain := g.pendingLive, pendingLive := [])
    ensures var h := DrainNext(g);
            h.pump == Decided(Verdict(m, Oldest(g)), g.round) && h == m.(pump := h.pump, replayed := h.replayed)
  {
    hide Verdict;
  }

  lemma SameDrops(g: Gate, m: Gate, p: Pending)
    requires m.ledger == g.ledger && m.pages == g.pages && m.outcomes == g.outcomes
    ensures forall i: nat :: CanDrop(m, p, i) <==> CanDrop(g, p, i)
  {}

  /** The verdict is carried out: a dropped message and a delivered frame are settled, a failed delivery ends everything. */
  lemma SettleActs(cap: nat, actions: seq<Action>, ok: bool)
    requires Run(cap, actions).pump.Decided? && !Run(cap, actions).stopped
    ensures var g, h := Run(cap, actions), Run(cap, actions + [Settle(ok)]);
            if g.pump.outcome.Delivered? && !ok then h.pump == Exited && h.stopped && h.outcomes == g.outcomes
            else h.outcomes == g.outcomes + [g.pump.outcome] && g.drain != [] && h.drain == g.drain[1..]
                 && h.pendingLive == g.pendingLive && h.pump == Draining && h.replaying
  {
    hide Run, WfLedger, Recorded, Shut, Injective, Unused, Frames;
    RunKeeps(cap, actions);
    RunSnoc(cap, actions, Settle(ok));
  }

  /** Stopping opens the gate and forgets what it retained. */
  lemma StopActs(cap: nat, actions: seq<Action>)
    ensures var g, h := Run(cap, actions), Run(cap, actions + [Stop]);
            if g.stopped then h == g else h.stopped && !h.replaying && h.pendingLive == [] && h.q == g.q && h.pump == g.pump
  {
    hide Run;
    RunSnoc(cap, actions, Stop);
  }
}
