/**
  Whose pages suppress: a replay's drain consults the ids of every page delivered while
  its gate is shut.  OwnPagesExactly says when those are the replay's own pages only.
 */
module ReplayPages {
  import opened Wrappers
  import opened ReplayGate

  /** In front of every page with ids of another replay there is an item that ends this one. */
  predicate Blocked(xs: seq<Queued>, round: nat)
  {
    forall i :: 0 <= i < |xs| && HasIds(xs[i].item) && xs[i].round != round ==> exists j :: 0 <= j < i && Ends(xs[j].item)
  }

  /** With no page coming at its beginning, a replay counts its own pages only. */
  predicate Mine(g: Gate)
  {
    g.round > 0 && !g.foreign ==>
      g.pages <= g.own && (g.replaying && (g.pump.Idle? || g.pump.Delivering?) ==> Blocked(Coming(g), g.round))
  }

  lemma BlockedSnoc(xs: seq<Queued>, round: nat, x: Queued)
    requires Blocked(xs, round) && (HasIds(x.item) ==> x.round == round)
    ensures Blocked(xs + [x], round)
  {
    var all := xs + [x];
    forall i | 0 <= i < |all| && HasIds(all[i].item) && all[i].round != round
      ensures exists j :: 0 <= j < i && Ends(all[j].item)
    {
      assert HasIds(xs[i].item) && xs[i].round != round;
      var j :| 0 <= j < i && Ends(xs[j].item);
      assert Ends(all[j].item);
    }
  }

  lemma BlockedTail(xs: seq<Queued>, round: nat)
    requires Blocked(xs, round) && xs != [] && !Ends(xs[0].item)
    ensures Blocked(xs[1..], round)
  {
    var t := xs[1..];
    forall i | 0 <= i < |t| && HasIds(t[i].item) && t[i].round != round ensures exists j :: 0 <= j < i && Ends(t[j].item) {
      assert HasIds(xs[i + 1].item) && xs[i + 1].round != round;
      var j :| 0 <= j < i + 1 && Ends(xs[j].item);
      assert Ends(t[j - 1].item);
    }
  }

  lemma BlockedFirst(xs: seq<Queued>, round: nat)
    requires Blocked(xs, round) && xs != []
    ensures HasIds(xs[0].item) ==> xs[0].round == round
  {}

  /** When no page is coming, none can be delivered before the gate reopens. */
  lemma NothingComing(g: Gate, round: nat)
    requires !PageComing(g) && (g.pump.Idle? || g.pump.Delivering?)
    ensures Blocked(Coming(g), round)
  {}

  lemma BeginMine(g: Gate)
    requires Mine(g)
    ensures Mine(BeginReplay(g))
  {
    hide TerminalOutstanding, PageComing, Blocked;
    var h := BeginReplay(g);
    assert Coming(h) == Coming(g);
    if !PageComing(g) && (g.pump.Idle? || g.pump.Delivering?) { NothingComing(g, h.round); }
  }

  lemma AdmitMine(g: Gate, item: Item)
    requires Mine(g)
    ensures Mine(AdmitItem(g, item))
  {
    hide Blocked;
    var h, x := AdmitItem(g, item), Queued(item, g.round);
    if h != g && g.replaying && Blocked(Coming(g), g.round) {
      BlockedSnoc(Coming(g), g.round, x);
      assert Coming(h) == Coming(g) + [x];
    }
  }

  lemma TakeMine(g: Gate)
    requires Mine(g)
    ensures Mine(TakeItem(g))
  {
    hide Blocked;
    var h := TakeItem(g);
    if h != g { assert Coming(h) == Coming(g); }
  }

  lemma DeliverMine(g: Gate, ok: bool)
    requires Mine(g)
    ensures Mine(DeliverItem(g, ok))
  {
    hide Mine, Exit, AfterDelivery;
    ExitMine(g);
    if g.pump.Delivering? { AfterMine(g); }
  }

  lemma AfterMine(g: Gate)
    requires Mine(g) && g.pump.Delivering?
    ensures Mine(AfterDelivery(g, g.pump.x))
  {
    hide Blocked;
    var h := AfterDelivery(g, g.pump.x);
    assert Coming(g)[1..] == g.q;
    assert h.pump.Idle? ==> Coming(h) == g.q;
    if g.replaying && Blocked(Coming(g), g.round) {
      BlockedFirst(Coming(g), g.round);
      if !Ends(g.pump.x.item) { BlockedTail(Coming(g), g.round); }
    }
  }

  lemma ExitMine(g: Gate)
    requires Mine(g)
    ensures Mine(Exit(g)) && Mine(Stopped(g))
  {
    hide Blocked;
  }

  lemma EnqueueMine(g: Gate, f: Frame, seq_: nat)
    requires Mine(g)
    ensures Mine(EnqueueLive(g, f, seq_))
  {
    hide Blocked;
    ExitMine(g);
  }

  lemma DrainMine(g: Gate, ok: bool)
    requires Mine(g)
    ensures Mine(DrainNext(g)) && Mine(SettleOldest(g, ok))
  {
    hide Blocked, DecideOldest, Exit;
    ExitMine(g);
  }

  lemma StepMine(g: Gate, a: Action)
    requires Mine(g)
    ensures Mine(Next(g, a))
  {
    hide Blocked, Stopped, EnqueueLive, AdmitItem, TakeItem, DeliverItem, DrainNext, SettleOldest, Exit, BeginReplay, Remember;
    match a
    case Begin => BeginMine(g);
    case Retain(f, seq_) => EnqueueMine(g, f, seq_);
    case Admit(item) => AdmitMine(g, item);
    case Take => TakeMine(g);
    case Deliver(ok) => DeliverMine(g, ok);
    case Decide => DrainMine(g, true);
    case Settle(ok) => DrainMine(g, ok);
    case Remembers(_, _, _) =>
    case Stop => ExitMine(g);
    case Quit => ExitMine(g);
  }

  lemma {:induction false} RunMine(cap: nat, actions: seq<Action>)
    ensures Mine(Run(cap, actions))
  {
    hide Next, Mine;
    if actions == [] {
      InitialMine(cap);
    } else {
      RunMine(cap, actions[..|actions| - 1]);
      StepMine(Run(cap, actions[..|actions| - 1]), actions[|actions| - 1]);
    }
  }

  lemma InitialMine(cap: nat)
    ensures Mine(Initial(cap))
  {}

  /** A message of this replay was dropped because of an entry that none of its own pages carried. */
  predicate SuppressedByOther(g: Gate)
  {
    exists i :: 0 <= i < |g.outcomes| && g.outcomes[i].Suppressed? && g.outcomes[i].id !in g.own
  }

  /** With no page coming when it begins, a replay suppresses by its own pages only. */
  lemma SuppressedByOwn(cap: nat, actions: seq<Action>, more: seq<Action>)
    requires !Run(cap, actions).replaying && !PageComing(Run(cap, actions)) && NoBegin(more)
    ensures !SuppressedByOther(Run(cap, (actions + [Begin]) + more))
  {
    hide Run, PageComing, TerminalOutstanding, Inv, Blocked;
    var all := (actions + [Begin]) + more;
    RunSnoc(cap, actions, Begin);
    RoundKept(cap, actions + [Begin], more);
    RunMine(cap, all);
    forall i | 0 <= i < |Run(cap, all).outcomes| && Run(cap, all).outcomes[i].Suppressed?
      ensures Run(cap, all).outcomes[i].id in Run(cap, all).own
    {
      SuppressionIsInjective(cap, all, i);
    }
  }

  // When a page is coming, some continuation suppresses by it

  lemma {:induction false} LongerThanAll(s: set<Payload>) returns (n: nat)
    ensures forall x :: x in s ==> |x| < n
    decreases s
  {
    n := 0;
    if s != {} {
      var x :| x in s;
      var m := LongerThanAll(s - {x});
      n := if |x| < m then m else |x| + 1;
      forall y | y in s ensures |y| < n { if y != x { assert y in s - {x}; } }
    }
  }

  lemma FreshPayload(s: set<Payload>) returns (p: Payload)
    ensures p !in s
  {
    var n := LongerThanAll(s);
    p := seq(n, _ => 'a');
  }

  lemma RememberFresh(l: Ledger, p: Payload, id: EntryId)
    requires WfLedger(l) && p !in l.entries && id != ""
    ensures var m := Remember(l, p, id, 1); p in m.entries && m.entries[p] == [Record(id, 1)]
  {
    var fifo := l.fifo + [p];
    if |fifo| > MAX_PAYLOADS {
      assert fifo[0] == l.fifo[0] && l.fifo[0] in l.fifo;
    }
  }

  /** The one message that a replay retains, and whose payload the session saw appended as e. */
  function Message(p: Payload): Pending
  {
    Pending(Frame(true, false, p), 1)
  }

  /** Such a replay, with no page of its own queued. */
  predicate Waiting(g: Gate, p: Payload, e: EntryId)
  {
    && 0 < g.cap && |g.q| <= g.cap && g.replaying && !g.stopped && g.own == {} && g.outcomes == [] && g.drain == []
    && g.pendingLive == [Message(p)] && p in g.ledger.entries && g.ledger.entries[p] == [Record(e, 1)]
    && (g.pump.Idle? || g.pump.Delivering? || g.pump.Draining?)
    && (forall i :: 0 <= i < |Coming(g)| ==> HasIds(Coming(g)[i].item) ==> Coming(g)[i].round < g.round)
  }

  lemma TakeWaits(g: Gate, p: Payload, e: EntryId)
    requires Waiting(g, p, e) && g.pump.Idle? && g.q != []
    ensures Waiting(TakeItem(g), p, e) && Coming(TakeItem(g)) == Coming(g) && TakeItem(g).replayed == g.replayed
  {
    assert Coming(TakeItem(g)) == Coming(g);
  }

  lemma DeliverWaits(g: Gate, p: Payload, e: EntryId)
    requires Waiting(g, p, e) && g.pump.Delivering?
    ensures var h := DeliverItem(g, true);
            && Waiting(h, p, e) && g.replayed <= h.replayed && h.q == g.q
            && h.pump == (if Ends(g.pump.x.item) then Draining else Idle)
            && (h.pump.Idle? ==> Coming(h) == Coming(g)[1..])
            && (g.pump.x.item.Page? && e in NamedIds(g.pump.x.item.ids) ==> e in h.replayed)
  {
    var h, x := DeliverItem(g, true), g.pump.x;
    assert Coming(g)[0] == x;
    assert x.item.Page? && x.round == g.round ==> NamedIds(x.item.ids) == {};
    assert Coming(h) == g.q == Coming(g)[1..];
    forall i | 0 <= i < |g.q| && HasIds(g.q[i].item) ensures g.q[i].round < g.round { assert Coming(g)[i + 1] == g.q[i]; }
  }

  /** The i-th item carries e and none before it ends a replay. */
  predicate CarriesAt(xs: seq<Queued>, e: EntryId, i: nat)
  {
    && i < |xs| && xs[i].item.Page? && e in NamedIds(xs[i].item.ids) && forall j :: 0 <= j < i ==> !Ends(xs[j].item)
  }

  lemma CarriesLater(xs: seq<Queued>, e: EntryId, i: nat)
    requires CarriesAt(xs, e, i) && i > 0
    ensures xs != [] && !Ends(xs[0].item) && CarriesAt(xs[1..], e, i - 1)
  {}

  /** The delivery of the item that the pump holds, on the way to the page. */
  lemma DeliverTowards(g: Gate, p: Payload, e: EntryId, i: nat)
    requires Waiting(g, p, e) && g.pump.Delivering? && CarriesAt(Coming(g), e, i)
    ensures var h := DeliverItem(g, true);
            && Waiting(h, p, e) && h.q == g.q && (i == 0 ==> e in h.replayed)
            && (i > 0 ==> h.pump.Idle? && CarriesAt(Coming(h), e, i - 1))
  {
    hide Waiting, DeliverItem;
    DeliverWaits(g, p, e);
    assert Coming(g)[0] == g.pump.x;
    if i > 0 { CarriesLater(Coming(g), e, i); }
  }

  /** The pump comes to the page by itself. */
  lemma {:induction false} ReachPage(g: Gate, p: Payload, e: EntryId, i: nat) returns (more: seq<Action>)
    requires Waiting(g, p, e) && !g.pump.Draining? && CarriesAt(Coming(g), e, i)
    ensures NoBegin(more) && Waiting(RunFrom(g, more), p, e) && e in RunFrom(g, more).replayed
    decreases |g.q|, if g.pump.Delivering? then 1 else 0
  {
    hide Waiting, TakeItem, DeliverItem, CarriesAt, RunFrom;
    if g.pump.Delivering? {
      DeliverTowards(g, p, e, i);
      var h := DeliverItem(g, true);
      var rest := [];
      if i == 0 { RunNothingFrom(h); } else { rest := ReachPage(h, p, e, i - 1); }
      more := [Deliver(true)] + rest;
      RunCons(g, Deliver(true), rest);
    } else {
      IdleOf(g, p, e);
      SomeComing(Coming(g), e, i);
      TakeWaits(g, p, e);
      TakesOne(g);
      var rest := ReachPage(TakeItem(g), p, e, i);
      more := [Take] + rest;
      RunCons(g, Take, rest);
    }
  }

  lemma SomeComing(xs: seq<Queued>, e: EntryId, i: nat)
    requires CarriesAt(xs, e, i)
    ensures xs != []
  {}

  lemma IdleOf(g: Gate, p: Payload, e: EntryId)
    requires Waiting(g, p, e) && !g.pump.Draining? && !g.pump.Delivering?
    ensures g.pump.Idle? && Coming(g) == g.q && |g.q| <= g.cap && 0 < g.cap
  {}

  lemma TakesOne(g: Gate)
    requires g.pump.Idle? && g.q != []
    ensures TakeItem(g).pump.Delivering? && |TakeItem(g).q| == |g.q| - 1
  {}

  /** Then to an item that ends the replay, which can be one of its own. */
  lemma {:induction false} ReachDrain(g: Gate, p: Payload, e: EntryId) returns (more: seq<Action>)
    requires Waiting(g, p, e) && e in g.replayed
    ensures NoBegin(more) && Waiting(RunFrom(g, more), p, e) && e in RunFrom(g, more).replayed && RunFrom(g, more).pump.Draining?
    decreases |g.q|, if g.pump.Delivering? then 1 else 0
  {
    hide Waiting, TakeItem, DeliverItem, AdmitItem;
    if g.pump.Draining? {
      more := [];
      RunNothingFrom(g);
    } else if g.pump.Delivering? {
      DeliverWaits(g, p, e);
      var rest := ReachDrain(DeliverItem(g, true), p, e);
      more := [Deliver(true)] + rest;
      RunCons(g, Deliver(true), rest);
    } else {
      IdleOf(g, p, e);
      if g.q == [] {
        more := [Admit(Barrier), Take, Deliver(true)];
        OwnBarrier(g, p, e);
        Unroll3(g, Admit(Barrier), Take, Deliver(true), []);
        assert more + [] == more;
        RunNothingFrom(Unpacked(g, Admit(Barrier), Take, Deliver(true)));
      } else {
        TakeWaits(g, p, e);
        TakesOne(g);
        var rest := ReachDrain(TakeItem(g), p, e);
        more := [Take] + rest;
        RunCons(g, Take, rest);
      }
    }
  }

  lemma OwnBarrier(g: Gate, p: Payload, e: EntryId)
    requires Waiting(g, p, e) && g.pump.Idle? && g.q == [] && e in g.replayed
    ensures var h := Unpacked(g, Admit(Barrier), Take, Deliver(true));
            Waiting(h, p, e) && e in h.replayed && h.pump.Draining?
  {
    var a := AdmitItem(g, Barrier);
    assert a.q == [Queued(Barrier, g.round)] && Coming(a) == a.q;
    TakeWaits(a, p, e);
    DeliverWaits(TakeItem(a), p, e);
  }

  /** And the drain drops the message. */
  lemma DrainSuppresses(g: Gate, p: Payload, e: EntryId)
    requires Waiting(g, p, e) && g.pump.Draining? && e in g.replayed
    ensures SuppressedByOther(RunFrom(g, [Decide, Settle(true)]))
  {
    hide Waiting, SuppressedByOther;
    DropsMessage(g, p, e);
    RunCons(g, Decide, [Settle(true)]);
    RunCons(DrainNext(g), Settle(true), []);
    assert [Decide] + [Settle(true)] == [Decide, Settle(true)] && [Settle(true)] + [] == [Settle(true)];
    RunNothingFrom(SettleOldest(DrainNext(g), true));
  }

  lemma DropsMessage(g: Gate, p: Payload, e: EntryId)
    requires Waiting(g, p, e) && g.pump.Draining? && e in g.replayed
    ensures SuppressedByOther(SettleOldest(DrainNext(g), true))
  {
    var m := g.(drain := g.pendingLive, pendingLive := []);
    VerdictOnE(m, p, e);
    var h := SettleOldest(DrainNext(g), true);
    assert h.outcomes == [Suppressed(Message(p), e, 1)] && h.own == {};
    assert h.outcomes[0].Suppressed? && h.outcomes[0].id !in h.own;
  }

  lemma VerdictOnE(g: Gate, p: Payload, e: EntryId)
    requires p in g.ledger.entries && g.ledger.entries[p] == [Record(e, 1)] && e in g.replayed
    ensures Verdict(g, Message(p)) == Suppressed(Message(p), e, 1)
  {
    var r := [Record(e, 1)];
    assert r[..0] == [];
    assert Owners(r, 1) == [] + [e] == [e];
    assert r[0].id == e;
  }

  /** From the beginning of the replay to the message that waits. */
  lemma BeginsWaiting(g: Gate, p: Payload, e: EntryId)
    requires InOrder(g) && Dated(g) && WfLedger(g.ledger) && !g.replaying && !g.stopped && PageComing(g)
    requires p !in g.ledger.entries && e != ""
    ensures var h := Unpacked(g, Begin, Remembers(p, e, 1), Retain(Frame(true, false, p), 1));
            Waiting(h, p, e) && !h.pump.Draining? && h.pump == g.pump && Coming(h) == Coming(g)
  {
    hide Frames, Remember, TerminalOutstanding, WfLedger;
    RememberFresh(g.ledger, p, e);
    var h := Unpacked(g, Begin, Remembers(p, e, 1), Retain(Frame(true, false, p), 1));
    assert Coming(h) == Coming(g);
    assert [] + [Message(p)] == [Message(p)];
    forall i | 0 <= i < |Coming(h)| ensures Coming(h)[i].round < h.round {
      assert Coming(g)[i] == if g.pump.Delivering? && i == 0 then g.pump.x else g.q[if g.pump.Delivering? then i - 1 else i];
    }
  }

  /**
    A replay that begins can drop a message because of an entry that only another replay's
    page carried if and only if, at that moment, the pump will deliver a page with entry ids
    before any item that ends a replay.
   */
  lemma OwnPagesExactly(cap: nat, actions: seq<Action>)
    requires !Run(cap, actions).replaying && !Run(cap, actions).stopped
    ensures PageComing(Run(cap, actions)) <==>
            exists more :: NoBegin(more) && SuppressedByOther(Run(cap, (actions + [Begin]) + more))
  {
    hide Run, RunFrom, PageComing, SuppressedByOther, Waiting, Unpacked;
    if PageComing(Run(cap, actions)) {
      var more := Suppresses(cap, actions);
      assert NoBegin(more) && SuppressedByOther(Run(cap, (actions + [Begin]) + more));
    } else {
      forall more | NoBegin(more) ensures !SuppressedByOther(Run(cap, (actions + [Begin]) + more)) {
        SuppressedByOwn(cap, actions, more);
      }
    }
  }

  lemma Suppresses(cap: nat, actions: seq<Action>) returns (more: seq<Action>)
    requires !Run(cap, actions).replaying && !Run(cap, actions).stopped && PageComing(Run(cap, actions))
    ensures NoBegin(more) && SuppressedByOther(Run(cap, (actions + [Begin]) + more))
  {
    hide Run, RunFrom, SuppressedByOther, Waiting, Unpacked, Shut, Injective, Recorded;
    var g := Run(cap, actions);
    RunKeeps(cap, actions);
    RunDated(cap, actions);
    var i :| 0 <= i < |Coming(g)| && HasIds(Coming(g)[i].item) && forall j :: 0 <= j < i ==> !Ends(Coming(g)[j].item);
    var e :| e in NamedIds(Coming(g)[i].item.ids);
    var p := FreshPayload(g.ledger.entries.Keys);
    BeginsWaiting(g, p, e);
    var b, c := Remembers(p, e, 1), Retain(Frame(true, false, p), 1);
    var h := Unpacked(g, Begin, b, c);
    var toPage := ReachPage(h, p, e, i);
    var toDrain := ReachDrain(RunFrom(h, toPage), p, e);
    var all := toPage + (toDrain + [Decide, Settle(true)]);
    RunFromConcat(h, toPage, toDrain + [Decide, Settle(true)]);
    RunFromConcat(RunFrom(h, toPage), toDrain, [Decide, Settle(true)]);
    DrainSuppresses(RunFrom(RunFrom(h, toPage), toDrain), p, e);
    Unroll3(g, Begin, b, c, all);
    RunFromIsRun(cap, actions, [Begin, b, c] + all);
    more := [b, c] + all;
    assert actions + ([Begin, b, c] + all) == (actions + [Begin]) + more;
  }

  lemma {:induction false} RunFromConcat(g: Gate, a: seq<Action>, b: seq<Action>)
    ensures RunFrom(g, a + b) == RunFrom(RunFrom(g, a), b)
    decreases |a|
  {
    hide RunFrom, Next;
    if a == [] {
      assert a + b == b;
      RunNothingFrom(g);
    } else {
      assert a + b == [a[0]] + (a[1..] + b) && a == [a[0]] + a[1..];
      RunCons(g, a[0], a[1..] + b);
      RunCons(g, a[0], a[1..]);
      RunFromConcat(Next(g, a[0]), a[1..], b);
    }
  }

  /** A replay whose page comes after its terminal, until the terminal has ended it. */
  function LatePage(page: Frame): seq<Action>
  {
    [Begin, Admit(Terminal(page)), Admit(Page(page, ["e"], false)), Take, Deliver(true), Decide]
  }

  lemma LatePageQueued(page: Frame)
    ensures var g := Run(2, LatePage(page));
            && g.cap == 2 && !g.replaying && !g.stopped && g.pump == Idle && g.q == [Queued(Page(page, ["e"], false), 1)]
            && g.round == 1 && g.pendingLive == [] && g.drain == [] && g.ledger == Ledger(map[], [])
            && !TerminalOutstanding(g)
  {
    hide Run, RunFrom, Verdict, Remember, PageComing;
    var t, late := Admit(Terminal(page)), Admit(Page(page, ["e"], false));
    RunNothing(2);
    RunFromIsRun(2, [], LatePage(page));
    assert [] + LatePage(page) == LatePage(page) == [Begin, t, late] + ([Take, Deliver(true), Decide] + []);
    Unroll3(Initial(2), Begin, t, late, [Take, Deliver(true), Decide] + []);
    var h := Unpacked(Initial(2), Begin, t, late);
    assert h.q == [Queued(Terminal(page), 1), Queued(Page(page, ["e"], false), 1)];
    Unroll3(h, Take, Deliver(true), Decide, []);
    RunNothingFrom(Unpacked(h, Take, Deliver(true), Decide));
  }

  /** The session sees the payload of a live message appended, and the pump goes on. */
  function LateMessage(): seq<Action>
  {
    [Remembers("p", "e", 1), Retain(Frame(true, false, "p"), 1), Take, Deliver(true),
     Admit(Barrier), Take, Deliver(true), Decide, Settle(true)]
  }

  /**
    A concrete run: no terminal is outstanding when the next replay begins, and yet its
    message is dropped because of a page that only the earlier replay queued.
   */
  lemma LatePageSuppresses(page: Frame)
    ensures !TerminalOutstanding(Run(2, LatePage(page)))
    ensures SuppressedByOther(Run(2, LatePage(page) + ([Begin] + LateMessage())))
  {
    hide Run, RunFrom, TerminalOutstanding, SuppressedByOther, LatePage, Ends, Waiting, Unpacked, Shut, Injective, Recorded;
    LatePageQueued(page);
    RunKeeps(2, LatePage(page));
    RunDated(2, LatePage(page));
    var g, ids := Run(2, LatePage(page)), ["e"];
    assert ids[0] in NamedIds(ids);
    assert Coming(g) == g.q && HasIds(Coming(g)[0].item);
    BeginsWaiting(g, "p", "e");
    var b, c := Remembers("p", "e", 1), Retain(Frame(true, false, "p"), 1);
    var rest := [Take, Deliver(true), Admit(Barrier)] + ([Take, Deliver(true), Decide] + ([Settle(true)] + []));
    assert [Begin] + LateMessage() == [Begin, b, c] + rest;
    RunFromIsRun(2, LatePage(page), [Begin, b, c] + rest);
    Unroll3(g, Begin, b, c, rest);
    LateDelivered(Unpacked(g, Begin, b, c), page);
  }

  lemma LateDelivered(g: Gate, page: Frame)
    requires Waiting(g, "p", "e") && !g.pump.Draining? && Coming(g) == [Queued(Page(page, ["e"], false), 1)] && g.pump.Idle?
    ensures SuppressedByOther(RunFrom(g, [Take, Deliver(true), Admit(Barrier)] + ([Take, Deliver(true), Decide] + ([Settle(true)] + []))))
  {
    hide RunFrom, SuppressedByOther, Waiting, TakeItem, DeliverItem, AdmitItem, DrainNext, SettleOldest, Coming;
    LateNoted(g, page);
    var h := DeliverItem(TakeItem(g), true);
    OwnBarrier(h, "p", "e");
    var m := Unpacked(h, Admit(Barrier), Take, Deliver(true));
    DropsMessage(m, "p", "e");
    var last := [Settle(true)] + [];
    Unroll3(g, Take, Deliver(true), Admit(Barrier), [Take, Deliver(true), Decide] + last);
    Unroll3(AdmitItem(h, Barrier), Take, Deliver(true), Decide, last);
    RunCons(DrainNext(m), Settle(true), []);
    RunNothingFrom(SettleOldest(DrainNext(m), true));
  }

  lemma LateNoted(g: Gate, page: Frame)
    requires Waiting(g, "p", "e") && !g.pump.Draining? && Coming(g) == [Queued(Page(page, ["e"], false), 1)] && g.pump.Idle?
    ensures var h := DeliverItem(TakeItem(g), true); Waiting(h, "p", "e") && h.pump.Idle? && h.q == [] && "e" in h.replayed
  {
    hide Waiting, TakeItem, DeliverItem;
    var ids := ["e"];
    assert ids[0] in NamedIds(ids);
    assert Coming(g)[0].item == Page(page, ids, false);
    IdleOf(g, "p", "e");
    TakeWaits(g, "p", "e");
    TakesFirst(g);
    DeliverWaits(TakeItem(g), "p", "e");
  }

  lemma TakesFirst(g: Gate)
    requires g.pump.Idle? && g.q != []
    ensures TakeItem(g).pump == Delivering(g.q[0]) && TakeItem(g).q == g.q[1..]
  {}
}
