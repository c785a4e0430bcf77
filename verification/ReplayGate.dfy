/**
  The replay gate of one subscription: live frames that arrive during a history replay
  are retained and drained after the replay's terminal item, and a retained message
  that a replayed page already carried is dropped, once per replayed entry.

  Each action is one critical section.  The drain's decision about a frame and the
  frame's delivery are separate actions, so publishers and the session interleave.  A
  queued item remembers the replay it was admitted in, which says whose terminal it is.
 */
module ReplayGate {
  import opened Wrappers

  type EntryId = string
  type Payload = string

  const MAX_PAYLOADS: nat := 64
  const MAX_IDS: nat := 8

  // The session's ledger of recent message entries

  /** One durable append and the message watermark when the session saw it. */
  datatype Record = Record(id: EntryId, mark: nat)

  datatype Ledger = Ledger(entries: map<Payload, seq<Record>>, fifo: seq<Payload>)

  predicate HasId(records: seq<Record>, id: EntryId) { exists i :: 0 <= i < |records| && records[i].id == id }

  function LastOf(records: seq<Record>): seq<Record>
  {
    if |records| > MAX_IDS then records[|records| - MAX_IDS..] else records
  }

  /** Announcing an entry again keeps its first watermark. */
  function Remember(l: Ledger, p: Payload, id: EntryId, mark: nat): Ledger
  {
    if id == "" then l
    else if p in l.entries then
      if HasId(l.entries[p], id) then l
      else l.(entries := l.entries[p := LastOf(l.entries[p] + [Record(id, mark)])])
    else
      var entries, fifo := l.entries[p := [Record(id, mark)]], l.fifo + [p];
      if |fifo| > MAX_PAYLOADS then Ledger(entries - {fifo[0]}, fifo[1..]) else Ledger(entries, fifo)
  }

  predicate DistinctIds(records: seq<Record>)
  {
    forall i, j :: 0 <= i < j < |records| ==> records[i].id != records[j].id
  }

  predicate Distinct<T(==)>(s: seq<T>) { forall i, j :: 0 <= i < j < |s| ==> s[i] != s[j] }

  /** The payload keys are exactly the bounded FIFO, and every list of appends is bounded. */
  ghost predicate WfLedger(l: Ledger)
  {
    && Distinct(l.fifo) && |l.fifo| <= MAX_PAYLOADS && (forall p :: p in l.entries <==> p in l.fifo)
    && (forall p :: p in l.entries ==> 1 <= |l.entries[p]| <= MAX_IDS && DistinctIds(l.entries[p]))
  }

  lemma RememberKeeps(l: Ledger, p: Payload, id: EntryId, mark: nat)
    requires WfLedger(l)
    ensures WfLedger(Remember(l, p, id, mark))
  {
    hide WfLedger, HasId, LastOf;
    if id != "" && p in l.entries {
      if !HasId(l.entries[p], id) { AddedAppend(l, p, id, mark); }
    } else if id != "" {
      AddedPayload(l, p, id, mark);
    }
  }

  /** The last eight appends of each payload, and the last sixty-four payloads to be seen first. */
  lemma RememberExact(l: Ledger, p: Payload, id: EntryId, mark: nat)
    requires WfLedger(l)
    ensures var m := Remember(l, p, id, mark);
            if id == "" || (p in l.entries && exists i :: 0 <= i < |l.entries[p]| && l.entries[p][i].id == id) then m == l
            else if p in l.entries then
              var all := l.entries[p] + [Record(id, mark)];
              m == Ledger(l.entries[p := if |all| > 8 then all[1..] else all], l.fifo)
            else if |l.fifo| < 64 then m == Ledger(l.entries[p := [Record(id, mark)]], l.fifo + [p])
            else m == Ledger(l.entries[p := [Record(id, mark)]] - {l.fifo[0]}, l.fifo[1..] + [p])
  {
    hide Distinct, DistinctIds;
    if |l.fifo| == 64 { assert (l.fifo + [p])[1..] == l.fifo[1..] + [p] && (l.fifo + [p])[0] == l.fifo[0]; }
  }

  /** One more append of a payload that is known; the oldest of nine goes. */
  lemma AddedAppend(l: Ledger, p: Payload, id: EntryId, mark: nat)
    requires WfLedger(l) && p in l.entries && !HasId(l.entries[p], id)
    ensures WfLedger(l.(entries := l.entries[p := LastOf(l.entries[p] + [Record(id, mark)])]))
  {
    var all := l.entries[p] + [Record(id, mark)];
    assert DistinctIds(all);
    LastDistinct(all);
  }

  lemma LastDistinct(records: seq<Record>)
    requires DistinctIds(records)
    ensures DistinctIds(LastOf(records)) && |LastOf(records)| == if |records| > MAX_IDS then MAX_IDS else |records|
  {}

  /** A new payload; the oldest of sixty-five goes. */
  lemma AddedPayload(l: Ledger, p: Payload, id: EntryId, mark: nat)
    requires WfLedger(l) && p !in l.entries
    ensures var entries, fifo := l.entries[p := [Record(id, mark)]], l.fifo + [p];
            if |fifo| > MAX_PAYLOADS then WfLedger(Ledger(entries - {fifo[0]}, fifo[1..])) else WfLedger(Ledger(entries, fifo))
  {
    var entries, fifo := l.entries[p := [Record(id, mark)]], l.fifo + [p];
    assert Distinct(fifo);
    assert forall q :: q in fifo <==> q == p || q in l.fifo;
    assert forall q :: q in entries ==> 1 <= |entries[q]| <= MAX_IDS && DistinctIds(entries[q]);
    if |fifo| > MAX_PAYLOADS { DroppedFirst(fifo); }
  }

  lemma DroppedFirst(fifo: seq<Payload>)
    requires Distinct(fifo) && fifo != []
    ensures Distinct(fifo[1..]) && forall q :: q in fifo[1..] <==> q in fifo && q != fifo[0]
  {
    assert fifo == [fifo[0]] + fifo[1..];
  }

  /** The entries that can own an occurrence published at seq, in append order. */
  function Owners(records: seq<Record>, seq_: nat): seq<EntryId>
  {
    if records == [] then [] else
    Owners(records[..|records| - 1], seq_) +
    (if records[|records| - 1].mark >= seq_ then [records[|records| - 1].id] else [])
  }

  /** An append of an entry that can own the occurrence. */
  predicate Owns(r: Record, seq_: nat, id: EntryId)
  {
    r.id == id && r.mark >= seq_
  }

  lemma {:induction false} OwnersExact(records: seq<Record>, seq_: nat, id: EntryId)
    ensures id in Owners(records, seq_) <==> exists i :: 0 <= i < |records| && Owns(records[i], seq_, id)
  {
    if records != [] {
      var n := |records| - 1;
      var most := records[..n];
      OwnersExact(most, seq_, id);
      assert records == most + [records[n]];
      if i :| 0 <= i < |most| && Owns(most[i], seq_, id) { assert Owns(records[i], seq_, id); }
      if i :| 0 <= i < n && Owns(records[i], seq_, id) { assert Owns(most[i], seq_, id); }
    }
  }

  // The subscription

  datatype Frame = Frame(message: bool, preview: bool, payload: Payload)

  /** A retained live frame; seq is zero unless it is a message with a known occurrence. */
  datatype Pending = Pending(frame: Frame, seq_: nat)

  datatype Item = Live(frame: Frame) | Page(frame: Frame, ids: seq<EntryId>, terminal: bool) | Barrier

  /** An item and the number of replays that had begun when it was admitted. */
  datatype Queued = Queued(item: Item, round: nat)

  datatype Outcome = Delivered(p: Pending) | Suppressed(p: Pending, id: EntryId, mark: nat)

  datatype Pump = Idle | Delivering(x: Queued) | Draining | Decided(outcome: Outcome, round: nat) | Exited

  datatype Gate = Gate(
    cap: nat, q: seq<Queued>, pump: Pump, stopped: bool,
    replaying: bool, pendingLive: seq<Pending>, drain: seq<Pending>, replayed: set<EntryId>,
    ledger: Ledger,
    // How many replays have begun, and whether an older terminal was outstanding, or an older page
    // could still be delivered, when the last one did.
    round: nat, stale: bool, foreign: bool,
    // This replay so far: what it retained, what became of it, the ids on the pages delivered while
    // it was open and on those of them that were admitted in it, and whether a terminal item that
    // was admitted in it was delivered.
    retained: seq<Pending>, outcomes: seq<Outcome>, pages: set<EntryId>, own: set<EntryId>, terminalSeen: bool,
    // Every append the session ever recorded.
    appends: set<(Payload, EntryId, nat)>)

  datatype Action =
    | Begin
    | Retain(frame: Frame, seq_: nat)
    | Admit(item: Item)
    | Take
    | Deliver(ok: bool)
    | Decide
    | Settle(ok: bool)
    | Remembers(payload: Payload, id: EntryId, mark: nat)
    | Stop
    | Quit

  /** The steps of the pump and of publishers leave these alone. */
  predicate SameReplay(g: Gate, h: Gate)
  {
    h.cap == g.cap && h.round == g.round && h.stale == g.stale && h.foreign == g.foreign
    && h.ledger == g.ledger && h.appends == g.appends
  }

  function Stopped(g: Gate): (h: Gate)
    ensures SameReplay(g, h)
  {
    g.(stopped := true, replaying := false, pendingLive := [])
  }

  /** The first replayed id among ids, if any. */
  function FirstReplayed(ids: seq<EntryId>, replayed: set<EntryId>): Option<EntryId>
  {
    if ids == [] then None
    else if ids[0] in replayed then Some(ids[0])
    else FirstReplayed(ids[1..], replayed)
  }

  function MarkOf(records: seq<Record>, id: EntryId, seq_: nat): nat
  {
    if records == [] then 0
    else if records[0].id == id && records[0].mark >= seq_ then records[0].mark
    else MarkOf(records[1..], id, seq_)
  }

  /** Whether a replayed entry already carried the message. */
  function Verdict(g: Gate, p: Pending): (o: Outcome)
    ensures o.p == p
  {
    if !p.frame.message || p.seq_ == 0 || p.frame.payload !in g.ledger.entries then Delivered(p) else
    var records := g.ledger.entries[p.frame.payload];
    match FirstReplayed(Owners(records, p.seq_), g.replayed)
    case None => Delivered(p)
    case Some(id) => Suppressed(p, id, MarkOf(records, id, p.seq_))
  }

  function NamedIds(ids: seq<EntryId>): set<EntryId>
  {
    set i | 0 <= i < |ids| && ids[i] != "" :: ids[i]
  }

  /** Any page delivered while the gate is shut counts; own says that it was admitted in this replay. */
  function NoteIds(g: Gate, ids: seq<EntryId>, own: bool): (h: Gate)
    ensures h == g.(replayed := h.replayed, pages := h.pages, own := h.own)
  {
    if !g.replaying then g
    else g.(replayed := g.replayed + NamedIds(ids), pages := g.pages + NamedIds(ids),
            own := if own then g.own + NamedIds(ids) else g.own)
  }

  /** The items whose delivery is followed by a drain. */
  predicate Ends(item: Item)
  {
    item.Barrier? || (item.Page? && item.terminal)
  }

  /** A terminal item is being drained, being delivered, or queued. */
  predicate TerminalOutstanding(g: Gate)
  {
    || g.pump.Draining? || g.pump.Decided?
    || (g.pump.Delivering? && Ends(g.pump.x.item))
    || exists i :: 0 <= i < |g.q| && Ends(g.q[i].item)
  }

  predicate HasIds(item: Item)
  {
    item.Page? && NamedIds(item.ids) != {}
  }

  /** What the pump has yet to deliver, in order. */
  function Coming(g: Gate): seq<Queued>
  {
    (if g.pump.Delivering? then [g.pump.x] else []) + g.q
  }

  /** The pump will deliver a page with entry ids before any item that ends a replay. */
  predicate PageComing(g: Gate)
  {
    && (g.pump.Idle? || g.pump.Delivering?)
    && exists i :: 0 <= i < |Coming(g)| && HasIds(Coming(g)[i].item) && forall j :: 0 <= j < i ==> !Ends(Coming(g)[j].item)
  }

  /** Beginning a replay that is already open changes nothing. */
  function BeginReplay(g: Gate): Gate
  {
    if g.replaying then g
    else g.(replaying := true, replayed := {}, round := g.round + 1, stale := TerminalOutstanding(g),
            foreign := PageComing(g), retained := [], outcomes := [], pages := {}, own := {}, terminalSeen := false)
  }

  /** A live frame waits behind the gate, or is queued when there is none. */
  function EnqueueLive(g: Gate, f: Frame, seq_: nat): (h: Gate)
    ensures SameReplay(g, h)
  {
    if g.stopped then g
    else if g.replaying then
      if |g.pendingLive| < g.cap then
        var p := Pending(f, if f.message then seq_ else 0);
        g.(pendingLive := g.pendingLive + [p], retained := g.retained + [p])
      else if f.preview then g else Stopped(g)
    else if |g.q| < g.cap then g.(q := g.q + [Queued(Live(f), g.round)])
    else if f.preview then g else Stopped(g)
  }

  function AdmitItem(g: Gate, item: Item): (h: Gate)
    ensures SameReplay(g, h)
  {
    if item.Live? || |g.q| >= g.cap then g else g.(q := g.q + [Queued(item, g.round)])
  }

  function TakeItem(g: Gate): (h: Gate)
    ensures SameReplay(g, h)
  {
    if g.pump.Idle? && g.q != [] then g.(pump := Delivering(g.q[0]), q := g.q[1..]) else g
  }

  function DeliverItem(g: Gate, ok: bool): (h: Gate)
    ensures SameReplay(g, h)
  {
    if !g.pump.Delivering? then g
    else if !ok && !g.pump.x.item.Barrier? then Exit(g)
    else AfterDelivery(g, g.pump.x)
  }

  /** A page's ids are noted before the drain that its delivery may begin. */
  function AfterDelivery(g: Gate, x: Queued): (h: Gate)
    ensures SameReplay(g, h)
  {
    var own := x.round == g.round;
    var h := if x.item.Page? then NoteIds(g, x.item.ids, own) else g;
    h.(pump := if Ends(x.item) then Draining else Idle, terminalSeen := g.terminalSeen || (Ends(x.item) && own))
  }

  /** One round of the drain: refill, end the replay, or decide about the oldest frame. */
  function DrainNext(g: Gate): (h: Gate)
    ensures SameReplay(g, h)
  {
    if !g.pump.Draining? then g
    else if !g.replaying then g.(pump := Idle)
    else if g.drain == [] && g.pendingLive == [] then g.(pump := Idle, replaying := false)
    else if g.drain == [] then DecideOldest(g.(drain := g.pendingLive, pendingLive := []))
    else DecideOldest(g)
  }

  function DecideOldest(g: Gate): (h: Gate)
    requires g.drain != []
    ensures h == g.(pump := h.pump, replayed := h.replayed)
    ensures h.pump.Decided? && h.pump.round == g.round && h.pump.outcome.p == g.drain[0]
  {
    var o := Verdict(g, g.drain[0]);
    g.(pump := Decided(o, g.round), replayed := if o.Suppressed? then g.replayed - {o.id} else g.replayed)
  }

  function SettleOldest(g: Gate, ok: bool): (h: Gate)
    ensures SameReplay(g, h)
  {
    if !g.pump.Decided? then g
    else if g.pump.outcome.Delivered? && !ok then Exit(g)
    else g.(pump := Draining, drain := if g.drain == [] then [] else g.drain[1..],
            outcomes := if g.pump.round == g.round then g.outcomes + [g.pump.outcome] else g.outcomes)
  }

  /** The pump stops after a failed delivery, and the subscription is retired. */
  function Exit(g: Gate): (h: Gate)
    ensures SameReplay(g, h)
  {
    Stopped(g).(pump := Exited)
  }

  function RememberEntry(g: Gate, p: Payload, id: EntryId, mark: nat): Gate
  {
    g.(ledger := Remember(g.ledger, p, id, mark), appends := g.appends + {(p, id, mark)})
  }

  function Next(g: Gate, a: Action): Gate
  {
    match a
    case Begin => BeginReplay(g)
    case Retain(f, seq_) => EnqueueLive(g, f, seq_)
    case Admit(item) => AdmitItem(g, item)
    case Take => TakeItem(g)
    case Deliver(ok) => DeliverItem(g, ok)
    case Decide => DrainNext(g)
    case Settle(ok) => SettleOldest(g, ok)
    case Remembers(p, id, mark) => RememberEntry(g, p, id, mark)
    case Stop => if g.stopped then g else Stopped(g)
    case Quit => if g.stopped && g.pump.Idle? then Exit(g) else g
  }

  function Initial(cap: nat): Gate
  {
    Gate(cap, [], Idle, false, false, [], [], {}, Ledger(map[], []), 0, false, false, [], [], {}, {}, false, {})
  }

  function Run(cap: nat, actions: seq<Action>): Gate
  {
    if actions == [] then Initial(cap) else Next(Run(cap, actions[..|actions| - 1]), actions[|actions| - 1])
  }

  // The order of retained frames

  function Frames(os: seq<Outcome>): seq<Pending> { seq(|os|, i requires 0 <= i < |os| => os[i].p) }

  /** The retained frames, in publication order: settled, then draining, then waiting. */
  predicate InOrder(g: Gate)
  {
    && (!g.stopped ==> g.retained == Frames(g.outcomes) + (g.drain + g.pendingLive))
    && (!g.stopped && !g.replaying ==> g.drain == [] && g.pendingLive == [])
    && (g.pump.Decided? && !g.stopped ==>
          g.replaying && g.pump.round == g.round && g.drain != [] && g.pump.outcome.p == g.drain[0])
    && |g.pendingLive| <= g.cap
    && (g.pump.Exited? ==> g.stopped)
    && (g.cap == 0 ==> g.q == [] && (g.pump.Idle? || g.pump.Exited?))
  }

  lemma FramesSnoc(os: seq<Outcome>, o: Outcome)
    ensures Frames(os + [o]) == Frames(os) + [o.p]
  {}

  lemma EnqueueInOrder(g: Gate, f: Frame, seq_: nat)
    requires InOrder(g)
    ensures InOrder(EnqueueLive(g, f, seq_))
  {
    hide Frames;
    var p := Pending(f, if f.message then seq_ else 0);
    assert Frames(g.outcomes) + (g.drain + (g.pendingLive + [p])) == (Frames(g.outcomes) + (g.drain + g.pendingLive)) + [p];
  }

  lemma DecideInOrder(g: Gate)
    requires InOrder(g) && g.pump.Draining? && g.replaying && g.drain != []
    ensures InOrder(DecideOldest(g))
  {
    hide Frames, DecideOldest;
  }

  lemma RefilledInOrder(g: Gate)
    requires InOrder(g) && g.replaying && g.drain == [] && !g.pump.Decided?
    ensures InOrder(g.(drain := g.pendingLive, pendingLive := []))
  {
    hide Frames;
    assert [] + g.pendingLive == g.pendingLive == g.pendingLive + [];
  }

  lemma DrainInOrder(g: Gate)
    requires InOrder(g)
    ensures InOrder(DrainNext(g))
  {
    hide Frames, DecideOldest;
    if g.pump.Draining? && g.replaying && g.drain != [] {
      DecideInOrder(g);
    } else if g.pump.Draining? && g.replaying && g.pendingLive != [] {
      RefilledInOrder(g);
      DecideInOrder(g.(drain := g.pendingLive, pendingLive := []));
    }
  }

  lemma SettleInOrder(g: Gate, ok: bool)
    requires InOrder(g)
    ensures InOrder(SettleOldest(g, ok))
  {
    hide Frames;
    if g.pump.Decided? && !g.stopped {
      FramesSnoc(g.outcomes, g.pump.outcome);
      assert g.drain == [g.drain[0]] + g.drain[1..];
      assert Frames(g.outcomes) + (([g.drain[0]] + g.drain[1..]) + g.pendingLive) ==
             (Frames(g.outcomes) + [g.drain[0]]) + (g.drain[1..] + g.pendingLive);
    }
  }

  lemma BeginInOrder(g: Gate)
    requires InOrder(g)
    ensures InOrder(BeginReplay(g))
  {
    hide TerminalOutstanding, PageComing;
    assert Frames([]) + ([] + []) == [];
  }

  lemma DeliverInOrder(g: Gate, ok: bool)
    requires InOrder(g)
    ensures InOrder(DeliverItem(g, ok))
  {
    hide Frames, NoteIds;
  }

  lemma StepInOrder(g: Gate, a: Action)
    requires InOrder(g)
    ensures InOrder(Next(g, a))
  {
    hide Frames, EnqueueLive, DrainNext, SettleOldest, BeginReplay, DeliverItem, Remember;
    match a
    case Begin => BeginInOrder(g);
    case Retain(f, seq_) => EnqueueInOrder(g, f, seq_);
    case Deliver(ok) => DeliverInOrder(g, ok);
    case Decide => DrainInOrder(g);
    case Settle(ok) => SettleInOrder(g, ok);
    case _ =>
  }

  // Nothing is settled before the replay's own terminal

  /** Among the items that end a replay, only those of this one. */
  predicate OnlyOwn(g: Gate, x: Queued)
  {
    Ends(x.item) ==> x.round == g.round
  }

  /** With no older terminal outstanding at its beginning, a replay stays shut until its own. */
  predicate Shut(g: Gate)
  {
    g.round > 0 && !g.stale && !g.terminalSeen ==>
      && g.outcomes == [] && (!g.stopped ==> g.replaying)
      && !g.pump.Draining? && !g.pump.Decided? && (g.pump.Delivering? ==> OnlyOwn(g, g.pump.x))
      && (forall i :: 0 <= i < |g.q| ==> OnlyOwn(g, g.q[i]))
  }

  lemma StepShut(g: Gate, a: Action)
    requires Shut(g)
    ensures Shut(Next(g, a))
  {
    hide Verdict, Remember, NoteIds, DecideOldest;
  }

  // Suppression

  predicate Justified(g: Gate, o: Outcome)
  {
    o.Suppressed? ==>
      && o.p.frame.message && 0 < o.p.seq_ <= o.mark
      && (o.p.frame.payload, o.id, o.mark) in g.appends
      && o.id in g.pages && o.id !in g.replayed
  }

  /** What this replay has settled, and what its drain has decided about the frame in hand. */
  function Verdicts(g: Gate): seq<Outcome>
  {
    g.outcomes + (if g.pump.Decided? && g.pump.round == g.round then [g.pump.outcome] else [])
  }

  predicate DistinctOwners(os: seq<Outcome>)
  {
    forall i, j :: 0 <= i < j < |os| && os[i].Suppressed? && os[j].Suppressed? ==> os[i].id != os[j].id
  }

  predicate AllJustified(g: Gate)
  {
    forall i :: 0 <= i < |Verdicts(g)| ==> Justified(g, Verdicts(g)[i])
  }

  /** Every suppression is justified, and no entry suppresses two frames of a replay. */
  predicate Injective(g: Gate)
  {
    && AllJustified(g) && DistinctOwners(Verdicts(g)) && g.replayed <= g.pages
    && (g.replaying && (g.pump.Idle? || g.pump.Delivering?) ==> g.outcomes == [])
    && (g.pump.Decided? ==> g.pump.round <= g.round)
  }

  predicate Recorded(g: Gate)
  {
    forall p, i :: p in g.ledger.entries && 0 <= i < |g.ledger.entries[p]| ==>
      (p, g.ledger.entries[p][i].id, g.ledger.entries[p][i].mark) in g.appends
  }

  lemma RememberRecords(g: Gate, p: Payload, id: EntryId, mark: nat)
    requires Recorded(g)
    ensures Recorded(RememberEntry(g, p, id, mark))
  {
    var l, m := g.ledger, Remember(g.ledger, p, id, mark);
    forall q, i | q in m.entries && 0 <= i < |m.entries[q]|
      ensures (q, m.entries[q][i].id, m.entries[q][i].mark) in g.appends + {(p, id, mark)}
    {
      if q == p && q in l.entries && m.entries[q] != l.entries[q] {
        var all := l.entries[q] + [Record(id, mark)];
        var k := if |all| > MAX_IDS then i + |all| - MAX_IDS else i;
        assert m.entries[q][i] == all[k];
      }
    }
  }

  lemma StepRecorded(g: Gate, a: Action)
    requires Recorded(g)
    ensures Recorded(Next(g, a))
  {
    hide RememberEntry, Recorded, TerminalOutstanding, PageComing, Stopped, EnqueueLive, AdmitItem, TakeItem, DeliverItem, DrainNext, SettleOldest, Exit;
    if a.Remembers? {
      RememberRecords(g, a.payload, a.id, a.mark);
    } else {
      SameRecords(g, Next(g, a));
    }
  }

  lemma SameRecords(g: Gate, h: Gate)
    requires Recorded(g) && h.ledger == g.ledger && h.appends == g.appends
    ensures Recorded(h)
  {}

  lemma {:induction false} FirstReplayedOwns(ids: seq<EntryId>, replayed: set<EntryId>)
    ensures FirstReplayed(ids, replayed).Some? ==>
              FirstReplayed(ids, replayed).value in replayed && FirstReplayed(ids, replayed).value in ids
  {
    if ids != [] && ids[0] !in replayed { FirstReplayedOwns(ids[1..], replayed); }
  }

  lemma {:induction false} MarkRecorded(records: seq<Record>, id: EntryId, seq_: nat)
    requires exists i :: 0 <= i < |records| && Owns(records[i], seq_, id)
    ensures exists i :: 0 <= i < |records| && records[i] == Record(id, MarkOf(records, id, seq_))
    ensures MarkOf(records, id, seq_) >= seq_
  {
    var i :| 0 <= i < |records| && Owns(records[i], seq_, id);
    if !Owns(records[0], seq_, id) {
      assert Owns(records[1..][i - 1], seq_, id);
      MarkRecorded(records[1..], id, seq_);
      var k :| 0 <= k < |records[1..]| && records[1..][k] == Record(id, MarkOf(records[1..], id, seq_));
      assert records[k + 1] == records[1..][k];
    } else {
      assert records[0] == Record(id, MarkOf(records, id, seq_));
    }
  }

  /** A suppression names a recorded append of the same payload that is not older than the frame. */
  lemma VerdictJustified(g: Gate, p: Pending)
    requires Recorded(g) && g.replayed <= g.pages
    ensures var o := Verdict(g, p);
            o.Suppressed? ==>
              && o.p.frame.message && 0 < o.p.seq_ <= o.mark
              && (o.p.frame.payload, o.id, o.mark) in g.appends
              && o.id in g.pages && o.id in g.replayed
  {
    var o := Verdict(g, p);
    if o.Suppressed? {
      var records := g.ledger.entries[p.frame.payload];
      FirstReplayedOwns(Owners(records, p.seq_), g.replayed);
      OwnersExact(records, p.seq_, o.id);
      MarkRecorded(records, o.id, p.seq_);
      var k :| 0 <= k < |records| && records[k] == Record(o.id, o.mark);
    }
  }

  /** Verdicts stay justified when no id comes back to the replayed set and no page or append goes. */
  lemma VerdictsKept(g: Gate, h: Gate)
    requires Injective(g) && (h.outcomes == [] || h.outcomes == g.outcomes || h.outcomes == Verdicts(g))
    requires Verdicts(h) == Verdicts(g) || (Verdicts(h) == [])
    requires g.appends <= h.appends && (Verdicts(h) != [] ==> g.pages <= h.pages && h.replayed <= g.replayed)
    ensures AllJustified(h) && DistinctOwners(Verdicts(h))
  {
    forall i | 0 <= i < |Verdicts(h)| ensures Justified(h, Verdicts(h)[i]) {
      assert Justified(g, Verdicts(g)[i]);
    }
  }

  /** A verdict about the frame in hand consumes its id, so no other verdict names it. */
  lemma DecideInjective(g: Gate)
    requires Injective(g) && Recorded(g) && g.pump.Draining? && g.drain != []
    ensures Injective(DecideOldest(g))
  {
    hide Verdict;
    VerdictJustified(g, g.drain[0]);
    var h := DecideOldest(g);
    assert Verdicts(g) == g.outcomes && Verdicts(h) == g.outcomes + [h.pump.outcome];
    forall i | 0 <= i < |Verdicts(h)| ensures Justified(h, Verdicts(h)[i]) {
      if i < |g.outcomes| { assert Justified(g, Verdicts(g)[i]); }
    }
    assert forall i :: 0 <= i < |g.outcomes| ==> Justified(g, g.outcomes[i]);
  }

  lemma DrainInjective(g: Gate)
    requires Injective(g) && Recorded(g)
    ensures Injective(DrainNext(g))
  {
    hide DecideOldest, AllJustified, DistinctOwners, Recorded;
    var h := DrainNext(g);
    if g.pump.Draining? && g.replaying && g.drain == [] && g.pendingLive != [] {
      var m := g.(drain := g.pendingLive, pendingLive := []);
      SameRecords(g, m);
      VerdictsKept(g, m);
      DecideInjective(m);
    } else if g.pump.Draining? && g.replaying && g.drain != [] {
      DecideInjective(g);
    } else {
      VerdictsKept(g, h);
    }
  }

  lemma DeliverInjective(g: Gate, ok: bool)
    requires Injective(g)
    ensures Injective(DeliverItem(g, ok))
  {
    hide AllJustified, DistinctOwners, Exit, Stopped;
    var h := DeliverItem(g, ok);
    if g.pump.Delivering? {
      StopInjective(g);
      if ok || g.pump.x.item.Barrier? { DeliveredInjective(g, h); }
    }
  }

  lemma DeliveredInjective(g: Gate, h: Gate)
    requires Injective(g) && g.pump.Delivering? && h == DeliverItem(g, true)
    ensures Injective(h)
  {
    hide AllJustified, DistinctOwners;
    assert Verdicts(g) == g.outcomes == Verdicts(h);
    if g.replaying { NoVerdicts(h); } else { VerdictsKept(g, h); }
  }

  lemma NoVerdicts(h: Gate)
    requires Verdicts(h) == []
    ensures AllJustified(h) && DistinctOwners(Verdicts(h))
  {}

  lemma SettleInjective(g: Gate, ok: bool)
    requires Injective(g)
    ensures Injective(SettleOldest(g, ok))
  {
    hide AllJustified, DistinctOwners;
    var h := SettleOldest(g, ok);
    if g.pump.Decided? {
      if g.pump.outcome.Delivered? && !ok { StopInjective(g); } else { VerdictsKept(g, h); }
    }
  }

  /** What was decided but not delivered when the pump exits is no verdict. */
  lemma StopInjective(g: Gate)
    requires Injective(g)
    ensures Injective(Stopped(g)) && Injective(Exit(g))
  {
    hide DistinctOwners, Justified;
    assert Verdicts(Stopped(g)) == Verdicts(g);
    assert Verdicts(Exit(g)) == g.outcomes;
    forall i | 0 <= i < |Verdicts(g)| ensures Justified(Stopped(g), Verdicts(g)[i]) && Justified(Exit(g), Verdicts(g)[i]) {
      assert Justified(g, Verdicts(g)[i]);
      SameJustified(g, Stopped(g), Verdicts(g)[i]);
      SameJustified(g, Exit(g), Verdicts(g)[i]);
    }
    forall i | 0 <= i < |g.outcomes| ensures Justified(Exit(g), g.outcomes[i]) { assert g.outcomes[i] == Verdicts(g)[i]; }
    FewerOwners(Verdicts(g), g.outcomes);
  }

  lemma SameJustified(g: Gate, h: Gate, o: Outcome)
    requires Justified(g, o) && g.appends == h.appends && g.pages == h.pages && g.replayed == h.replayed
    ensures Justified(h, o)
  {}

  lemma FewerOwners(os: seq<Outcome>, some: seq<Outcome>)
    requires DistinctOwners(os) && some <= os
    ensures DistinctOwners(some)
  {
    assert forall i :: 0 <= i < |some| ==> some[i] == os[i];
  }

  lemma EnqueueInjective(g: Gate, f: Frame, seq_: nat)
    requires Injective(g)
    ensures Injective(EnqueueLive(g, f, seq_))
  {
    hide AllJustified, DistinctOwners, Stopped;
    var h := EnqueueLive(g, f, seq_);
    StopInjective(g);
    if h != Stopped(g) { VerdictsKept(g, h); }
  }

  lemma StepInjective(g: Gate, a: Action)
    requires Injective(g) && Recorded(g)
    ensures Injective(Next(g, a))
  {
    hide Injective, Recorded, DrainNext, SettleOldest, DeliverItem, TerminalOutstanding, PageComing, Remember, Stopped, Exit,
         EnqueueLive, AdmitItem, TakeItem, BeginReplay, RememberEntry;
    match a
    case Begin => BeginInjective(g);
    case Retain(f, seq_) => EnqueueInjective(g, f, seq_);
    case Admit(item) => AdmitInjective(g, item);
    case Take => TakeInjective(g);
    case Deliver(ok) => DeliverInjective(g, ok);
    case Decide => DrainInjective(g);
    case Settle(ok) => SettleInjective(g, ok);
    case Remembers(p, id, mark) => RememberInjective(g, p, id, mark);
    case Stop => StopInjective(g);
    case Quit => StopInjective(g);
  }

  lemma BeginInjective(g: Gate)
    requires Injective(g)
    ensures Injective(BeginReplay(g))
  {
    hide AllJustified, DistinctOwners, TerminalOutstanding, PageComing;
    if !g.replaying { NoVerdicts(BeginReplay(g)); }
  }

  lemma AdmitInjective(g: Gate, item: Item)
    requires Injective(g)
    ensures Injective(AdmitItem(g, item))
  {
    hide AllJustified, DistinctOwners;
    VerdictsKept(g, AdmitItem(g, item));
  }

  lemma TakeInjective(g: Gate)
    requires Injective(g)
    ensures Injective(TakeItem(g))
  {
    hide AllJustified, DistinctOwners;
    VerdictsKept(g, TakeItem(g));
  }

  lemma RememberInjective(g: Gate, p: Payload, id: EntryId, mark: nat)
    requires Injective(g)
    ensures Injective(RememberEntry(g, p, id, mark))
  {
    hide AllJustified, DistinctOwners, Remember;
    VerdictsKept(g, RememberEntry(g, p, id, mark));
  }

  /** A verdict of this replay has dropped a message because of the entry. */
  predicate Consumed(os: seq<Outcome>, id: EntryId)
  {
    exists j :: 0 <= j < |os| && os[j].Suppressed? && os[j].id == id
  }

  /** The ids that can still suppress are those of the delivered pages that no verdict has used up. */
  ghost predicate Unused(g: Gate)
  {
    forall id :: id in g.replayed <==> id in g.pages && !Consumed(Verdicts(g), id)
  }

  lemma UnusedSame(g: Gate, h: Gate)
    requires Unused(g) && Verdicts(h) == Verdicts(g) && h.replayed == g.replayed && h.pages == g.pages
    ensures Unused(h)
  {}

  lemma ConsumedSnoc(os: seq<Outcome>, o: Outcome, id: EntryId)
    ensures Consumed(os + [o], id) <==> Consumed(os, id) || (o.Suppressed? && o.id == id)
  {
    var all := os + [o];
    if j :| 0 <= j < |os| && os[j].Suppressed? && os[j].id == id { assert all[j] == os[j]; }
    assert all[|os|] == o;
  }

  lemma DecideUnused(g: Gate)
    requires Unused(g) && Injective(g) && Recorded(g) && g.pump.Draining? && g.drain != []
    ensures Unused(DecideOldest(g))
  {
    hide Verdict, Consumed, Recorded, AllJustified;
    VerdictJustified(g, g.drain[0]);
    var h := DecideOldest(g);
    assert Verdicts(g) == g.outcomes && Verdicts(h) == g.outcomes + [h.pump.outcome];
    forall id ensures id in h.replayed <==> id in h.pages && !Consumed(Verdicts(h), id) {
      ConsumedSnoc(g.outcomes, h.pump.outcome, id);
    }
  }

  lemma DrainUnused(g: Gate)
    requires Unused(g) && Injective(g) && Recorded(g)
    ensures Unused(DrainNext(g))
  {
    hide DecideOldest, Unused, AllJustified, DistinctOwners, Recorded;
    if g.pump.Draining? && g.replaying && g.drain == [] && g.pendingLive != [] {
      var m := g.(drain := g.pendingLive, pendingLive := []);
      SameRecords(g, m);
      VerdictsKept(g, m);
      UnusedSame(g, m);
      DecideUnused(m);
    } else if g.pump.Draining? && g.replaying && g.drain != [] {
      DecideUnused(g);
    } else {
      UnusedSame(g, DrainNext(g));
    }
  }

  lemma DeliverUnused(g: Gate)
    requires Unused(g) && Injective(g) && g.pump.Delivering?
    ensures Unused(AfterDelivery(g, g.pump.x))
  {
    hide AllJustified, DistinctOwners;
    var h := AfterDelivery(g, g.pump.x);
    assert Verdicts(h) == Verdicts(g) == g.outcomes;
    if g.replaying {
      forall id ensures !Consumed(Verdicts(h), id) {}
    }
  }

  /** What was decided to be delivered and was not is no verdict, and consumed nothing. */
  lemma StopUnused(g: Gate)
    requires Unused(g)
    ensures Unused(Stopped(g))
    ensures !(g.pump.Decided? && g.pump.outcome.Suppressed?) ==> Unused(Exit(g))
  {
    hide Consumed;
    assert Verdicts(Stopped(g)) == Verdicts(g) && Verdicts(Exit(g)) == g.outcomes;
    if g.pump.Decided? {
      forall id
        ensures Consumed(g.outcomes + [g.pump.outcome], id) <==>
                (Consumed(g.outcomes, id) || (g.pump.outcome.Suppressed? && g.pump.outcome.id == id))
      {
        ConsumedSnoc(g.outcomes, g.pump.outcome, id);
      }
    } else {
      assert Verdicts(g) == g.outcomes;
    }
  }

  lemma SettleUnused(g: Gate, ok: bool)
    requires Unused(g)
    ensures Unused(SettleOldest(g, ok))
  {
    hide Unused, Exit;
    StopUnused(g);
    var h := SettleOldest(g, ok);
    if g.pump.Decided? && !(g.pump.outcome.Delivered? && !ok) {
      assert Verdicts(h) == Verdicts(g);
      UnusedSame(g, h);
    }
  }

  lemma EnqueueUnused(g: Gate, f: Frame, seq_: nat)
    requires Unused(g)
    ensures Unused(EnqueueLive(g, f, seq_))
  {
    hide Unused, Stopped;
    StopUnused(g);
    var h := EnqueueLive(g, f, seq_);
    if h != Stopped(g) { UnusedSame(g, h); }
  }

  lemma BeginUnused(g: Gate)
    requires Unused(g) && Injective(g)
    ensures Unused(BeginReplay(g))
  {
    hide TerminalOutstanding, PageComing, AllJustified, DistinctOwners;
    var h := BeginReplay(g);
    if h != g { assert Verdicts(h) == []; }
  }

  lemma AdmitUnused(g: Gate, item: Item)
    requires Unused(g)
    ensures Unused(AdmitItem(g, item))
  {
    hide Unused;
    UnusedSame(g, AdmitItem(g, item));
  }

  lemma TakeUnused(g: Gate)
    requires Unused(g)
    ensures Unused(TakeItem(g))
  {
    hide Unused;
    UnusedSame(g, TakeItem(g));
  }

  lemma RememberUnused(g: Gate, p: Payload, id: EntryId, mark: nat)
    requires Unused(g)
    ensures Unused(RememberEntry(g, p, id, mark))
  {
    hide Unused, Remember;
    UnusedSame(g, RememberEntry(g, p, id, mark));
  }

  lemma DeliveryUnused(g: Gate, ok: bool)
    requires Unused(g) && Injective(g)
    ensures Unused(DeliverItem(g, ok))
  {
    hide Unused, Injective, Exit, AfterDelivery;
    StopUnused(g);
    if g.pump.Delivering? { DeliverUnused(g); }
  }

  lemma StepUnused(g: Gate, a: Action)
    requires Unused(g) && Injective(g) && Recorded(g)
    ensures Unused(Next(g, a))
  {
    hide Unused, Injective, Recorded, DrainNext, SettleOldest, DeliverItem, TerminalOutstanding, PageComing, Remember, Stopped, Exit,
         EnqueueLive, BeginReplay, AdmitItem, TakeItem, RememberEntry;
    match a
    case Begin => BeginUnused(g);
    case Retain(f, seq_) => EnqueueUnused(g, f, seq_);
    case Admit(item) => AdmitUnused(g, item);
    case Take => TakeUnused(g);
    case Deliver(ok) => DeliveryUnused(g, ok);
    case Decide => DrainUnused(g);
    case Settle(ok) => SettleUnused(g, ok);
    case Remembers(p, id, mark) => RememberUnused(g, p, id, mark);
    case Stop => StopUnused(g);
    case Quit => StopUnused(g);
  }

  ghost predicate Inv(g: Gate)
  {
    WfLedger(g.ledger) && Recorded(g) && InOrder(g) && Shut(g) && Injective(g) && Unused(g)
  }

  lemma StepLedger(g: Gate, a: Action)
    requires WfLedger(g.ledger)
    ensures WfLedger(Next(g, a).ledger)
  {
    hide WfLedger, Remember, TerminalOutstanding, PageComing, Stopped, EnqueueLive, AdmitItem, TakeItem, DeliverItem, DrainNext, SettleOldest, Exit;
    if a.Remembers? { RememberKeeps(g.ledger, a.payload, a.id, a.mark); }
  }

  lemma StepKeeps(g: Gate, a: Action)
    requires Inv(g)
    ensures Inv(Next(g, a))
  {
    hide Next, WfLedger, Recorded, InOrder, Shut, Injective, Unused;
    StepLedger(g, a);
    StepRecorded(g, a);
    StepInOrder(g, a);
    StepShut(g, a);
    StepInjective(g, a);
    StepUnused(g, a);
  }

  lemma {:induction false} RunKeeps(cap: nat, actions: seq<Action>)
    ensures Inv(Run(cap, actions))
  {
    hide Next;
    if actions != [] {
      RunKeeps(cap, actions[..|actions| - 1]);
      StepKeeps(Run(cap, actions[..|actions| - 1]), actions[|actions| - 1]);
    }
  }

  // What every run guarantees

  /** Retained frames are settled in publication order, and all of them by the end of the replay. */
  lemma DrainsInOrder(cap: nat, actions: seq<Action>)
    requires !Run(cap, actions).stopped
    ensures var g := Run(cap, actions);
            && Frames(g.outcomes) <= g.retained
            && (!g.replaying ==> Frames(g.outcomes) == g.retained)
  {
    RunKeeps(cap, actions);
    var g := Run(cap, actions);
    assert Frames(g.outcomes) + ([] + []) == Frames(g.outcomes);
  }

  predicate NoBegin(actions: seq<Action>)
  {
    forall k :: 0 <= k < |actions| ==> !actions[k].Begin?
  }

  lemma NextKeepsRound(g: Gate, a: Action)
    requires !a.Begin?
    ensures Next(g, a).round == g.round && Next(g, a).stale == g.stale && Next(g, a).foreign == g.foreign
  {
    hide Remember, TerminalOutstanding, PageComing, Stopped, EnqueueLive, AdmitItem, TakeItem, DeliverItem, DrainNext, SettleOldest, Exit;
  }

  lemma {:induction false} RoundKept(cap: nat, actions: seq<Action>, more: seq<Action>)
    requires NoBegin(more)
    ensures var g, h := Run(cap, actions), Run(cap, actions + more); h.round == g.round && h.stale == g.stale && h.foreign == g.foreign
  {
    hide Run, Next;
    if more == [] {
      assert actions + more == actions;
    } else {
      var n := |more| - 1;
      RoundKept(cap, actions, more[..n]);
      assert actions + more == (actions + more[..n]) + [more[n]];
      RunSnoc(cap, actions + more[..n], more[n]);
      NextKeepsRound(Run(cap, actions + more[..n]), more[n]);
    }
  }

  /**
    A replay that begins with no older terminal outstanding settles no retained frame, and
    stays shut unless the subscription stops, until a terminal item of its own is delivered.
   */
  lemma NothingBeforeTerminal(cap: nat, actions: seq<Action>, more: seq<Action>)
    requires !Run(cap, actions).replaying && !TerminalOutstanding(Run(cap, actions)) && NoBegin(more)
    ensures var h := Run(cap, (actions + [Begin]) + more);
            !h.terminalSeen ==> h.outcomes == [] && (h.stopped || h.replaying)
  {
    hide Run, Recorded, InOrder, Injective, WfLedger;
    RunSnoc(cap, actions, Begin);
    RoundKept(cap, actions + [Begin], more);
    RunKeeps(cap, (actions + [Begin]) + more);
  }

  /** A retained frame was settled before this replay's own terminal item. */
  predicate Early(g: Gate)
  {
    !g.terminalSeen && g.outcomes != []
  }

  /** The gate reopened before this replay's own terminal item. */
  predicate ReopenedEarly(g: Gate)
  {
    !g.terminalSeen && !g.stopped && !g.replaying
  }

  /** A fresh replay behind an older terminal that is still to be drained. */
  predicate Behind(g: Gate)
  {
    && 0 < g.cap && g.replaying && !g.stopped && !g.terminalSeen && g.outcomes == [] && g.drain == [] && g.pendingLive == []
    && !g.pump.Decided? && !g.pump.Exited? && TerminalOutstanding(g)
    && (g.pump.Delivering? ==> g.pump.x.round < g.round) && (forall i :: 0 <= i < |g.q| ==> g.q[i].round < g.round)
  }

  function RunFrom(g: Gate, actions: seq<Action>): Gate
    decreases |actions|
  {
    if actions == [] then g else RunFrom(Next(g, actions[0]), actions[1..])
  }

  lemma {:induction false} RunFromIsRun(cap: nat, actions: seq<Action>, more: seq<Action>)
    ensures RunFrom(Run(cap, actions), more) == Run(cap, actions + more)
    decreases |more|
  {
    hide Run, Next;
    if more == [] {
      assert actions + more == actions;
    } else {
      RunSnoc(cap, actions, more[0]);
      RunFromIsRun(cap, actions + [more[0]], more[1..]);
      assert (actions + [more[0]]) + more[1..] == actions + more;
    }
  }

  /** The pump comes to drain the older terminal without any help. */
  lemma {:induction false} PumpReachesDrain(g: Gate) returns (more: seq<Action>)
    requires Behind(g)
    ensures NoBegin(more) && Behind(RunFrom(g, more)) && RunFrom(g, more).pump.Draining?
    decreases |g.q|, if g.pump.Delivering? then 1 else 0
  {
    hide Verdict, Remember;
    if g.pump.Draining? {
      more := [];
    } else if g.pump.Delivering? {
      var h := Next(g, Deliver(true));
      var rest := PumpReachesDrain(h);
      more := [Deliver(true)] + rest;
    } else {
      var h := Next(g, Take);
      TakeBehind(g);
      var rest := PumpReachesDrain(h);
      more := [Take] + rest;
    }
  }

  lemma TakeBehind(g: Gate)
    requires Behind(g) && g.pump.Idle?
    ensures g.q != [] && Behind(TakeItem(g))
  {
    var i :| 0 <= i < |g.q| && Ends(g.q[i].item);
    if i > 0 { assert g.q[1..][i - 1] == g.q[i]; }
  }

  /** A drain that settles a frame of a replay it does not belong to, or reopens its gate. */
  lemma DrainedEarly(g: Gate, f: Frame)
    requires Behind(g) && g.pump.Draining? && !f.message
    ensures Early(RunFrom(g, [Retain(f, 0), Decide, Settle(true)]))
    ensures ReopenedEarly(RunFrom(g, [Decide]))
  {
    hide RunFrom, Behind, Next;
    var a, b, c := Retain(f, 0), Decide, Settle(true);
    Unroll3(g, a, b, c, []);
    RunNothingFrom(Unpacked(g, a, b, c));
    assert [a, b, c] + [] == [a, b, c] && [b] + [] == [b];
    RunCons(g, b, []);
    RunNothingFrom(Next(g, b));
    DrainSettles(g, f);
  }

  lemma DrainSettles(g: Gate, f: Frame)
    requires Behind(g) && g.pump.Draining? && !f.message
    ensures Early(Unpacked(g, Retain(f, 0), Decide, Settle(true))) && ReopenedEarly(Next(g, Decide))
  {
    hide DecideOldest, TerminalOutstanding, PageComing;
    var h := Next(g, Retain(f, 0));
    var m := h.(drain := h.pendingLive, pendingLive := []);
    assert h.pendingLive == [Pending(f, 0)];
    DecidesDelivery(m);
    assert Next(h, Decide) == DecideOldest(m);
  }

  lemma DecidesDelivery(g: Gate)
    requires g.drain != [] && !g.drain[0].frame.message
    ensures DecideOldest(g).pump == Decided(Delivered(g.drain[0]), g.round)
  {}

  /** The capacity is fixed. */
  lemma {:induction false} CapKept(cap: nat, actions: seq<Action>)
    ensures Run(cap, actions).cap == cap
  {
    hide Next;
    if actions != [] {
      CapKept(cap, actions[..|actions| - 1]);
      NextKeepsCap(Run(cap, actions[..|actions| - 1]), actions[|actions| - 1]);
    }
  }

  lemma NextKeepsCap(g: Gate, a: Action)
    ensures Next(g, a).cap == g.cap
  {
    hide Remember, TerminalOutstanding, PageComing, Stopped, EnqueueLive, AdmitItem, TakeItem, DeliverItem, DrainNext, SettleOldest, Exit;
  }

  /** The queue is bounded, and no item carries the number of a replay that has not begun. */
  predicate Dated(g: Gate)
  {
    |g.q| <= g.cap && (g.pump.Delivering? ==> g.pump.x.round <= g.round) && forall i :: 0 <= i < |g.q| ==> g.q[i].round <= g.round
  }

  lemma {:induction false} RunDated(cap: nat, actions: seq<Action>)
    ensures Dated(Run(cap, actions))
  {
    hide Next;
    if actions != [] {
      RunDated(cap, actions[..|actions| - 1]);
      NextDated(Run(cap, actions[..|actions| - 1]), actions[|actions| - 1]);
    }
  }

  lemma DatedKept(g: Gate, h: Gate)
    requires Dated(g) && g.round <= h.round && (h.pump.Delivering? ==> h.pump == g.pump)
    requires h.q == g.q && h.cap == g.cap
    ensures Dated(h)
  {}

  lemma NextDated(g: Gate, a: Action)
    requires Dated(g)
    ensures Dated(Next(g, a))
  {
    hide Remember, TerminalOutstanding, PageComing, Dated, EnqueueLive, AdmitItem, TakeItem, DeliverItem, DrainNext, SettleOldest,
         Stopped, Exit;
    ExitDated(g);
    match a
    case Begin => DatedKept(g, Next(g, a));
    case Retain(f, seq_) => EnqueueDated(g, f, seq_);
    case Admit(item) => AdmitDated(g, item);
    case Take => TakeDated(g);
    case Deliver(ok) => DeliverDated(g, ok);
    case Decide => DrainDated(g);
    case Settle(ok) => SettleDated(g, ok);
    case Remembers(_, _, _) => DatedKept(g, Next(g, a));
    case Stop =>
    case Quit =>
  }

  lemma ExitDated(g: Gate)
    requires Dated(g)
    ensures Dated(Stopped(g)) && Dated(Exit(g))
  {}

  lemma EnqueueDated(g: Gate, f: Frame, seq_: nat)
    requires Dated(g)
    ensures Dated(EnqueueLive(g, f, seq_))
  {
    hide Stopped;
    ExitDated(g);
  }

  lemma AdmitDated(g: Gate, item: Item)
    requires Dated(g)
    ensures Dated(AdmitItem(g, item))
  {}

  lemma TakeDated(g: Gate)
    requires Dated(g)
    ensures Dated(TakeItem(g))
  {}

  lemma DeliverDated(g: Gate, ok: bool)
    requires Dated(g)
    ensures Dated(DeliverItem(g, ok))
  {
    hide Exit;
    ExitDated(g);
  }

  lemma DrainDated(g: Gate)
    requires Dated(g)
    ensures Dated(DrainNext(g))
  {
    hide DecideOldest;
  }

  lemma SettleDated(g: Gate, ok: bool)
    requires Dated(g)
    ensures Dated(SettleOldest(g, ok))
  {
    hide Exit;
    ExitDated(g);
  }

  lemma BeginsBehind(cap: nat, actions: seq<Action>)
    requires !Run(cap, actions).replaying && !Run(cap, actions).stopped && TerminalOutstanding(Run(cap, actions))
    ensures Behind(Run(cap, actions + [Begin]))
  {
    hide Run, Next, Frames, Injective, Shut, WfLedger, Recorded;
    RunSnoc(cap, actions, Begin);
    RunKeeps(cap, actions);
    CapKept(cap, actions);
    RunDated(cap, actions);
    Begins(Run(cap, actions));
  }

  lemma Begins(g: Gate)
    requires InOrder(g) && Dated(g) && !g.replaying && !g.stopped && TerminalOutstanding(g)
    ensures Behind(Next(g, Begin))
  {
    hide Frames;
  }

  /**
    A replay that begins can have a frame settled, or its gate reopened, before its own
    terminal item if and only if an older terminal item is outstanding at that moment:
    draining, being delivered, or queued.
   */
  lemma EarlyExactly(cap: nat, actions: seq<Action>)
    requires !Run(cap, actions).replaying && !Run(cap, actions).stopped
    ensures TerminalOutstanding(Run(cap, actions)) <==>
            exists more :: NoBegin(more) && Early(Run(cap, (actions + [Begin]) + more))
    ensures TerminalOutstanding(Run(cap, actions)) <==>
            exists more :: NoBegin(more) && ReopenedEarly(Run(cap, (actions + [Begin]) + more))
  {
    hide Run, RunFrom, TerminalOutstanding, PageComing, Behind;
    var begun := actions + [Begin];
    if TerminalOutstanding(Run(cap, actions)) {
      BeginsBehind(cap, actions);
      var g := Run(cap, begun);
      var more := PumpReachesDrain(g);
      var f := Frame(false, false, "");
      RunFromIsRun(cap, begun, more);
      DrainedEarly(RunFrom(g, more), f);
      var settle, reopen := [Retain(f, 0), Decide, Settle(true)], [Decide];
      RunFromIsRun(cap, begun + more, settle);
      RunFromIsRun(cap, begun + more, reopen);
      assert (begun + more) + settle == begun + (more + settle) && (begun + more) + reopen == begun + (more + reopen);
      assert NoBegin(more + settle) && Early(Run(cap, begun + (more + settle)));
      assert NoBegin(more + reopen) && ReopenedEarly(Run(cap, begun + (more + reopen)));
    } else {
      forall more | NoBegin(more) ensures !Early(Run(cap, begun + more)) && !ReopenedEarly(Run(cap, begun + more)) {
        NothingBeforeTerminal(cap, actions, more);
      }
    }
  }

  /** The terminal item of a history replay. */
  function Terminal(f: Frame): Item
  {
    Page(f, [], true)
  }

  /** A replay that queued a second terminal after its deadline, until the first one has ended it. */
  function FirstReplay(page: Frame): seq<Action>
  {
    [Begin, Admit(Terminal(page)), Admit(Terminal(page)), Take, Deliver(true), Decide]
  }

  function Unpacked(g: Gate, a: Action, b: Action, c: Action): Gate
  {
    Next(Next(Next(g, a), b), c)
  }

  lemma Unroll3(g: Gate, a: Action, b: Action, c: Action, rest: seq<Action>)
    ensures RunFrom(g, [a, b, c] + rest) == RunFrom(Unpacked(g, a, b, c), rest)
  {
    hide Next, RunFrom;
    RunCons(g, a, [b, c] + rest);
    RunCons(Next(g, a), b, [c] + rest);
    RunCons(Next(Next(g, a), b), c, rest);
    assert [a] + ([b, c] + rest) == [a, b, c] + rest && [b] + ([c] + rest) == [b, c] + rest;
  }

  lemma RunCons(g: Gate, a: Action, rest: seq<Action>)
    ensures RunFrom(g, [a] + rest) == RunFrom(Next(g, a), rest)
  {
    hide Next;
    assert ([a] + rest)[1..] == rest;
  }

  /** The second terminal is still queued when that replay is over. */
  lemma SecondTerminalQueued(page: Frame)
    ensures var g := Run(2, FirstReplay(page));
            && g.cap == 2 && !g.replaying && !g.stopped && g.pump == Idle && g.q == [Queued(Terminal(page), 1)] && g.round == 1
            && g.pendingLive == [] && g.drain == [] && g.ledger == Ledger(map[], [])
  {
    hide Run, RunFrom, Verdict, Remember, TerminalOutstanding, PageComing;
    var t := Admit(Terminal(page));
    RunNothing(2);
    RunFromIsRun(2, [], FirstReplay(page));
    assert [] + FirstReplay(page) == FirstReplay(page) == [Begin, t, t] + ([Take, Deliver(true), Decide] + []);
    Unroll3(Initial(2), Begin, t, t, [Take, Deliver(true), Decide] + []);
    var h := Unpacked(Initial(2), Begin, t, t);
    assert h.q == [Queued(Terminal(page), 1), Queued(Terminal(page), 1)];
    Unroll3(h, Take, Deliver(true), Decide, []);
    RunNothingFrom(Unpacked(h, Take, Deliver(true), Decide));
  }

  lemma RunNothingFrom(g: Gate)
    ensures RunFrom(g, []) == g
  {}

  /** A drain that finds one frame of no message settles it. */
  lemma SettlesPending(h: Gate, f: Frame)
    requires h.pump == Delivering(Queued(Terminal(f), 1)) && h.round == 2 && h.replaying && !h.terminalSeen && h.outcomes == []
    requires |h.pendingLive| == 1 && h.pendingLive[0].seq_ == 0 && h.drain == []
    ensures var g := Unpacked(h, Deliver(true), Decide, Settle(true));
            g.replaying && Early(g) && g.outcomes == [Delivered(h.pendingLive[0])]
  {
    hide Owners, FirstReplayed, MarkOf;
  }

  /** The next replay begins behind it, and the drain of the older terminal settles its frame. */
  lemma QueuedTerminalDrainsEarly(f: Frame, page: Frame)
    ensures var g := Run(2, FirstReplay(page) + [Begin, Retain(f, 0), Take, Deliver(true), Decide, Settle(true)]);
            g.replaying && Early(g) && g.outcomes == [Delivered(Pending(f, 0))]
  {
    hide Run, RunFrom, FirstReplay, TerminalOutstanding, PageComing, DeliverItem, DrainNext, SettleOldest, Early;
    SecondTerminalQueued(page);
    var g := Run(2, FirstReplay(page));
    var first, second := [Begin, Retain(f, 0), Take], [Deliver(true), Decide, Settle(true)];
    RunFromIsRun(2, FirstReplay(page), first + (second + []));
    assert first + (second + []) == [Begin, Retain(f, 0), Take, Deliver(true), Decide, Settle(true)];
    Unroll3(g, Begin, Retain(f, 0), Take, second + []);
    var h := Unpacked(g, Begin, Retain(f, 0), Take);
    assert h.pump == Delivering(Queued(Terminal(page), 1)) && h.round == 2 && h.pendingLive == [Pending(f, 0)];
    Unroll3(h, Deliver(true), Decide, Settle(true), []);
    SettlesPending(h, page);
    RunNothingFrom(Unpacked(h, Deliver(true), Decide, Settle(true)));
  }

  /** The next replay begins while that older terminal is already being drained. */
  lemma BeginsInDrain(page: Frame)
    ensures var h := Unpacked(Run(2, FirstReplay(page)), Take, Deliver(true), Begin);
            && h.pump == Draining && h.round == 2 && h.replaying && h.outcomes == [] && h.cap == 2 && !h.stopped && !h.terminalSeen
            && h.pendingLive == [] && h.drain == [] && h.ledger == Ledger(map[], [])
  {
    hide Run, Owners, FirstReplay, TerminalOutstanding, PageComing;
    SecondTerminalQueued(page);
  }

  /** A drain settles what is retained during it. */
  lemma SettlesRetained(h: Gate, f: Frame)
    requires h.pump == Draining && h.replaying && !h.terminalSeen && h.outcomes == [] && h.cap == 2 && !h.stopped
    requires h.pendingLive == [] && h.drain == [] && h.ledger == Ledger(map[], [])
    ensures var g := Unpacked(h, Retain(f, 0), Decide, Settle(true));
            g.replaying && Early(g) && g.outcomes == [Delivered(Pending(f, 0))]
  {
    hide Owners, FirstReplayed, MarkOf;
    assert Next(h, Retain(f, 0)).pendingLive == [Pending(f, 0)];
  }

  /** The same when that older terminal is already being drained. */
  lemma RacingBeginDrainsEarly(f: Frame, page: Frame)
    ensures var g := Run(2, FirstReplay(page) + [Take, Deliver(true), Begin, Retain(f, 0), Decide, Settle(true)]);
            g.replaying && Early(g) && g.outcomes == [Delivered(Pending(f, 0))]
  {
    hide Run, RunFrom, FirstReplay, Unpacked, Early;
    var g := Run(2, FirstReplay(page));
    var first, second := [Take, Deliver(true), Begin], [Retain(f, 0), Decide, Settle(true)];
    RunFromIsRun(2, FirstReplay(page), first + (second + []));
    assert first + (second + []) == [Take, Deliver(true), Begin, Retain(f, 0), Decide, Settle(true)];
    Unroll3(g, Take, Deliver(true), Begin, second + []);
    var h := Unpacked(g, Take, Deliver(true), Begin);
    BeginsInDrain(page);
    SettlesRetained(h, f);
    Unroll3(h, Retain(f, 0), Decide, Settle(true), []);
    RunNothingFrom(Unpacked(h, Retain(f, 0), Decide, Settle(true)));
  }

  lemma RunNothing(cap: nat)
    ensures Run(cap, []) == Initial(cap)
  {}

  lemma RunSnoc(cap: nat, actions: seq<Action>, a: Action)
    ensures Run(cap, actions + [a]) == Next(Run(cap, actions), a)
  {
    assert (actions + [a])[..|actions|] == actions;
  }

  /**
    Suppressed messages map injectively to entries on pages that were delivered while the
    replay was open, each recorded with the message's payload at or after its occurrence.
   */
  lemma SuppressionIsInjective(cap: nat, actions: seq<Action>, i: nat)
    requires i < |Run(cap, actions).outcomes| && Run(cap, actions).outcomes[i].Suppressed?
    ensures var g := Run(cap, actions);
            var o := g.outcomes[i];
            && o.p.frame.message && o.p.seq_ <= o.mark
            && (o.p.frame.payload, o.id, o.mark) in g.appends
            && o.id in g.pages
            && forall j :: 0 <= j < |g.outcomes| && j != i && g.outcomes[j].Suppressed? ==> g.outcomes[j].id != o.id
  {
    RunKeeps(cap, actions);
    var g := Run(cap, actions);
    assert forall j :: 0 <= j < |g.outcomes| ==> Verdicts(g)[j] == g.outcomes[j];
  }

  // The ledger as the session updates it

  lemma NoIdYet(id: EntryId)
    ensures !HasId([], id)
  {}

  method KnownId(records: seq<Record>, id: EntryId) returns (known: bool)
    ensures known <==> HasId(records, id)
  {
    known := false;
    for i := 0 to |records|
      invariant known <==> exists j :: 0 <= j < i && records[j].id == id
    {
      if records[i].id == id { known := true; }
    }
  }

  class SessionLedger {
    var entries: map<Payload, seq<Record>>
    var fifo: seq<Payload>

    ghost function Contents(): Ledger
      reads this
    {
      Ledger(entries, fifo)
    }

    constructor ()
      ensures Contents() == Ledger(map[], []) && WfLedger(Contents())
    {
      entries, fifo := map[], [];
    }

    method RememberRecentMessageEntry(p: Payload, id: EntryId, mark: nat)
      requires WfLedger(Contents())
      modifies this
      ensures Contents() == Remember(old(Contents()), p, id, mark) && WfLedger(Contents())
    {
      hide WfLedger, HasId;
      RememberKeeps(Contents(), p, id, mark);
      NoIdYet(id);
      if id == "" { return; }
      var knownKey := p in entries;
      var records := if knownKey then entries[p] else [];
      var knownId := KnownId(records, id);
      if !knownId {
        var appends := records + [Record(id, mark)];
        assert !knownKey ==> appends == [Record(id, mark)];
        if |appends| > MAX_IDS {
          appends := appends[|appends| - MAX_IDS..];
        }
        entries := entries[p := appends];
      }
      if !knownKey {
        fifo := fifo + [p];
        if |fifo| > MAX_PAYLOADS {
          entries, fifo := entries - {fifo[0]}, fifo[1..];
        }
      }
    }

    method RecentMessageEntryIds(p: Payload, seq_: nat) returns (ids: seq<EntryId>)
      ensures ids == if p in entries then Owners(entries[p], seq_) else []
    {
      ids := [];
      if p !in entries { return; }
      var records := entries[p];
      for i := 0 to |records|
        invariant ids == Owners(records[..i], seq_)
      {
        assert records[..i + 1][..i] == records[..i];
        if records[i].mark >= seq_ {
          ids := ids + [records[i].id];
        }
      }
      assert records[..|records|] == records;
    }
  }
}
