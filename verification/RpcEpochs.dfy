/**
  Connection epochs of the RPC client as a state machine.  Each action is one
  critical section of the client, or one send on a result channel after it, and
  actions of callers, the read loop, reconnect flights, fences and Close interleave
  freely.  An action that its guard refuses leaves the state unchanged.

  An epoch is named by its number and a flight by a fresh number, where the source
  compares object identities.
 */
module RpcEpochs {
  import opened Wrappers

  type Epoch = nat
  type Flight = nat
  type RequestId = nat
  type Command = string

  // Requests

  datatype Request = Request(command: Command, epoch: Epoch)

  /** What a result channel carries: a response of an epoch, one too large to keep, or its death. */
  datatype Outcome =
    | Response(epoch: Epoch, command: Command)
    | Oversized(epoch: Epoch, command: Command)
    | Disconnected(epoch: Epoch)

  /** The pending map, and where every request that was ever registered has gone. */
  datatype Calls = Calls(
    nextId: nat,
    pending: map<RequestId, Command>,
    issued: set<RequestId>,
    registered: map<RequestId, Request>,
    claims: map<RequestId, Outcome>,
    sent: map<RequestId, Outcome>,
    withdrawn: set<RequestId>)

  function IssueId(c: Calls): Calls
  {
    c.(nextId := c.nextId + 1, issued := c.issued + {c.nextId + 1})
  }

  function Register(c: Calls, id: RequestId, r: Request): Calls
  {
    if id !in c.issued then c
    else c.(issued := c.issued - {id}, pending := c.pending[id := r.command], registered := c.registered[id := r])
  }

  /** Whoever removes the correlation owns its completion. */
  function Claim(c: Calls, id: RequestId, o: Outcome): Calls
  {
    if id in c.pending && (o.Disconnected? || c.pending[id] == o.command)
    then c.(pending := c.pending - {id}, claims := c.claims[id := o]) else c
  }

  function Withdraw(c: Calls, id: RequestId): Calls
  {
    if id in c.pending then c.(pending := c.pending - {id}, withdrawn := c.withdrawn + {id}) else c
  }

  function Send(c: Calls, id: RequestId): Calls
  {
    if id in c.claims then c.(claims := c.claims - {id}, sent := c.sent[id := c.claims[id]]) else c
  }

  /** Everyone who waits for a dead epoch is owed a disconnection. */
  function FailAll(c: Calls, dead: Epoch): Calls
  {
    c.(pending := map[], claims := c.claims + map id | id in c.pending :: Disconnected(dead))
  }

  /** Every registered request is in exactly one place. */
  ghost predicate Accounted(c: Calls)
  {
    && (forall id :: id in c.registered <==> id in c.pending || id in c.claims || id in c.sent || id in c.withdrawn)
    && (forall id :: id in c.pending ==> id !in c.claims && id !in c.sent && id !in c.withdrawn)
    && (forall id :: id in c.claims ==> id !in c.sent && id !in c.withdrawn)
    && (forall id :: id in c.sent ==> id !in c.withdrawn)
    && (forall id :: id in c.issued ==> id !in c.registered && id <= c.nextId)
    && (forall id :: id in c.registered ==> id <= c.nextId)
  }

  /** An outcome belongs to the request: its epoch and, for a response, its command. */
  ghost predicate Belongs(r: Request, o: Outcome)
  {
    o.epoch == r.epoch && (o.Disconnected? || o.command == r.command)
  }

  /** Only requests of the current epoch are pending. */
  ghost predicate Correlated(c: Calls, current: Option<Epoch>)
  {
    && (forall id :: id in c.pending && id in c.registered ==>
          current == Some(c.registered[id].epoch) && c.pending[id] == c.registered[id].command)
    && (forall id :: id in c.claims && id in c.registered ==> Belongs(c.registered[id], c.claims[id]))
    && (forall id :: id in c.sent && id in c.registered ==> Belongs(c.registered[id], c.sent[id]))
  }

  ghost predicate CallsInv(c: Calls, current: Option<Epoch>) { Accounted(c) && Correlated(c, current) }

  /** What no step undoes: a request that left the pending map stays out, and a sent result stays. */
  ghost predicate CallsGrow(c: Calls, d: Calls)
  {
    && c.nextId <= d.nextId
    && (forall id :: id in c.registered ==>
          && id in d.registered && d.registered[id] == c.registered[id]
          && (id !in c.pending ==> id !in d.pending))
    && (forall id :: id in c.sent ==> id in d.sent && d.sent[id] == c.sent[id])
  }

  lemma IssueIdKeeps(c: Calls, current: Option<Epoch>)
    requires CallsInv(c, current)
    ensures CallsInv(IssueId(c), current) && CallsGrow(c, IssueId(c))
  {}

  lemma RegisterKeeps(c: Calls, id: RequestId, r: Request)
    requires CallsInv(c, Some(r.epoch))
    ensures CallsInv(Register(c, id, r), Some(r.epoch)) && CallsGrow(c, Register(c, id, r))
  {
    hide Accounted, Correlated, CallsGrow;
    RegisterAccounted(c, id, r);
    RegisterCorrelated(c, id, r);
    RegisterGrows(c, id, r);
  }

  lemma RegisterAccounted(c: Calls, id: RequestId, r: Request)
    requires Accounted(c)
    ensures Accounted(Register(c, id, r))
  {}

  lemma RegisterCorrelated(c: Calls, id: RequestId, r: Request)
    requires Accounted(c) && Correlated(c, Some(r.epoch))
    ensures Correlated(Register(c, id, r), Some(r.epoch))
  {}

  lemma RegisterGrows(c: Calls, id: RequestId, r: Request)
    requires Accounted(c)
    ensures CallsGrow(c, Register(c, id, r))
  {}

  lemma ClaimKeeps(c: Calls, id: RequestId, o: Outcome)
    requires CallsInv(c, Some(o.epoch))
    ensures CallsInv(Claim(c, id, o), Some(o.epoch)) && CallsGrow(c, Claim(c, id, o))
  {}

  lemma WithdrawKeeps(c: Calls, current: Option<Epoch>, id: RequestId)
    requires CallsInv(c, current)
    ensures CallsInv(Withdraw(c, id), current) && CallsGrow(c, Withdraw(c, id))
  {}

  lemma SendKeeps(c: Calls, current: Option<Epoch>, id: RequestId)
    requires CallsInv(c, current)
    ensures CallsInv(Send(c, id), current) && CallsGrow(c, Send(c, id))
  {}

  lemma FailAllKeeps(c: Calls, dead: Epoch)
    requires CallsInv(c, Some(dead))
    ensures CallsInv(FailAll(c, dead), None) && CallsGrow(c, FailAll(c, dead))
  {
    hide Accounted, Correlated, CallsGrow;
    FailAllAccounted(c, dead);
    FailAllCorrelated(c, dead);
    FailAllGrows(c, dead);
  }

  lemma FailAllAccounted(c: Calls, dead: Epoch)
    requires Accounted(c)
    ensures Accounted(FailAll(c, dead))
  {}

  lemma FailAllCorrelated(c: Calls, dead: Epoch)
    requires Accounted(c) && Correlated(c, Some(dead))
    ensures Correlated(FailAll(c, dead), None)
  {}

  lemma FailAllGrows(c: Calls, dead: Epoch)
    ensures CallsGrow(c, FailAll(c, dead))
  {}

  lemma NoneWaiting(c: Calls, next: Option<Epoch>)
    requires CallsInv(c, None)
    ensures c.pending == map[] && CallsInv(c, next)
  {
    assert c.pending.Keys == {};
  }

  // Connections

  datatype Phase = Dialing | Negotiating(ep: Epoch) | Returned(epoch: Option<Epoch>)

  datatype Dial = DialPending | DialNegotiating(dialed: Epoch) | Open | DialFailed

  datatype Established = Established(number: Epoch, owner: Option<Flight>)

  /** The connection fields, every flight, and what has been published and fenced. */
  datatype Link = Link(
    closed: bool,
    epoch: nat,
    current: Option<Epoch>,
    connecting: Option<Flight>,
    negotiated: set<Epoch>,
    dial: Dial,
    flights: seq<Phase>,
    established: seq<Established>,
    fencedAt: map<Flight, nat>)

  function Invalidate(l: Link, ep: Epoch): Link
  {
    if l.current == Some(ep) then l.(current := None, epoch := l.epoch + 1) else l
  }

  function Publish(l: Link, owner: Option<Flight>): Link
  {
    l.(epoch := l.epoch + 1, current := Some(l.epoch + 1),
       established := l.established + [Established(l.epoch + 1, owner)])
  }

  function Fence(l: Link): Link
  {
    var m := if l.connecting.Some?
             then l.(connecting := None, fencedAt := l.fencedAt[l.connecting.value := |l.established|]) else l;
    if m.current.Some? then Invalidate(m, m.current.value) else m
  }

  function DialEstablish(l: Link): Link
  {
    if l.dial.DialPending? && !l.closed then Publish(l, None).(dial := DialNegotiating(l.epoch + 1)) else l
  }

  function DialNegotiated(l: Link): Link
  {
    if l.dial.DialNegotiating? && !l.closed && l.current == Some(l.dial.dialed)
    then l.(dial := Open, negotiated := l.negotiated + {l.dial.dialed}) else l
  }

  function DialFail(l: Link): Link
  {
    if l.dial.DialPending? then l.(dial := DialFailed, closed := true)
    else if l.dial.DialNegotiating? then Invalidate(l, l.dial.dialed).(dial := DialFailed, closed := true)
    else l
  }

  function StartFlight(l: Link): Link
  {
    if l.dial.Open? && !l.closed && l.connecting.None? && l.current.None?
    then l.(flights := l.flights + [Dialing], connecting := Some(|l.flights|)) else l
  }

  function Establish(l: Link, f: Flight): Link
  {
    if f < |l.flights| && l.flights[f].Dialing? && !l.closed && l.connecting == Some(f)
    then Publish(l, Some(f)).(flights := l.flights[f := Negotiating(l.epoch + 1)]) else l
  }

  function Negotiate(l: Link, f: Flight): Link
  {
    if f < |l.flights| && l.flights[f].Negotiating? && !l.closed && l.current == Some(l.flights[f].ep)
    then l.(flights := l.flights[f := Returned(l.current)], negotiated := l.negotiated + {l.flights[f].ep}) else l
  }

  function NegotiationFails(l: Link, f: Flight): Link
  {
    if f < |l.flights| && l.flights[f].Negotiating?
    then Invalidate(l, l.flights[f].ep).(flights := l.flights[f := Dialing]) else l
  }

  /** A flight returns its negotiated epoch, or gives up. */
  function FinishFlight(l: Link, f: Flight): Link
  {
    if f >= |l.flights| || l.flights[f].Negotiating? then l
    else l.(flights := l.flights[f := if l.flights[f].Dialing? then Returned(None) else l.flights[f]],
            connecting := if l.connecting == Some(f) then None else l.connecting)
  }

  /** Epoch numbers only grow. */
  ghost predicate Ordered(l: Link)
  {
    && (forall i, j :: 0 <= i < j < |l.established| ==> l.established[i].number < l.established[j].number)
    && (forall i :: 0 <= i < |l.established| ==> l.established[i].number <= l.epoch)
    && (l.current.Some? ==> l.established != [] && l.current.value == l.established[|l.established| - 1].number)
  }

  /** A fenced flight has published for the last time. */
  ghost predicate Fenced(l: Link)
  {
    && (l.connecting.Some? ==> l.connecting.value < |l.flights| && l.connecting.value !in l.fencedAt && l.dial.Open?)
    && (forall f :: f in l.fencedAt ==> f < |l.flights|)
    && (forall i :: 0 <= i < |l.established| && l.established[i].owner.Some? ==>
          && l.established[i].owner.value < |l.flights|
          && (l.established[i].owner.value in l.fencedAt ==> i < l.fencedAt[l.established[i].owner.value]))
  }

  ghost predicate PhaseFits(l: Link, f: Flight, p: Phase)
  {
    match p
    case Dialing => l.connecting == Some(f) ==> l.current.None?
    case Negotiating(ep) =>
      && ep <= l.epoch
      && (l.connecting == Some(f) ==> l.current.None? || l.current == Some(ep))
      && (l.connecting != Some(f) ==> l.current != Some(ep))
    case Returned(ep) =>
      && (ep.Some? ==> ep.value in l.negotiated)
      && (l.connecting == Some(f) ==> l.current.None? || l.current == ep)
  }

  /** Only the connecting flight, or the initial dial, can hold an epoch that is not negotiated. */
  ghost predicate Exclusive(l: Link)
  {
    && (l.dial.DialPending? ==> l.current.None?)
    && (l.dial.DialNegotiating? ==> l.current.None? || l.current == Some(l.dial.dialed))
    && (l.dial.DialFailed? ==> l.current.None? && l.closed)
    && (l.dial.Open? && l.connecting.None? && l.current.Some? ==> l.current.value in l.negotiated)
    && (forall f :: 0 <= f < |l.flights| ==> PhaseFits(l, f, l.flights[f]))
  }

  ghost predicate LinkInv(l: Link) { Ordered(l) && Fenced(l) && Exclusive(l) }

  /** What no step undoes: published epochs, the epoch counter, fences and returned flights. */
  ghost predicate LinkGrows(l: Link, m: Link)
  {
    && l.epoch <= m.epoch && l.established <= m.established && (l.closed ==> m.closed)
    && |l.flights| <= |m.flights|
    && (forall f :: f in l.fencedAt ==> f in m.fencedAt && m.fencedAt[f] == l.fencedAt[f])
    && l.negotiated <= m.negotiated
    && (l.closed ==> m.established == l.established)
  }

  lemma InvalidateKeeps(l: Link, ep: Epoch)
    requires LinkInv(l)
    ensures LinkInv(Invalidate(l, ep)) && LinkGrows(l, Invalidate(l, ep))
  {}

  lemma FenceKeeps(l: Link)
    requires LinkInv(l)
    ensures LinkInv(Fence(l)) && LinkGrows(l, Fence(l))
  {}

  lemma DialEstablishKeeps(l: Link)
    requires LinkInv(l)
    ensures LinkInv(DialEstablish(l)) && LinkGrows(l, DialEstablish(l))
  {}

  lemma DialNegotiatedKeeps(l: Link)
    requires LinkInv(l)
    ensures LinkInv(DialNegotiated(l)) && LinkGrows(l, DialNegotiated(l))
  {}

  lemma DialFailKeeps(l: Link)
    requires LinkInv(l)
    ensures LinkInv(DialFail(l)) && LinkGrows(l, DialFail(l))
  {}

  lemma StartFlightKeeps(l: Link)
    requires LinkInv(l)
    ensures LinkInv(StartFlight(l)) && LinkGrows(l, StartFlight(l))
  {}

  lemma EstablishKeeps(l: Link, f: Flight)
    requires LinkInv(l)
    ensures LinkInv(Establish(l, f)) && LinkGrows(l, Establish(l, f))
  {}

  lemma NegotiateKeeps(l: Link, f: Flight)
    requires LinkInv(l)
    ensures LinkInv(Negotiate(l, f)) && LinkGrows(l, Negotiate(l, f))
  {}

  lemma NegotiationFailsKeeps(l: Link, f: Flight)
    requires LinkInv(l)
    ensures LinkInv(NegotiationFails(l, f)) && LinkGrows(l, NegotiationFails(l, f))
  {}

  lemma FinishFlightKeeps(l: Link, f: Flight)
    requires LinkInv(l)
    ensures LinkInv(FinishFlight(l, f)) && LinkGrows(l, FinishFlight(l, f))
  {}

  // The client

  datatype State = State(calls: Calls, link: Link)

  const INITIAL := State(
    Calls(0, map[], {}, map[], map[], map[], {}),
    Link(false, 0, None, None, {}, DialPending, [], [], map[]))

  datatype Action =
    | IssuesId
    | Registers(id: RequestId, ep: Epoch, command: Command)
    | Responds(ep: Epoch, id: RequestId, command: Command)
    | RespondsOversized(ep: Epoch, id: RequestId, command: Command)
    | Withdraws(id: RequestId)
    | Sends(id: RequestId)
    | Dies(ep: Epoch)
    | Fences
    | Closes
    | DialEstablishes
    | DialNegotiates
    | DialFails
    | StartsFlight
    | Establishes(flight: Flight)
    | Negotiates(flight: Flight)
    | FailsNegotiation(flight: Flight)
    | Finishes(flight: Flight)

  /** The connection changes; when the current epoch dies, so do its requests. */
  function Relink(st: State, l: Link): (r: State)
    ensures r.link == l
  {
    State(if st.link.current.Some? && l.current.None? then FailAll(st.calls, st.link.current.value) else st.calls, l)
  }

  function Next(st: State, a: Action): State
  {
    var c, l := st.calls, st.link;
    match a
    case IssuesId => st.(calls := IssueId(c))
    case Registers(id, ep, command) =>
      if l.closed || l.current != Some(ep) then st else st.(calls := Register(c, id, Request(command, ep)))
    case Responds(ep, id, command) =>
      if l.current != Some(ep) then st else st.(calls := Claim(c, id, Response(ep, command)))
    case RespondsOversized(ep, id, command) =>
      if l.current != Some(ep) then st
      else if id in c.pending && c.pending[id] != command then Relink(st, Invalidate(l, ep))
      else st.(calls := Claim(c, id, Oversized(ep, command)))
    case Withdraws(id) => st.(calls := Withdraw(c, id))
    case Sends(id) => st.(calls := Send(c, id))
    case Dies(ep) => Relink(st, Invalidate(l, ep))
    case Fences => Relink(st, Fence(l))
    case Closes => st.(link := l.(closed := true))
    case DialEstablishes => Relink(st, DialEstablish(l))
    case DialNegotiates => Relink(st, DialNegotiated(l))
    case DialFails => Relink(st, DialFail(l))
    case StartsFlight => Relink(st, StartFlight(l))
    case Establishes(f) => Relink(st, Establish(l, f))
    case Negotiates(f) => Relink(st, Negotiate(l, f))
    case FailsNegotiation(f) => Relink(st, NegotiationFails(l, f))
    case Finishes(f) => Relink(st, FinishFlight(l, f))
  }

  function Run(actions: seq<Action>): State
  {
    if actions == [] then INITIAL else Next(Run(actions[..|actions| - 1]), actions[|actions| - 1])
  }

  ghost predicate Inv(st: State) { CallsInv(st.calls, st.link.current) && LinkInv(st.link) }

  ghost predicate Grows(st: State, next: State) { CallsGrow(st.calls, next.calls) && LinkGrows(st.link, next.link) }

  /** A connection step that ends, keeps or, when nothing is current, starts an epoch. */
  lemma RelinkKeeps(st: State, l: Link)
    requires Inv(st) && LinkInv(l) && LinkGrows(st.link, l)
    requires st.link.current.Some? ==> l.current.None? || l.current == st.link.current
    ensures Inv(Relink(st, l)) && Grows(st, Relink(st, l))
  {
    hide LinkInv;
    hide LinkGrows;
    hide CallsInv;
    match st.link.current
    case None => NoneWaiting(st.calls, l.current); SameCalls(st.calls);
    case Some(ep) => if l.current.None? { FailAllKeeps(st.calls, ep); } else { SameCalls(st.calls); }
  }

  lemma SameCalls(c: Calls)
    ensures CallsGrow(c, c)
  {}

  lemma SameLink(l: Link)
    ensures LinkGrows(l, l)
  {}

  lemma ClosesKeeps(l: Link)
    requires LinkInv(l)
    ensures LinkInv(l.(closed := true)) && LinkGrows(l, l.(closed := true))
  {}

  /** Flights and dials replace an epoch only by nothing. */
  lemma LinkStep(l: Link, a: Action) returns (m: Link)
    requires LinkInv(l)
    requires a.Dies? || a.Fences? || a.DialEstablishes? || a.DialNegotiates? || a.DialFails? || a.StartsFlight? ||
             a.Establishes? || a.Negotiates? || a.FailsNegotiation? || a.Finishes?
    ensures LinkInv(m) && LinkGrows(l, m)
    ensures l.current.Some? ==> m.current.None? || m.current == l.current
    ensures forall c :: Next(State(c, l), a) == Relink(State(c, l), m)
  {
    hide Ordered;
    hide Fenced;
    hide LinkGrows;
    match a
    case Dies(ep) => m := Invalidate(l, ep); InvalidateKeeps(l, ep);
    case Fences => m := Fence(l); FenceKeeps(l);
    case DialEstablishes => m := DialEstablish(l); DialEstablishKeeps(l);
    case DialNegotiates => m := DialNegotiated(l); DialNegotiatedKeeps(l);
    case DialFails => m := DialFail(l); DialFailKeeps(l);
    case StartsFlight => m := StartFlight(l); StartFlightKeeps(l);
    case Establishes(f) => m := Establish(l, f); EstablishKeeps(l, f);
    case Negotiates(f) => m := Negotiate(l, f); NegotiateKeeps(l, f);
    case FailsNegotiation(f) => m := NegotiationFails(l, f); NegotiationFailsKeeps(l, f);
    case Finishes(f) => m := FinishFlight(l, f); FinishFlightKeeps(l, f);
  }

  lemma StepKeeps(st: State, a: Action)
    requires Inv(st)
    ensures Inv(Next(st, a)) && Grows(st, Next(st, a))
  {
    hide LinkInv;
    hide LinkGrows;
    hide CallsInv;
    hide CallsGrow;
    var c, l := st.calls, st.link;
    SameCalls(c);
    SameLink(l);
    match a
    case IssuesId => IssueIdKeeps(c, l.current);
    case Registers(id, ep, command) => if l.current == Some(ep) { RegisterKeeps(c, id, Request(command, ep)); }
    case Responds(ep, id, command) => if l.current == Some(ep) { ClaimKeeps(c, id, Response(ep, command)); }
    case RespondsOversized(ep, id, command) =>
      if l.current == Some(ep) {
        ClaimKeeps(c, id, Oversized(ep, command));
        var m := LinkStep(l, Dies(ep));
        RelinkKeeps(st, m);
      }
    case Withdraws(id) => WithdrawKeeps(c, l.current, id);
    case Sends(id) => SendKeeps(c, l.current, id);
    case Closes => ClosesKeeps(l);
    case _ =>
      var m := LinkStep(l, a);
      RelinkKeeps(st, m);
      assert Next(State(c, l), a) == Relink(State(c, l), m);
  }

  lemma {:induction false} RunKeeps(actions: seq<Action>)
    ensures Inv(Run(actions))
  {
    if actions != [] {
      RunKeeps(actions[..|actions| - 1]);
      StepKeeps(Run(actions[..|actions| - 1]), actions[|actions| - 1]);
    }
  }

  lemma GrowsTransitive(a: State, b: State, c: State)
    requires Grows(a, b) && Grows(b, c)
    ensures Grows(a, c)
  {}

  lemma {:induction false} RunGrows(actions: seq<Action>, n: nat)
    requires n <= |actions|
    ensures Grows(Run(actions[..n]), Run(actions))
  {
    if n == |actions| {
      assert actions[..n] == actions;
    } else {
      var most := actions[..|actions| - 1];
      RunGrows(most, n);
      assert most[..n] == actions[..n];
      RunKeeps(most);
      StepKeeps(Run(most), actions[|actions| - 1]);
      GrowsTransitive(Run(actions[..n]), Run(most), Run(actions));
    }
  }

  // What every run of the client guarantees

  /**
    A registered request is pending only while its epoch is current, is otherwise in
    exactly one other place, and is answered only by its own epoch and command.
   */
  lemma RequestsSettleOnce(actions: seq<Action>, id: RequestId)
    requires id in Run(actions).calls.registered
    ensures var c, l := Run(actions).calls, Run(actions).link;
            var r := c.registered[id];
            && (id in c.pending ==>
                  l.current == Some(r.epoch) && c.pending[id] == r.command && id !in c.claims && id !in c.sent && id !in c.withdrawn)
            && (id in c.claims ==> Belongs(r, c.claims[id]) && id !in c.sent && id !in c.withdrawn)
            && (id in c.sent ==> Belongs(r, c.sent[id]) && id !in c.withdrawn)
            && (id in c.pending || id in c.claims || id in c.sent || id in c.withdrawn)
  {
    RunKeeps(actions);
  }

  /** A request leaves the pending map once, and its channel is sent to at most once. */
  lemma SettledStaysSettled(actions: seq<Action>, n: nat, id: RequestId)
    requires n <= |actions| && id in Run(actions[..n]).calls.registered && id !in Run(actions[..n]).calls.pending
    ensures id !in Run(actions).calls.pending
    ensures id in Run(actions[..n]).calls.sent ==>
              id in Run(actions).calls.sent && Run(actions).calls.sent[id] == Run(actions[..n]).calls.sent[id]
  {
    RunGrows(actions, n);
  }

  /** Everything about other requests is as it was. */
  ghost predicate OthersKept(c: Calls, d: Calls, id: RequestId)
  {
    && (forall i :: i != id ==> (i in d.pending <==> i in c.pending) && (i in c.pending ==> d.pending[i] == c.pending[i]))
    && (forall i :: i != id ==> (i in d.claims <==> i in c.claims) && (i in c.claims ==> d.claims[i] == c.claims[i]))
    && (forall i :: i != id ==> (i in d.sent <==> i in c.sent) && (i in c.sent ==> d.sent[i] == c.sent[i]))
    && (forall i :: i != id ==> (i in d.withdrawn <==> i in c.withdrawn))
  }

  lemma RunSnoc(actions: seq<Action>, a: Action)
    ensures Run(actions + [a]) == Next(Run(actions), a)
  {
    assert (actions + [a])[..|actions|] == actions;
  }

  /** A registration by the current epoch makes an issued request pending, and any other changes nothing. */
  lemma RegistrationPends(actions: seq<Action>, ep: Epoch, id: RequestId, command: Command)
    ensures var c, d, l := Run(actions).calls, Run(actions + [Registers(id, ep, command)]).calls, Run(actions).link;
            if !l.closed && l.current == Some(ep) && id in c.issued
            then id in d.pending && d.pending[id] == command && id in d.registered && d.registered[id] == Request(command, ep)
                 && id !in d.issued && OthersKept(c, d, id)
            else d == c
  {
    RunSnoc(actions, Registers(id, ep, command));
  }

  /** A response of the current epoch and the right command claims its request, once; any other changes nothing. */
  lemma ResponseSettles(actions: seq<Action>, ep: Epoch, id: RequestId, command: Command)
    ensures var c, d, l := Run(actions).calls, Run(actions + [Responds(ep, id, command)]).calls, Run(actions).link;
            if l.current == Some(ep) && id in c.pending && c.pending[id] == command
            then id !in d.pending && id in d.claims && d.claims[id] == Response(ep, command) && OthersKept(c, d, id)
            else d == c
  {
    RunSnoc(actions, Responds(ep, id, command));
  }

  /** A history response that was too large does the same; for another command it ends the epoch. */
  lemma OversizedSettles(actions: seq<Action>, ep: Epoch, id: RequestId, command: Command)
    ensures var c, d, l := Run(actions).calls, Run(actions + [RespondsOversized(ep, id, command)]).calls, Run(actions).link;
            if l.current != Some(ep) || id !in c.pending then d == c
            else if c.pending[id] == command
            then id !in d.pending && id in d.claims && d.claims[id] == Oversized(ep, command) && OthersKept(c, d, id)
            else d.pending == map[] && forall i :: i in c.pending ==> i in d.claims && d.claims[i] == Disconnected(ep)
  {
    RunKeeps(actions);
    RunSnoc(actions, RespondsOversized(ep, id, command));
  }

  /** A caller that gives up takes its request out, and nobody is owed anything for it. */
  lemma WithdrawalSettles(actions: seq<Action>, id: RequestId)
    ensures var c, d := Run(actions).calls, Run(actions + [Withdraws(id)]).calls;
            if id in c.pending then id !in d.pending && id in d.withdrawn && id !in d.claims && OthersKept(c, d, id) else d == c
  {
    RunKeeps(actions);
    RunSnoc(actions, Withdraws(id));
  }

  /** A send uses its claim up, and the channel carries what was claimed. */
  lemma SendUsesClaim(actions: seq<Action>, id: RequestId)
    ensures var c, d := Run(actions).calls, Run(actions + [Sends(id)]).calls;
            if id in c.claims then id !in d.claims && id in d.sent && d.sent[id] == c.claims[id] && OthersKept(c, d, id) else d == c
  {
    RunKeeps(actions);
    RunSnoc(actions, Sends(id));
  }

  /** Whatever ends the current epoch leaves nothing pending and owes every pending request a disconnection. */
  lemma DeathSettles(actions: seq<Action>, a: Action)
    requires Run(actions).link.current.Some? && Run(actions + [a]).link.current != Run(actions).link.current
    ensures var c, d, ep := Run(actions).calls, Run(actions + [a]).calls, Run(actions).link.current.value;
            && d.pending == map[]
            && (forall i :: i in c.pending ==> i in d.claims && d.claims[i] == Disconnected(ep))
            && (forall i :: i !in c.pending ==> (i in d.claims <==> i in c.claims) && (i in c.claims ==> d.claims[i] == c.claims[i]))
            && d.sent == c.sent && d.withdrawn == c.withdrawn
  {
    hide Accounted, Correlated, LinkGrows, Invalidate, Fence, DialEstablish, DialNegotiated, DialFail, StartFlight, Establish,
         Negotiate, NegotiationFails, FinishFlight, IssueId, Register, Claim, Withdraw, Send;
    RunKeeps(actions);
    RunSnoc(actions, a);
    if a.RespondsOversized? {
      InvalidateEnds(Run(actions).link, a.ep);
    } else if !(a.IssuesId? || a.Registers? || a.Responds? || a.Withdraws? || a.Sends? || a.Closes?) {
      var m := LinkStep(Run(actions).link, a);
      assert Next(State(Run(actions).calls, Run(actions).link), a) == Relink(Run(actions), m);
    }
  }

  lemma InvalidateEnds(l: Link, ep: Epoch)
    ensures Invalidate(l, ep).current == if l.current == Some(ep) then None else l.current
    ensures Invalidate(l, ep).epoch == l.epoch + if l.current == Some(ep) then 1 else 0
  {}

  /** The epoch that dies is the named one, and a fence ends whatever is current and supersedes the flight. */
  lemma DeathsAndFences(actions: seq<Action>, ep: Epoch)
    ensures var l, d, f := Run(actions).link, Run(actions + [Dies(ep)]).link, Run(actions + [Fences]).link;
            && d.current == (if l.current == Some(ep) then None else l.current)
            && d.epoch == l.epoch + (if l.current == Some(ep) then 1 else 0)
            && f.current == None && f.connecting == None
            && f.epoch == l.epoch + (if l.current.Some? then 1 else 0)
            && (l.connecting.Some? ==> l.connecting.value in f.fencedAt)
  {
    hide Run, Relink, DialEstablish, DialNegotiated, DialFail, StartFlight, Establish, Negotiate, NegotiationFails, FinishFlight;
    RunSnoc(actions, Dies(ep));
    RunSnoc(actions, Fences);
  }

  /** The first dial: a fresh epoch, usable after its handshake; a failure closes the client. */
  lemma DialActs(actions: seq<Action>)
    ensures var l := Run(actions).link;
            var e, n, x := Run(actions + [DialEstablishes]).link, Run(actions + [DialNegotiates]).link, Run(actions + [DialFails]).link;
            && (l.dial.DialPending? && !l.closed ==>
                  && e.current == Some(l.epoch + 1) && e.epoch == l.epoch + 1 && e.dial == DialNegotiating(l.epoch + 1)
                  && e.established == l.established + [Established(l.epoch + 1, None)])
            && (l.dial.DialNegotiating? && !l.closed && l.current == Some(l.dial.dialed) ==>
                  n.dial == Open && n.current == l.current && l.dial.dialed in n.negotiated)
            && (l.dial.DialPending? || l.dial.DialNegotiating? ==> x.closed && x.dial == DialFailed)
            && (l.dial.DialNegotiating? && l.current == Some(l.dial.dialed) ==> x.current == None)
  {
    hide Run, Relink, Fence, StartFlight, Establish, Negotiate, NegotiationFails, FinishFlight;
    RunSnoc(actions, DialEstablishes);
    RunSnoc(actions, DialNegotiates);
    RunSnoc(actions, DialFails);
  }

  /** A reconnect flight: started when nothing is current, it publishes a fresh epoch and returns it after the handshake. */
  lemma FlightActs(actions: seq<Action>, f: Flight)
    ensures var l := Run(actions).link;
            var s, e := Run(actions + [StartsFlight]).link, Run(actions + [Establishes(f)]).link;
            && (l.dial.Open? && !l.closed && l.connecting.None? && l.current.None? ==>
                  s.connecting == Some(|l.flights|) && s.flights == l.flights + [Dialing] && s.current == None)
            && (f < |l.flights| && l.flights[f].Dialing? && !l.closed && l.connecting == Some(f) ==>
                  && e.current == Some(l.epoch + 1) && e.epoch == l.epoch + 1 && e.flights == l.flights[f := Negotiating(l.epoch + 1)]
                  && e.established == l.established + [Established(l.epoch + 1, Some(f))] && e.connecting == l.connecting)
  {
    hide Run, Relink, Fence, DialEstablish, DialNegotiated, DialFail, Negotiate, NegotiationFails, FinishFlight;
    RunSnoc(actions, StartsFlight);
    RunSnoc(actions, Establishes(f));
  }

  /** A handshake that succeeds returns the epoch to the flight's callers. */
  lemma HandshakeSucceeds(actions: seq<Action>, f: Flight)
    requires f < |Run(actions).link.flights| && Run(actions).link.flights[f].Negotiating? && !Run(actions).link.closed
    requires Run(actions).link.current == Some(Run(actions).link.flights[f].ep)
    ensures var l, n := Run(actions).link, Run(actions + [Negotiates(f)]).link;
            n.flights == l.flights[f := Returned(l.current)] && n.current == l.current && l.flights[f].ep in n.negotiated
  {
    hide Run, Relink, Fence, DialEstablish, DialNegotiated, DialFail, StartFlight, Establish, Invalidate, NegotiationFails, FinishFlight;
    RunSnoc(actions, Negotiates(f));
  }

  /** One that fails retires its epoch, and the flight dials again. */
  lemma HandshakeFails(actions: seq<Action>, f: Flight)
    requires f < |Run(actions).link.flights| && Run(actions).link.flights[f].Negotiating?
    ensures var l, x := Run(actions).link, Run(actions + [FailsNegotiation(f)]).link;
            && x.flights == l.flights[f := Dialing]
            && x.current == (if l.current == Some(l.flights[f].ep) then None else l.current)
  {
    hide Run, Relink, Fence, DialEstablish, DialNegotiated, DialFail, StartFlight, Establish, Negotiate, FinishFlight;
    RunSnoc(actions, FailsNegotiation(f));
  }

  /** A flight that is finished is no longer the current one, and without an epoch it has failed. */
  lemma FlightFinishes(actions: seq<Action>, f: Flight)
    requires f < |Run(actions).link.flights| && !Run(actions).link.flights[f].Negotiating?
    ensures var l, d := Run(actions).link, Run(actions + [Finishes(f)]).link;
            && d.flights == l.flights[f := if l.flights[f].Dialing? then Returned(None) else l.flights[f]]
            && d.connecting == (if l.connecting == Some(f) then None else l.connecting) && d.current == l.current
  {
    hide Run, Relink, Fence, DialEstablish, DialNegotiated, DialFail, StartFlight, Establish, Invalidate, Negotiate, NegotiationFails;
    RunSnoc(actions, Finishes(f));
  }

  /** Close closes. */
  lemma CloseActs(actions: seq<Action>)
    ensures Run(actions + [Closes]).link.closed && Run(actions + [Closes]).calls == Run(actions).calls
  {
    hide Run;
    RunSnoc(actions, Closes);
  }

  /** Epochs are published with strictly increasing numbers, and stay published. */
  lemma EpochsIncrease(actions: seq<Action>, n: nat, i: nat, j: nat)
    requires n <= |actions| && i < j < |Run(actions).link.established|
    ensures Run(actions).link.established[i].number < Run(actions).link.established[j].number
    ensures Run(actions[..n]).link.established <= Run(actions).link.established
  {
    RunKeeps(actions);
    RunGrows(actions, n);
  }

  /** A flight that a fence supersedes publishes nothing after the fence. */
  lemma FencedFlightNeverPublishes(actions: seq<Action>, n: nat, f: Flight, i: nat)
    requires n < |actions| && actions[n].Fences? && Run(actions[..n]).link.connecting == Some(f)
    requires i < |Run(actions).link.established| && Run(actions).link.established[i].owner == Some(f)
    ensures i < |Run(actions[..n]).link.established|
  {
    var before := Run(actions[..n]);
    assert actions[..n + 1][..n] == actions[..n];
    assert Run(actions[..n + 1]) == Next(before, Fences);
    assert Run(actions[..n + 1]).link.fencedAt[f] == |before.link.established|;
    RunGrows(actions, n + 1);
    RunKeeps(actions);
  }

  /** Once the client is closed no epoch is ever published again. */
  lemma ClosedPublishesNothing(actions: seq<Action>, n: nat)
    requires n <= |actions| && Run(actions[..n]).link.closed
    ensures Run(actions).link.closed && Run(actions).link.established == Run(actions[..n]).link.established
  {
    RunGrows(actions, n);
  }

  /** The epoch that a caller is given: the current one, or the one a finished flight returned. */
  function Connection(l: Link, waited: Option<Flight>): Option<Epoch>
  {
    match waited
    case Some(f) => if f < |l.flights| && l.flights[f].Returned? then l.flights[f].epoch else None
    case None => if l.closed || l.connecting.Some? then None else l.current
  }

  /** Callers are only given epochs whose handshake has completed. */
  lemma ConnectionIsNegotiated(actions: seq<Action>, waited: Option<Flight>)
    requires Run(actions).link.dial.Open?
    ensures Connection(Run(actions).link, waited).Some? ==>
              Connection(Run(actions).link, waited).value in Run(actions).link.negotiated
  {
    RunKeeps(actions);
  }

  // The critical sections as the client runs them

  class Client {
    const noReconnect: bool
    var closed: bool
    var epoch: nat
    var current: Option<Epoch>
    var connecting: Option<Flight>
    var pending: map<RequestId, Command>
    var nextId: nat
    var nextFlight: nat
    ghost var st: State

    ghost predicate Valid()
      reads this
    {
      && closed == st.link.closed && epoch == st.link.epoch && current == st.link.current
      && connecting == st.link.connecting && nextFlight == |st.link.flights|
      && pending == st.calls.pending && nextId == st.calls.nextId
    }

    constructor (noReconnect: bool)
      ensures Valid() && st == INITIAL && this.noReconnect == noReconnect
    {
      this.noReconnect := noReconnect;
      closed, epoch, current, connecting, pending, nextId, nextFlight := false, 0, None, None, map[], 0, 0;
      st := INITIAL;
    }

    method IssueRequestId() returns (id: RequestId)
      requires Valid()
      modifies this
      ensures Valid() && st == Next(old(st), IssuesId) && id in st.calls.issued
      ensures id == nextId == old(nextId) + 1 && pending == old(pending) && nextFlight == old(nextFlight)
      ensures closed == old(closed) && epoch == old(epoch) && current == old(current) && connecting == old(connecting)
    {
      nextId := nextId + 1;
      id := nextId;
      st := Next(st, IssuesId);
    }

    /** Registers a correlation unless the expected epoch is no longer current. */
    method RegisterCall(id: RequestId, ep: Epoch, command: Command) returns (available: bool)
      requires Valid() && id in st.calls.issued
      modifies this
      ensures Valid() && st == Next(old(st), Registers(id, ep, command))
      ensures available <==> !old(closed) && old(current) == Some(ep)
      ensures pending == (if available then old(pending)[id := command] else old(pending)) && nextId == old(nextId)
      ensures available ==> id in st.calls.registered && st.calls.registered[id] == Request(command, ep)
      ensures closed == old(closed) && epoch == old(epoch) && current == old(current) && connecting == old(connecting)
    {
      st := Next(st, Registers(id, ep, command));
      if closed || current != Some(ep) { return false; }
      pending := pending[id := command];
      available := true;
    }

    /** True when the caller must send the response on the request's channel. */
    method SettleResponse(ep: Epoch, id: RequestId, command: Command) returns (owner: bool)
      requires Valid()
      modifies this
      ensures Valid() && st == Next(old(st), Responds(ep, id, command))
      ensures owner <==> old(current) == Some(ep) && id in old(pending) && old(pending)[id] == command
      ensures pending == (if owner then old(pending) - {id} else old(pending)) && nextId == old(nextId)
      ensures owner ==> id in st.calls.claims && st.calls.claims[id] == Response(ep, command)
      ensures closed == old(closed) && epoch == old(epoch) && current == old(current) && connecting == old(connecting)
    {
      st := Next(st, Responds(ep, id, command));
      owner := false;
      if current != Some(ep) { return; }
      if id in pending && pending[id] == command {
        pending := pending - {id};
        owner := true;
      }
    }

    /** False when the record cannot belong to this epoch, which the read loop then ends. */
    method SettleOversizedHistory(ep: Epoch, id: RequestId, command: Command) returns (settled: bool, owner: bool)
      requires Valid()
      modifies this
      ensures Valid() && st == Next(old(st), RespondsOversized(ep, id, command))
      ensures settled <==> old(current) == Some(ep) && (id in old(pending) ==> old(pending)[id] == command)
      ensures owner <==> settled && id in old(pending)
      ensures settled ==> pending == old(pending) - {id} && current == old(current) && epoch == old(epoch)
      ensures owner ==> id in st.calls.claims && st.calls.claims[id] == Oversized(ep, command)
      ensures !settled ==>
                if old(current) == Some(ep) then pending == map[] && current == None && epoch == old(epoch) + 1
                else pending == old(pending) && current == old(current) && epoch == old(epoch)
      ensures closed == old(closed) && connecting == old(connecting) && nextId == old(nextId)
    {
      owner := false;
      if current != Some(ep) { return false, false; }
      if id in pending && pending[id] != command {
        var waiting := InvalidateEpoch(ep);
        return false, false;
      }
      st := Next(st, RespondsOversized(ep, id, command));
      settled, owner := true, id in pending;
      pending := pending - {id};
    }

    /** Ends an epoch if it is current, and returns the requests that are owed an error. */
    method InvalidateEpoch(ep: Epoch) returns (waiting: map<RequestId, Command>)
      requires Valid()
      modifies this
      ensures Valid() && st == Next(old(st), Dies(ep))
      ensures waiting == if old(current) == Some(ep) then old(pending) else map[]
      ensures pending == if old(current) == Some(ep) then map[] else old(pending)
      ensures current == if old(current) == Some(ep) then None else old(current)
      ensures epoch == old(epoch) + if old(current) == Some(ep) then 1 else 0
      ensures forall id :: id in waiting ==> id in st.calls.claims && st.calls.claims[id] == Disconnected(ep)
      ensures closed == old(closed) && connecting == old(connecting) && nextId == old(nextId)
    {
      st := Next(st, Dies(ep));
      if current != Some(ep) { return map[]; }
      waiting := pending;
      current, epoch, pending := None, epoch + 1, map[];
    }

    method FenceConnectionGeneration() returns (retired: Option<Epoch>, waiting: map<RequestId, Command>)
      requires Valid()
      modifies this
      ensures Valid() && st == Next(old(st), Fences)
      ensures retired == old(current) && connecting == None && current == None
      ensures waiting == (if old(current).Some? then old(pending) else map[])
      ensures pending == (if old(current).Some? then map[] else old(pending))
      ensures epoch == old(epoch) + (if old(current).Some? then 1 else 0) && closed == old(closed) && nextId == old(nextId)
    {
      st := Next(st, Fences);
      connecting := None;
      retired, waiting := current, map[];
      if current.Some? {
        waiting := pending;
        current, epoch, pending := None, epoch + 1, map[];
      }
    }

    /** Whichever side removes the correlation owns completion. */
    method RemovePending(id: RequestId) returns (removed: bool)
      requires Valid()
      modifies this
      ensures Valid() && st == Next(old(st), Withdraws(id)) && (removed <==> id in old(pending))
      ensures pending == old(pending) - {id} && (removed ==> id in st.calls.withdrawn) && nextId == old(nextId)
      ensures closed == old(closed) && epoch == old(epoch) && current == old(current) && connecting == old(connecting)
    {
      st := Next(st, Withdraws(id));
      removed := id in pending;
      if removed {
        pending := pending - {id};
      }
    }

    /** Publishes a freshly dialed transport for a flight, unless the flight was superseded. */
    method EstablishFor(f: Flight) returns (ep: Option<Epoch>)
      requires Valid() && f < |st.link.flights| && st.link.flights[f].Dialing?
      modifies this
      ensures Valid() && st == Next(old(st), Establishes(f))
      ensures ep == if old(closed) || old(connecting) != Some(f) then None else Some(old(epoch) + 1)
      ensures ep.Some? ==> current == ep && epoch == ep.value && st.link.flights[f] == Negotiating(ep.value)
      ensures ep.None? ==> current == old(current) && epoch == old(epoch)
      ensures closed == old(closed) && connecting == old(connecting) && nextId == old(nextId)
      ensures LinkInv(old(st).link) && ep.Some? ==> old(current).None?
    {
      st := Next(st, Establishes(f));
      if closed || connecting != Some(f) { return None; }
      epoch := epoch + 1;
      current := Some(epoch);
      ep := current;
    }

    /** Starts a single reconnect flight when nothing is current or connecting, unless configured not to. */
    method StartReconnect() returns (f: Option<Flight>)
      requires Valid() && st.link.dial.Open?
      modifies this
      ensures Valid() && st == if noReconnect then old(st) else Next(old(st), StartsFlight)
      ensures f.Some? <==> !noReconnect && !old(closed) && old(connecting).None? && old(current).None?
      ensures f.Some? ==> connecting == f && f.value == |old(st).link.flights| && st.link.flights == old(st).link.flights + [Dialing]
      ensures f.None? ==> connecting == old(connecting)
      ensures closed == old(closed) && epoch == old(epoch) && current == old(current) && pending == old(pending)
    {
      if noReconnect { return None; }
      st := Next(st, StartsFlight);
      if closed || connecting.Some? || current.Some? { return None; }
      connecting, nextFlight := Some(nextFlight), nextFlight + 1;
      f := connecting;
    }

    /** Marks the flight's epoch as usable, unless it died meanwhile. */
    method PublishNegotiated(f: Flight, ep: Epoch) returns (ok: bool)
      requires Valid() && f < |st.link.flights| && st.link.flights[f] == Negotiating(ep)
      modifies this
      ensures Valid() && st == Next(old(st), Negotiates(f))
      ensures ok <==> !old(closed) && old(current) == Some(ep)
      ensures ok ==> ep in st.link.negotiated && st.link.flights[f] == Returned(Some(ep))
      ensures pending == old(pending) && closed == old(closed) && epoch == old(epoch) && current == old(current) && connecting == old(connecting)
    {
      st := Next(st, Negotiates(f));
      ok := !closed && current == Some(ep);
    }

    method FinishReconnect(f: Flight)
      requires Valid() && f < |st.link.flights| && !st.link.flights[f].Negotiating?
      modifies this
      ensures Valid() && st == Next(old(st), Finishes(f))
      ensures connecting == if old(connecting) == Some(f) then None else old(connecting)
      ensures closed == old(closed) && epoch == old(epoch) && current == old(current) && pending == old(pending)
    {
      st := Next(st, Finishes(f));
      if connecting == Some(f) {
        connecting := None;
      }
    }

    method CloseClient() returns (waiting: map<RequestId, Command>)
      requires Valid()
      modifies this
      ensures Valid() && closed && (!old(closed) ==> current == None && waiting == (if old(current).Some? then old(pending) else map[]))
      ensures !old(closed) ==> pending == (if old(current).Some? then map[] else old(pending))
      ensures old(closed) ==> waiting == map[] && pending == old(pending) && current == old(current)
      ensures st == if old(closed) then old(st)
                    else if old(current).None? then Next(old(st), Closes)
                    else Next(Next(old(st), Closes), Dies(old(current).value))
    {
      waiting := map[];
      if closed { return; }
      closed := true;
      st := Next(st, Closes);
      if current.Some? {
        waiting := InvalidateEpoch(current.value);
      }
    }
  }
}
