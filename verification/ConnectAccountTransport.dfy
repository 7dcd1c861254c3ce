/** The desktop account transport of apps/desktop/src/connectAccountTransport.ts on top of the broker:
    routes, single-use tickets, and sockets tunnelled to an authorized upstream. */
module ConnectAccountTransport {
  import opened Wrappers
  import Broker = ConnectAccountBroker

  const TICKET_LIFETIME: int := 30_000

  /** A connected environment; its target is the broker session it was delivered to. */
  datatype Route = Route(account: string, environment: string, session: nat)

  datatype Ticket = Ticket(route: nat, expiresAt: int)

  /** How far an accepted upgrade got. `Refused` covers every end but a tunnel. The check at the
      start of nextSocketUrl is left to the one at its end, which a passed generation cannot pass. */
  datatype Phase = AwaitingUrl | UrlDelivered | AwaitingUpstream | Tunnel(remote: nat) | Refused

  datatype Upgrade = Upgrade(socket: nat, route: nat, session: nat, phase: Phase)

  /** An upgrade request that was let in, and when. */
  datatype Admission = Admission(ticket: string, at: int)

  datatype State = State(
    broker: Broker.State,
    routes: map<nat, Route>,
    tickets: map<string, Ticket>,
    sockets: set<nat>,
    destroyed: set<nat>,
    upgrades: seq<Upgrade>,
    // history: the ids and tickets ever made, and the upgrades let in
    routeIds: set<nat>,
    issued: map<string, int>,
    seenSockets: set<nat>,
    admissions: seq<Admission>)

  const INITIAL := State(Broker.INITIAL, map[], map[], {}, {}, [], {}, map[], {}, [])

  datatype Event =
    | BrokerStep(event: Broker.Event)
    | Dispose
    | RouteAdded(id: nat, account: string, environment: string, session: nat)
    | TicketIssued(ticket: string, route: nat, now: int)
    | UpgradeRequested(ticket: string, socket: nat, now: int, trusted: bool)
    | UrlResumed(upgrade: nat)
    | UrlFailed(upgrade: nat)
    | UrlHandled(upgrade: nat)
    | UpstreamUpgraded(upgrade: nat, remote: nat)
    | UpstreamFailed(upgrade: nat)
    | SocketDestroyed(socket: nat)
    | SocketClosed(socket: nat)

  function Invalidated(s: State): State {
    s.(routes := map[], tickets := map[], destroyed := s.destroyed + s.sockets, sockets := {})
  }

  /** Ids and tickets are random and never come twice; sockets are new; promises settle once. */
  predicate Enabled(s: State, e: Event)
    requires Broker.WellFormed(s.broker)
  {
    match e
    case BrokerStep(event) => Broker.Enabled(s.broker, event)
    case Dispose => true
    case RouteAdded(id, account, environment, session) =>
      && id !in s.routeIds && session < |s.broker.sessions| && s.broker.sessions[session].delivered
      && s.broker.sessions[session].account == account && s.broker.sessions[session].environment == environment
    case TicketIssued(ticket, route, _) => ticket !in s.issued && route in s.routes
    case UpgradeRequested(_, socket, _, _) => socket !in s.seenSockets
    case UrlResumed(u) => u < |s.upgrades| && s.upgrades[u].phase == AwaitingUrl
    case UrlFailed(u) => u < |s.upgrades| && s.upgrades[u].phase == AwaitingUrl
    case UrlHandled(u) => u < |s.upgrades| && s.upgrades[u].phase == UrlDelivered
    case UpstreamUpgraded(u, remote) =>
      u < |s.upgrades| && s.upgrades[u].phase == AwaitingUpstream && remote !in s.seenSockets
    case UpstreamFailed(u) => u < |s.upgrades| && s.upgrades[u].phase == AwaitingUpstream
    case SocketDestroyed(socket) => socket in s.seenSockets
    case SocketClosed(socket) => socket in s.destroyed
  }

  function Move(s: State, u: nat, phase: Phase): State
    requires u < |s.upgrades|
  {
    s.(upgrades := s.upgrades[u := s.upgrades[u].(phase := phase)])
  }

  function Refuse(s: State, u: nat): State
    requires u < |s.upgrades|
  {
    Move(s, u, Refused).(destroyed := s.destroyed + {s.upgrades[u].socket})
  }

  /** The sockets tied to a closing one by a tunnel. */
  function Peers(s: State, socket: nat): set<nat> {
    (set u | 0 <= u < |s.upgrades| && s.upgrades[u].phase.Tunnel? && s.upgrades[u].socket == socket
        :: s.upgrades[u].phase.remote)
    + (set u | 0 <= u < |s.upgrades| && s.upgrades[u].phase.Tunnel? && s.upgrades[u].phase.remote == socket
        :: s.upgrades[u].socket)
  }

  predicate MayUpgrade(s: State, ticket: string, now: int, trusted: bool) {
    && ticket in s.tickets && s.tickets[ticket].route in s.routes
    && s.tickets[ticket].expiresAt > now && trusted
  }

  predicate SessionIsCurrent(s: State, session: nat) {
    && session < |s.broker.sessions|
    && var it := s.broker.sessions[session]; Broker.IsCurrent(s.broker, it.epoch, it.account)
  }

  /** The checks an upgrade makes before it goes on. */
  predicate MayGoOn(s: State, u: nat)
    requires u < |s.upgrades|
  {
    s.upgrades[u].socket !in s.destroyed && s.upgrades[u].route in s.routes
  }

  function Unexpired(tickets: map<string, Ticket>, now: int): map<string, Ticket> {
    map t | t in tickets && tickets[t].expiresAt > now :: tickets[t]
  }

  /** An upgrade request spends its ticket, and is let in or its socket destroyed. */
  function Requested(s: State, ticket: string, socket: nat, now: int, trusted: bool): State {
    var t := s.(tickets := s.tickets - {ticket}, seenSockets := s.seenSockets + {socket});
    if !MayUpgrade(s, ticket, now, trusted) then t.(destroyed := t.destroyed + {socket})
    else
      var route := s.tickets[ticket].route;
      t.(sockets := t.sockets + {socket},
         upgrades := t.upgrades + [Upgrade(socket, route, s.routes[route].session, AwaitingUrl)],
         admissions := t.admissions + [Admission(ticket, now)])
  }

  /** The upstream's answer ties the two sockets together, or both are destroyed. */
  function Answered(s: State, u: nat, remote: nat): State
    requires u < |s.upgrades|
  {
    var t := s.(seenSockets := s.seenSockets + {remote});
    if MayGoOn(s, u) then Move(t, u, Tunnel(remote)).(sockets := t.sockets + {remote})
    else
      var r := Refuse(t, u);
      r.(destroyed := r.destroyed + {remote})
  }

  function Step(s: State, e: Event): State
    requires Broker.WellFormed(s.broker) && Enabled(s, e)
  {
    match e
    case BrokerStep(event) =>
      var broker := Broker.Step(s.broker, event);
      var t := if broker.generation != s.broker.generation then Invalidated(s) else s;
      t.(broker := broker)
    case Dispose => Invalidated(s)
    case RouteAdded(id, account, environment, session) =>
      s.(routes := s.routes[id := Route(account, environment, session)], routeIds := s.routeIds + {id})
    case TicketIssued(ticket, route, now) =>
      s.(tickets := Unexpired(s.tickets, now)[ticket := Ticket(route, now + TICKET_LIFETIME)],
         issued := s.issued[ticket := now])
    case UpgradeRequested(ticket, socket, now, trusted) => Requested(s, ticket, socket, now, trusted)
    case UrlResumed(u) =>
      if SessionIsCurrent(s, s.upgrades[u].session) then Move(s, u, UrlDelivered) else Refuse(s, u)
    case UrlFailed(u) => Refuse(s, u)
    case UrlHandled(u) => if MayGoOn(s, u) then Move(s, u, AwaitingUpstream) else Refuse(s, u)
    case UpstreamUpgraded(u, remote) => Answered(s, u, remote)
    case UpstreamFailed(u) => Refuse(s, u)
    case SocketDestroyed(socket) => s.(destroyed := s.destroyed + {socket})
    case SocketClosed(socket) =>
      s.(sockets := s.sockets - {socket}, destroyed := s.destroyed + Peers(s, socket))
  }

  // ---------- What every run keeps ----------

  /** An upgrade that is still under way keeps its socket registered or destroyed; while the socket
      lives its route exists, and once a URL was delivered its account connection is current. */
  predicate UpgradeIsSafe(s: State, u: nat)
    requires u < |s.upgrades|
  {
    var it := s.upgrades[u];
    && it.socket in s.seenSockets && it.route in s.routeIds
    && (it.route in s.routes ==> s.routes[it.route].session == it.session)
    && (it.phase != Refused && it.socket !in s.destroyed ==> it.socket in s.sockets && it.route in s.routes)
    && (it.phase !in {AwaitingUrl, Refused} && it.socket !in s.destroyed ==> SessionIsCurrent(s, it.session))
    && (it.phase.Tunnel? ==>
        it.phase.remote in s.seenSockets && (it.phase.remote in s.sockets || it.phase.remote in s.destroyed))
  }

  /** A route leads to the session it was made for, of its account and environment. */
  predicate RouteIsConnected(s: State, id: nat)
    requires id in s.routes
  {
    var it := s.routes[id];
    && it.session < |s.broker.sessions|
    && s.broker.sessions[it.session].account == it.account
    && s.broker.sessions[it.session].environment == it.environment
  }

  predicate Invariant(s: State) {
    && Broker.Invariant(s.broker)
    && (forall id :: id in s.routes ==> RouteIsConnected(s, id))
    && (forall u :: 0 <= u < |s.upgrades| ==> UpgradeIsSafe(s, u))
    && s.routes.Keys <= s.routeIds
    && s.tickets.Keys <= s.issued.Keys
    && (forall t :: t in s.tickets ==> s.tickets[t].expiresAt == s.issued[t] + TICKET_LIFETIME)
    && (forall k :: 0 <= k < |s.admissions| ==>
          && s.admissions[k].ticket in s.issued && s.admissions[k].ticket !in s.tickets
          && s.admissions[k].at < s.issued[s.admissions[k].ticket] + TICKET_LIFETIME)
    && (forall j, k :: 0 <= j < k < |s.admissions| ==> s.admissions[j].ticket != s.admissions[k].ticket)
  }

  predicate IsLiveTunnel(s: State, u: nat) {
    && u < |s.upgrades| && s.upgrades[u].phase.Tunnel?
    && s.upgrades[u].socket !in s.destroyed && s.upgrades[u].phase.remote !in s.destroyed
  }

  /** What holds of upgrades after a step that leaves the upgrade list alone. */
  lemma UpgradesStaySafe(s: State, t: State)
    requires Invariant(s) && t.upgrades == s.upgrades
    requires s.destroyed <= t.destroyed && s.seenSockets <= t.seenSockets && s.routeIds <= t.routeIds
    requires s.sockets <= t.sockets + t.destroyed
    requires s.routes.Keys <= t.routes.Keys || s.sockets <= t.destroyed
    requires forall id :: id in t.routes && id in s.routeIds ==> id in s.routes && t.routes[id] == s.routes[id]
    requires s.sockets <= t.destroyed || forall session :: SessionIsCurrent(s, session) ==> SessionIsCurrent(t, session)
    ensures forall u :: 0 <= u < |t.upgrades| ==> UpgradeIsSafe(t, u)
  {
    forall u | 0 <= u < |t.upgrades| ensures UpgradeIsSafe(t, u) {
      assert UpgradeIsSafe(s, u);
    }
  }

  lemma BrokerKeepsCurrent(s: State, event: Broker.Event)
    requires Broker.Invariant(s.broker) && Broker.Enabled(s.broker, event)
    ensures var broker := Broker.Step(s.broker, event);
            broker.generation == s.broker.generation ==>
              forall session :: SessionIsCurrent(s, session) ==> SessionIsCurrent(s.(broker := broker), session)
  {
    Broker.StepShows(s.broker, event);
    SessionsKept(s.broker, event);
  }

  lemma SessionsKept(s: Broker.State, event: Broker.Event)
    requires Broker.WellFormed(s) && Broker.Enabled(s, event)
    ensures var t := Broker.Step(s, event);
            && |s.sessions| <= |t.sessions|
            && forall i :: 0 <= i < |s.sessions| ==>
                 && t.sessions[i].epoch == s.sessions[i].epoch && t.sessions[i].account == s.sessions[i].account
                 && t.sessions[i].environment == s.sessions[i].environment
  {
  }

  lemma BrokerStepKeepsInvariant(s: State, event: Broker.Event)
    requires Invariant(s) && Broker.Enabled(s.broker, event)
    ensures Invariant(Step(s, BrokerStep(event)))
  {
    assert Broker.WellFormed(s.broker);
    hide Broker.Step, Broker.Invariant, Broker.WellFormed, Broker.Enabled;
    Broker.StepKeepsInvariant(s.broker, event);
    BrokerKeepsCurrent(s, event);
    SessionsKept(s.broker, event);
    var t := Step(s, BrokerStep(event));
    forall id | id in t.routes ensures RouteIsConnected(t, id) {
      assert RouteIsConnected(s, id);
    }
    UpgradesStaySafe(s, t);
  }

  lemma MoveKeepsSafe(s: State, t: State, u: nat, phase: Phase)
    requires Invariant(s) && u < |s.upgrades|
    requires t.upgrades == s.upgrades[u := s.upgrades[u].(phase := phase)]
    requires t.broker == s.broker && t.routes == s.routes && t.routeIds == s.routeIds && s.sockets <= t.sockets
    requires s.destroyed <= t.destroyed && s.seenSockets <= t.seenSockets
    requires UpgradeIsSafe(t, u)
    ensures forall v :: 0 <= v < |t.upgrades| ==> UpgradeIsSafe(t, v)
  {
    forall v | 0 <= v < |t.upgrades| ensures UpgradeIsSafe(t, v) {
      assert UpgradeIsSafe(s, v);
    }
  }

  lemma RefuseKeepsInvariant(s: State, u: nat)
    requires Invariant(s) && u < |s.upgrades|
    ensures Invariant(Refuse(s, u))
  {
    hide Broker.Invariant;
    assert UpgradeIsSafe(s, u);
    MoveKeepsSafe(s, Refuse(s, u), u, Refused);
  }

  lemma AdvanceKeepsInvariant(s: State, u: nat, phase: Phase)
    requires Invariant(s) && u < |s.upgrades| && phase in {UrlDelivered, AwaitingUpstream}
    requires s.upgrades[u].phase == AwaitingUrl ==> SessionIsCurrent(s, s.upgrades[u].session)
    requires s.upgrades[u].phase in {AwaitingUrl, UrlDelivered}
    ensures Invariant(Move(s, u, phase))
  {
    hide Broker.Invariant;
    assert UpgradeIsSafe(s, u);
    MoveKeepsSafe(s, Move(s, u, phase), u, phase);
  }

  lemma UpstreamKeepsInvariant(s: State, u: nat, remote: nat)
    requires Invariant(s) && Enabled(s, UpstreamUpgraded(u, remote))
    ensures Invariant(Step(s, UpstreamUpgraded(u, remote)))
  {
    assert Broker.WellFormed(s.broker);
    hide Invariant, Broker.WellFormed;
    if MayGoOn(s, u) {
      TieKeepsInvariant(s, u, remote);
    } else {
      DropKeepsInvariant(s, u, remote);
    }
  }

  lemma TieKeepsInvariant(s: State, u: nat, remote: nat)
    requires Invariant(s) && Enabled(s, UpstreamUpgraded(u, remote)) && MayGoOn(s, u)
    ensures Invariant(Step(s, UpstreamUpgraded(u, remote)))
  {
    assert Broker.WellFormed(s.broker);
    assert UpgradeIsSafe(s, u);
    hide Broker.Invariant, Broker.WellFormed, RouteIsConnected, SessionIsCurrent;
    var t := Step(s, UpstreamUpgraded(u, remote));
    assert UpgradeIsSafe(t, u);
    MoveKeepsSafe(s, t, u, Tunnel(remote));
    SameRoutes(s, t);
  }

  lemma DropKeepsInvariant(s: State, u: nat, remote: nat)
    requires Invariant(s) && Enabled(s, UpstreamUpgraded(u, remote)) && !MayGoOn(s, u)
    ensures Invariant(Step(s, UpstreamUpgraded(u, remote)))
  {
    assert Broker.WellFormed(s.broker);
    assert UpgradeIsSafe(s, u);
    hide Broker.Invariant, Broker.WellFormed, RouteIsConnected, SessionIsCurrent;
    var t := Step(s, UpstreamUpgraded(u, remote));
    assert UpgradeIsSafe(t, u);
    MoveKeepsSafe(s, t, u, Refused);
    SameRoutes(s, t);
  }

  lemma SameRoutes(s: State, t: State)
    requires t.routes == s.routes && t.broker == s.broker
    requires forall id :: id in s.routes ==> RouteIsConnected(s, id)
    ensures forall id :: id in t.routes ==> RouteIsConnected(t, id)
  {
    forall id | id in t.routes ensures RouteIsConnected(t, id) {
      assert RouteIsConnected(s, id);
    }
  }

  lemma RequestKeepsInvariant(s: State, ticket: string, socket: nat, now: int, trusted: bool)
    requires Invariant(s) && Enabled(s, UpgradeRequested(ticket, socket, now, trusted))
    ensures Invariant(Step(s, UpgradeRequested(ticket, socket, now, trusted)))
  {
    assert Broker.WellFormed(s.broker);
    hide Broker.Invariant, Broker.WellFormed;
    var t := Step(s, UpgradeRequested(ticket, socket, now, trusted));
    forall u | 0 <= u < |t.upgrades| ensures UpgradeIsSafe(t, u) {
      if u < |s.upgrades| {
        assert UpgradeIsSafe(s, u);
      }
    }
  }

  lemma StepKeepsInvariant(s: State, e: Event)
    requires Invariant(s) && Enabled(s, e)
    ensures Invariant(Step(s, e))
  {
    assert Broker.WellFormed(s.broker);
    hide Broker.Invariant, Broker.WellFormed, Broker.Step, UpgradeIsSafe, RouteIsConnected, Peers;
    match e {
      case BrokerStep(event) => BrokerStepKeepsInvariant(s, event);
      case UpgradeRequested(ticket, socket, now, trusted) => RequestKeepsInvariant(s, ticket, socket, now, trusted);
      case UrlResumed(u) =>
        RefuseKeepsInvariant(s, u);
        if SessionIsCurrent(s, s.upgrades[u].session) {
          AdvanceKeepsInvariant(s, u, UrlDelivered);
        }
      case UrlFailed(u) => RefuseKeepsInvariant(s, u);
      case UrlHandled(u) =>
        RefuseKeepsInvariant(s, u);
        AdvanceKeepsInvariant(s, u, AwaitingUpstream);
      case UpstreamUpgraded(u, remote) => UpstreamKeepsInvariant(s, u, remote);
      case UpstreamFailed(u) => RefuseKeepsInvariant(s, u);
      case _ => PlainStepKeepsInvariant(s, e);
    }
  }

  lemma PlainStepKeepsInvariant(s: State, e: Event)
    requires Invariant(s) && Enabled(s, e)
    requires e.Dispose? || e.RouteAdded? || e.TicketIssued? || e.SocketDestroyed? || e.SocketClosed?
    ensures Invariant(Step(s, e))
  {
    assert Broker.WellFormed(s.broker);
    hide Invariant, Broker.WellFormed;
    match e {
      case RouteAdded(id, account, environment, session) => AddingKeepsInvariant(s, id, account, environment, session);
      case TicketIssued(ticket, route, now) => IssuingKeepsInvariant(s, ticket, route, now);
      case _ => LosingKeepsInvariant(s, e);
    }
  }

  lemma AddingKeepsInvariant(s: State, id: nat, account: string, environment: string, session: nat)
    requires Invariant(s) && Enabled(s, RouteAdded(id, account, environment, session))
    ensures Invariant(Step(s, RouteAdded(id, account, environment, session)))
  {
    assert Broker.WellFormed(s.broker);
    hide Broker.Invariant, Broker.WellFormed, UpgradeIsSafe, SessionIsCurrent;
    var t := Step(s, RouteAdded(id, account, environment, session));
    UpgradesStaySafe(s, t);
    forall other | other in t.routes ensures RouteIsConnected(t, other) {
      assert other in s.routes ==> RouteIsConnected(s, other);
    }
  }

  lemma IssuingKeepsInvariant(s: State, ticket: string, route: nat, now: int)
    requires Invariant(s) && Enabled(s, TicketIssued(ticket, route, now))
    ensures Invariant(Step(s, TicketIssued(ticket, route, now)))
  {
    assert Broker.WellFormed(s.broker);
    hide Broker.Invariant, Broker.WellFormed, UpgradeIsSafe, SessionIsCurrent, RouteIsConnected;
    var t := Step(s, TicketIssued(ticket, route, now));
    UpgradesStaySafe(s, t);
    SameRoutes(s, t);
  }

  lemma LosingKeepsInvariant(s: State, e: Event)
    requires Invariant(s) && Enabled(s, e) && (e.Dispose? || e.SocketDestroyed? || e.SocketClosed?)
    ensures Invariant(Step(s, e))
  {
    assert Broker.WellFormed(s.broker);
    hide Broker.Invariant, Broker.WellFormed, UpgradeIsSafe, SessionIsCurrent, RouteIsConnected, Peers;
    var t := Step(s, e);
    UpgradesStaySafe(s, t);
    if !e.Dispose? {
      SameRoutes(s, t);
    }
  }

  ghost predicate IsRun(s: State, events: seq<Event>, t: State)
    decreases |events|
  {
    if events == [] then t == s
    else Broker.WellFormed(s.broker) && Enabled(s, events[0]) && IsRun(Step(s, events[0]), events[1..], t)
  }

  lemma {:induction false} RunKeepsInvariant(s: State, events: seq<Event>, t: State)
    requires Invariant(s) && IsRun(s, events, t)
    ensures Invariant(t)
    decreases |events|
  {
    if events == [] {
    } else {
      StepKeepsInvariant(s, events[0]);
      RunKeepsInvariant(Step(s, events[0]), events[1..], t);
    }
  }

  /** In every run: a live tunnel's route is in the table, both its ends are registered, and the
      connection behind it is the one of that route, for its account and environment, was made in
      the current generation, and is for the account shown now. */
  lemma LiveTunnelsAreCurrent(events: seq<Event>, s: State, u: nat)
    requires IsRun(INITIAL, events, s) && IsLiveTunnel(s, u)
    ensures var it := s.upgrades[u];
            && it.route in s.routes && it.socket in s.sockets && it.phase.remote in s.sockets
            && s.routes[it.route].session == it.session < |s.broker.sessions|
            && var session := s.broker.sessions[it.session];
               && session.account == s.routes[it.route].account
               && session.environment == s.routes[it.route].environment
               && session.epoch == s.broker.generation
               && s.broker.discovery.Some? && s.broker.discovery.value.account == session.account
  {
    RunKeepsInvariant(INITIAL, events, s);
    assert UpgradeIsSafe(s, u);
    assert RouteIsConnected(s, s.upgrades[u].route);
  }

  /** In every run: no ticket lets in two upgrades, and none after it expired. */
  lemma TicketsAreSingleUse(events: seq<Event>, s: State)
    requires IsRun(INITIAL, events, s)
    ensures forall j, k :: 0 <= j < k < |s.admissions| ==> s.admissions[j].ticket != s.admissions[k].ticket
    ensures forall k :: 0 <= k < |s.admissions| ==>
              && s.admissions[k].ticket in s.issued
              && s.admissions[k].at < s.issued[s.admissions[k].ticket] + TICKET_LIFETIME
  {
    RunKeepsInvariant(INITIAL, events, s);
  }

  /** In every run: an upgrade is let in exactly when its ticket is there, unexpired, for a route
      that exists, and asked for by the trusted origin; and the ticket is gone afterwards. */
  lemma AdmissionNeedsRoute(events: seq<Event>, s: State, ticket: string, socket: nat, now: int, trusted: bool)
    requires IsRun(INITIAL, events, s) && socket !in s.seenSockets
    ensures Broker.WellFormed(s.broker) && s.tickets.Keys <= s.issued.Keys
    ensures var t := Step(s, UpgradeRequested(ticket, socket, now, trusted));
            && ticket !in t.tickets
            && (t.admissions != s.admissions <==>
                && ticket in s.tickets && s.tickets[ticket].route in s.routes
                && now < s.issued[ticket] + TICKET_LIFETIME && trusted)
            && (t.admissions != s.admissions ==> ticket !in set k | 0 <= k < |s.admissions| :: s.admissions[k].ticket)
    ensures var t := Step(s, UpgradeRequested(ticket, socket, now, trusted));
            if t.admissions == s.admissions
            then t.upgrades == s.upgrades && t.destroyed == s.destroyed + {socket}
            else && t.destroyed == s.destroyed && t.sockets == s.sockets + {socket}
                 && t.upgrades == s.upgrades + [Upgrade(socket, s.tickets[ticket].route,
                                                        s.routes[s.tickets[ticket].route].session, AwaitingUrl)]
  {
    RunKeepsInvariant(INITIAL, events, s);
    assert Broker.WellFormed(s.broker);
    assert Step(s, UpgradeRequested(ticket, socket, now, trusted)) == Requested(s, ticket, socket, now, trusted);
    hide Broker.Invariant, Broker.WellFormed, UpgradeIsSafe, RouteIsConnected, IsRun, Step;
  }

  // ---------- Invalidation ----------

  /** Upgrade `u` will never be a live tunnel again. */
  predicate IsDead(s: State, u: nat) {
    && u < |s.upgrades|
    && (|| s.upgrades[u].phase == Refused || s.upgrades[u].socket in s.destroyed
        || (s.upgrades[u].phase.Tunnel? && s.upgrades[u].phase.remote in s.destroyed))
  }

  lemma DeadStaysDead(s: State, e: Event, u: nat)
    requires Broker.WellFormed(s.broker) && Enabled(s, e) && IsDead(s, u)
    ensures IsDead(Step(s, e), u)
  {
    hide Broker.Step, Broker.Enabled, Peers, Unexpired, MayUpgrade, SessionIsCurrent, MayGoOn;
    match e
    case UpgradeRequested(ticket, socket, now, trusted) =>
      assert IsDead(Requested(s, ticket, socket, now, trusted), u);
    case UpstreamUpgraded(v, remote) =>
      assert IsDead(Answered(s, v, remote), u);
    case UrlResumed(v) =>
      MovedStaysDead(s, v, UrlDelivered, u);
    case UrlHandled(v) =>
      MovedStaysDead(s, v, AwaitingUpstream, u);
    case UrlFailed(v) =>
      MovedStaysDead(s, v, Refused, u);
    case UpstreamFailed(v) =>
      MovedStaysDead(s, v, Refused, u);
    case _ =>
  }

  lemma MovedStaysDead(s: State, v: nat, phase: Phase, u: nat)
    requires IsDead(s, u) && v < |s.upgrades| && s.upgrades[v].phase != Refused && !s.upgrades[v].phase.Tunnel?
    ensures IsDead(Move(s, v, phase), u) && IsDead(Refuse(s, v), u)
  {
  }

  lemma {:induction false} DeadForever(s: State, events: seq<Event>, t: State, u: nat)
    requires IsRun(s, events, t) && IsDead(s, u)
    ensures !IsLiveTunnel(t, u)
    decreases |events|
  {
    if events == [] {
    } else {
      DeadStaysDead(s, events[0], u);
      DeadForever(Step(s, events[0]), events[1..], t, u);
    }
  }

  /** Whether a step invalidates: the generation moves on, or the transport is disposed of. */
  predicate Invalidates(s: State, e: Event)
    requires Broker.WellFormed(s.broker) && Enabled(s, e)
  {
    e == Dispose || (e.BrokerStep? && Broker.Step(s.broker, e.event).generation != s.broker.generation)
  }

  /** In every run: after an invalidation there are no routes and no tickets; the socket of every
      upgrade begun before it and both ends of every tunnel are destroyed; and no such upgrade,
      tunnelled or half done, ever becomes a live tunnel. */
  lemma InvalidationKillsEverything(
    before: seq<Event>, s: State, e: Event, after: seq<Event>, t: State, u: nat)
    requires IsRun(INITIAL, before, s) && Broker.WellFormed(s.broker) && Enabled(s, e) && Invalidates(s, e)
    requires IsRun(Step(s, e), after, t) && u < |s.upgrades|
    ensures Step(s, e).routes == map[] && Step(s, e).tickets == map[] && Step(s, e).sockets == {}
    ensures s.upgrades[u].phase != Refused ==> s.upgrades[u].socket in Step(s, e).destroyed
    ensures s.upgrades[u].phase.Tunnel? ==> s.upgrades[u].phase.remote in Step(s, e).destroyed
    ensures !IsLiveTunnel(Step(s, e), u) && !IsLiveTunnel(t, u)
  {
    RunKeepsInvariant(INITIAL, before, s);
    assert UpgradeIsSafe(s, u);
    DeadForever(Step(s, e), after, t, u);
  }

  // ---------- Stale routes ----------

  lemma {:induction false} RunKeepsShown(s: State, events: seq<Event>, t: State)
    requires Invariant(s) && Broker.SessionsAreShown(s.broker) && IsRun(s, events, t)
    ensures Broker.SessionsAreShown(t.broker)
    decreases |events|
  {
    if events == [] {
    } else {
      StepKeepsInvariant(s, events[0]);
      if events[0].BrokerStep? {
        Broker.StepKeepsShown(s.broker, events[0].event);
      }
      OtherStepsKeepBroker(s, events[0]);
      hide Invariant, Step, Enabled, Broker.SessionsAreShown;
      RunKeepsShown(Step(s, events[0]), events[1..], t);
    }
  }

  lemma OtherStepsKeepBroker(s: State, e: Event)
    requires Broker.WellFormed(s.broker) && Enabled(s, e)
    ensures Step(s, e).broker == if e.BrokerStep? then Broker.Step(s.broker, e.event) else s.broker
  {
    hide Broker.Step, Broker.WellFormed, Broker.Enabled, Peers, Unexpired;
  }

  /** In every run: a route in the table is current exactly when it was delivered in the generation
      that the broker is in now. */
  lemma RoutesAreCurrentExactly(events: seq<Event>, s: State, id: nat)
    requires IsRun(INITIAL, events, s) && id in s.routes
    ensures s.routes[id].session < |s.broker.sessions|
    ensures SessionIsCurrent(s, s.routes[id].session) <==>
            s.broker.sessions[s.routes[id].session].epoch == s.broker.generation
  {
    RunKeepsInvariant(INITIAL, events, s);
    RunKeepsShown(INITIAL, events, s);
    assert RouteIsConnected(s, id);
    assert Broker.SessionIsShown(s.broker, s.routes[id].session);
  }

  /** No event of the run invalidates. */
  ghost predicate NeverInvalidates(s: State, events: seq<Event>)
    decreases |events|
  {
    events == [] ||
    (&& Broker.WellFormed(s.broker) && Enabled(s, events[0]) && !Invalidates(s, events[0])
     && NeverInvalidates(Step(s, events[0]), events[1..]))
  }

  lemma StepKeepsRoute(s: State, e: Event, id: nat)
    requires Broker.WellFormed(s.broker) && Enabled(s, e) && id in s.routeIds
    ensures var t := Step(s, e);
            && id in t.routeIds
            && (id in t.routes ==> id in s.routes && t.routes[id] == s.routes[id])
            && (id in s.routes && !Invalidates(s, e) ==> id in t.routes)
  {
    hide Broker.Step, Broker.WellFormed, Broker.Enabled, Peers, Unexpired;
  }

  /** A route that is in the table stays there, unchanged, until the next invalidation. */
  lemma {:induction false} RunKeepsRoute(s: State, events: seq<Event>, t: State, id: nat)
    requires IsRun(s, events, t) && id in s.routeIds
    ensures id in t.routes ==> id in s.routes && t.routes[id] == s.routes[id]
    ensures id in s.routes && NeverInvalidates(s, events) ==> id in t.routes
    decreases |events|
  {
    if events == [] {
    } else {
      StepKeepsRoute(s, events[0], id);
      hide Step, Enabled, Invalidates, Broker.WellFormed;
      RunKeepsRoute(Step(s, events[0]), events[1..], t, id);
    }
  }

  lemma StepKeepsOld(s: State, e: Event, i: nat)
    requires Broker.WellFormed(s.broker) && Enabled(s, e)
    requires i < |s.broker.sessions| && s.broker.sessions[i].epoch < s.broker.generation
    ensures var b := Step(s, e).broker; i < |b.sessions| && b.sessions[i].epoch < b.generation
  {
    OtherStepsKeepBroker(s, e);
    if e.BrokerStep? {
      Broker.StepShows(s.broker, e.event);
      SessionsKept(s.broker, e.event);
    }
    hide Step, Broker.Step;
  }

  lemma {:induction false} RunKeepsOld(s: State, events: seq<Event>, t: State, i: nat)
    requires IsRun(s, events, t)
    requires i < |s.broker.sessions| && s.broker.sessions[i].epoch < s.broker.generation
    ensures i < |t.broker.sessions| && t.broker.sessions[i].epoch < t.broker.generation
    decreases |events|
  {
    if events == [] {
    } else {
      StepKeepsOld(s, events[0], i);
      hide Step, Enabled, Broker.WellFormed;
      RunKeepsOld(Step(s, events[0]), events[1..], t, i);
    }
  }

  /** In every run: a route that is stale, because it was added after an invalidation, never becomes
      current. Until the next invalidation it is found again by every later connect for its account
      and environment, and no upgrade on it gets past its first check. */
  lemma StaleRoutesStayStale(before: seq<Event>, s: State, after: seq<Event>, t: State, id: nat)
    requires IsRun(INITIAL, before, s) && IsRun(s, after, t)
    requires id in s.routes && !SessionIsCurrent(s, s.routes[id].session)
    ensures !SessionIsCurrent(t, s.routes[id].session)
    ensures NeverInvalidates(s, after) ==> id in t.routes && t.routes[id] == s.routes[id]
    ensures forall u :: 0 <= u < |t.upgrades| && t.upgrades[u].route == id ==>
              t.upgrades[u].phase in {AwaitingUrl, Refused} || t.upgrades[u].socket in t.destroyed
  {
    RunKeepsInvariant(INITIAL, before, s);
    RunKeepsInvariant(s, after, t);
    RunKeepsShown(INITIAL, before, s);
    RoutesAreCurrentExactly(before, s, id);
    var session := s.routes[id].session;
    assert Broker.SessionIsShown(s.broker, session);
    hide Broker.Invariant, Broker.SessionsAreShown, IsRun, NeverInvalidates, RouteIsConnected;
    RunKeepsOld(s, after, t, session);
    RunKeepsRoute(s, after, t, id);
    forall u | 0 <= u < |t.upgrades| && t.upgrades[u].route == id
      ensures t.upgrades[u].phase in {AwaitingUrl, Refused} || t.upgrades[u].socket in t.destroyed
    {
      assert UpgradeIsSafe(t, u);
    }
  }

  // ---------- Tickets stay usable ----------

  ghost predicate Presents(events: seq<Event>, ticket: string) {
    exists e :: e in events && e.UpgradeRequested? && e.ticket == ticket
  }

  /** No ticket of the run is issued after `now`. */
  ghost predicate IssuedUntil(events: seq<Event>, now: int) {
    forall e :: e in events && e.TicketIssued? ==> e.now <= now
  }

  lemma StepKeepsTicket(s: State, e: Event, ticket: string)
    requires Broker.WellFormed(s.broker) && Enabled(s, e) && ticket in s.issued
    ensures var t := Step(s, e);
            && ticket in t.issued
            && (ticket in t.tickets ==> ticket in s.tickets && t.tickets[ticket] == s.tickets[ticket])
            && (ticket in s.tickets ==>
                  (ticket in t.tickets <==>
                   && !Invalidates(s, e) && !(e.UpgradeRequested? && e.ticket == ticket)
                   && !(e.TicketIssued? && s.tickets[ticket].expiresAt <= e.now)))
  {
    hide Broker.Step, Broker.WellFormed, Broker.Enabled, Peers, MayUpgrade;
  }

  /** An issued ticket stays, unchanged, until it is presented, an invalidation comes, or another one
      is issued after it expired; once gone it is gone for good. */
  lemma {:induction false} RunKeepsTicket(s: State, events: seq<Event>, t: State, ticket: string, now: int)
    requires IsRun(s, events, t) && ticket in s.issued && IssuedUntil(events, now)
    ensures ticket in t.tickets ==> ticket in s.tickets && t.tickets[ticket] == s.tickets[ticket]
    ensures ticket in t.tickets ==> NeverInvalidates(s, events) && !Presents(events, ticket)
    ensures (&& ticket in s.tickets && NeverInvalidates(s, events) && !Presents(events, ticket)
             && now < s.tickets[ticket].expiresAt) ==> ticket in t.tickets
    decreases |events|
  {
    if events == [] {
    } else {
      var e, rest := events[0], events[1..];
      assert events == [e] + rest;
      StepKeepsTicket(s, e, ticket);
      hide Step, Enabled, Invalidates, Broker.WellFormed;
      RunKeepsTicket(Step(s, e), rest, t, ticket, now);
      assert Presents(events, ticket) <==> (e.UpgradeRequested? && e.ticket == ticket) || Presents(rest, ticket);
    }
  }

  /** A ticket was issued for a route at `at`, and later it is presented, on a clock that does not run
      back. */
  ghost predicate IsPresentation(before: seq<Event>, s: State, ticket: string, route: nat, at: int, after: seq<Event>,
                                 t: State, now: int) {
    && IsRun(INITIAL, before, s) && Broker.WellFormed(s.broker) && Enabled(s, TicketIssued(ticket, route, at))
    && IsRun(Step(s, TicketIssued(ticket, route, at)), after, t) && IssuedUntil(after, now)
  }

  /** In every run: a ticket admits its first trusted presentation within 30 seconds, whatever other
      tickets are issued meanwhile, exactly when no invalidation came in between. */
  lemma TicketsAdmitExactly(before: seq<Event>, s: State, ticket: string, route: nat, at: int, after: seq<Event>,
                            t: State, now: int, trusted: bool)
    requires IsPresentation(before, s, ticket, route, at, after, t, now)
    ensures MayUpgrade(t, ticket, now, trusted) <==>
              && NeverInvalidates(Step(s, TicketIssued(ticket, route, at)), after) && !Presents(after, ticket)
              && now < at + 30_000 && trusted
    ensures MayUpgrade(t, ticket, now, trusted) ==>
              t.tickets[ticket].route == route && t.routes[route] == s.routes[route]
  {
    var next := Step(s, TicketIssued(ticket, route, at));
    assert ticket in next.tickets && next.tickets[ticket] == Ticket(route, at + TICKET_LIFETIME);
    assert next.routes == s.routes && ticket in next.issued && next.routeIds == s.routeIds;
    RunKeepsInvariant(INITIAL, before, s);
    assert route in s.routeIds;
    hide IsRun, Step, Invariant, Enabled, NeverInvalidates, Broker.WellFormed, IssuedUntil;
    RunKeepsTicket(next, after, t, ticket, now);
    RunKeepsRoute(next, after, t, route);
  }

  // ---------- Upgrades go on, and tunnels live on ----------

  /** In every run, with a socket that lives: an upgrade gets its URL exactly when its session is of
      the present generation, and from then on goes on, to be a tunnel, whenever it is answered. */
  lemma UpgradesGoOnExactly(events: seq<Event>, s: State, u: nat, remote: nat)
    requires IsRun(INITIAL, events, s) && u < |s.upgrades|
    requires s.upgrades[u].phase != Refused && s.upgrades[u].socket !in s.destroyed
    ensures Broker.WellFormed(s.broker) && s.upgrades[u].session < |s.broker.sessions|
    ensures Enabled(s, UrlResumed(u)) ==>
              Step(s, UrlResumed(u)).upgrades[u].phase ==
              if s.broker.sessions[s.upgrades[u].session].epoch == s.broker.generation then UrlDelivered else Refused
    ensures Enabled(s, UrlHandled(u)) ==> Step(s, UrlHandled(u)) == Move(s, u, AwaitingUpstream)
    ensures Enabled(s, UpstreamUpgraded(u, remote)) ==>
              Step(s, UpstreamUpgraded(u, remote)) ==
              Move(s, u, Tunnel(remote)).(sockets := s.sockets + {remote}, seenSockets := s.seenSockets + {remote})
  {
    LiveUpgrade(events, s, u);
    hide Broker.WellFormed, Broker.Step, Broker.Enabled, IsRun, SessionIsCurrent, Peers, Unexpired, Requested;
  }

  /** Whether an event is about upgrade `u`. */
  predicate Concerns(e: Event, u: nat) {
    (e.UrlResumed? || e.UrlFailed? || e.UrlHandled? || e.UpstreamUpgraded? || e.UpstreamFailed?) && e.upgrade == u
  }

  /** An upgrade ends when it fails, or when its socket is gone where that is looked at; whenever it
      ends, its socket is destroyed, and so is the upstream socket that was about to be tied to it. */
  lemma UpgradesEnd(s: State, e: Event, u: nat)
    requires Broker.WellFormed(s.broker) && Enabled(s, e) && Concerns(e, u)
    ensures var t := Step(s, e);
            && (e.UrlFailed? || e.UpstreamFailed? ==> t.upgrades[u].phase == Refused)
            && (s.upgrades[u].socket in s.destroyed && (e.UrlHandled? || e.UpstreamUpgraded?) ==>
                  t.upgrades[u].phase == Refused)
            && (t.upgrades[u].phase == Refused ==>
                  s.upgrades[u].socket in t.destroyed && (e.UpstreamUpgraded? ==> e.remote in t.destroyed))
  {
    hide Broker.WellFormed, Broker.Step, Broker.Enabled, SessionIsCurrent, Peers, Unexpired, Requested;
  }

  lemma LiveUpgrade(events: seq<Event>, s: State, u: nat)
    requires IsRun(INITIAL, events, s) && u < |s.upgrades|
    requires s.upgrades[u].phase != Refused && s.upgrades[u].socket !in s.destroyed
    ensures Broker.WellFormed(s.broker) && s.upgrades[u].session < |s.broker.sessions|
    ensures s.upgrades[u].route in s.routes && s.upgrades[u].socket in s.sockets
    ensures SessionIsCurrent(s, s.upgrades[u].session) <==>
            s.broker.sessions[s.upgrades[u].session].epoch == s.broker.generation
  {
    RunKeepsInvariant(INITIAL, events, s);
    assert UpgradeIsSafe(s, u);
    hide Broker.Invariant, IsRun;
    RoutesAreCurrentExactly(events, s, s.upgrades[u].route);
  }

  function Ends(it: Upgrade): set<nat> {
    {it.socket} + if it.phase.Tunnel? then {it.phase.remote} else {}
  }

  /** No two upgrades share a socket, and no tunnel leads back to itself. */
  ghost predicate EndsApart(upgrades: seq<Upgrade>, seen: set<nat>) {
    && (forall u :: 0 <= u < |upgrades| ==> Ends(upgrades[u]) <= seen)
    && (forall u, v :: 0 <= u < v < |upgrades| ==> Ends(upgrades[u]) !! Ends(upgrades[v]))
  }

  lemma MoveKeepsApart(upgrades: seq<Upgrade>, seen: set<nat>, more: set<nat>, u: nat, it: Upgrade)
    requires EndsApart(upgrades, seen) && u < |upgrades| && it.socket == upgrades[u].socket
    requires seen <= more && Ends(it) <= more && (Ends(it) - {it.socket}) !! seen
    ensures EndsApart(upgrades[u := it], more)
  {
    assert forall v :: 0 <= v < |upgrades| ==> Ends(upgrades[v]) <= seen;
    assert upgrades[u].socket in Ends(upgrades[u]);
    assert Ends(it) <= Ends(upgrades[u]) + (Ends(it) - {it.socket});
  }

  lemma RequestKeepsApart(upgrades: seq<Upgrade>, seen: set<nat>, it: Upgrade)
    requires EndsApart(upgrades, seen) && !it.phase.Tunnel? && it.socket !in seen
    ensures EndsApart(upgrades + [it], seen + {it.socket})
  {
    assert forall v :: 0 <= v < |upgrades| ==> Ends(upgrades[v]) <= seen;
  }

  lemma StepKeepsApart(s: State, e: Event)
    requires Broker.WellFormed(s.broker) && Enabled(s, e) && EndsApart(s.upgrades, s.seenSockets)
    ensures EndsApart(Step(s, e).upgrades, Step(s, e).seenSockets)
  {
    hide Broker.Step, Broker.WellFormed, Broker.Enabled, Peers, Unexpired, EndsApart, MayUpgrade, MayGoOn;
    hide SessionIsCurrent;
    match e {
      case UpgradeRequested(ticket, socket, now, trusted) =>
        SeeingMoreKeepsApart(s.upgrades, s.seenSockets, {socket});
        if MayUpgrade(s, ticket, now, trusted) {
          RequestKeepsApart(s.upgrades, s.seenSockets, Step(s, e).upgrades[|s.upgrades|]);
        }
      case UrlResumed(u) => PhaseKeepsApart(s, u, Step(s, e));
      case UrlFailed(u) => PhaseKeepsApart(s, u, Step(s, e));
      case UrlHandled(u) => PhaseKeepsApart(s, u, Step(s, e));
      case UpstreamFailed(u) => PhaseKeepsApart(s, u, Step(s, e));
      case UpstreamUpgraded(u, remote) => AnswerKeepsApart(s, u, remote);
      case _ =>
    }
  }

  lemma SeeingMoreKeepsApart(upgrades: seq<Upgrade>, seen: set<nat>, more: set<nat>)
    requires EndsApart(upgrades, seen)
    ensures EndsApart(upgrades, seen + more)
  {
  }

  lemma PhaseKeepsApart(s: State, u: nat, t: State)
    requires EndsApart(s.upgrades, s.seenSockets) && u < |s.upgrades| == |t.upgrades|
    requires t.upgrades == s.upgrades[u := s.upgrades[u].(phase := t.upgrades[u].phase)]
    requires !t.upgrades[u].phase.Tunnel? && t.seenSockets == s.seenSockets
    ensures EndsApart(t.upgrades, t.seenSockets)
  {
    assert s.upgrades[u].socket in Ends(s.upgrades[u]);
    MoveKeepsApart(s.upgrades, s.seenSockets, s.seenSockets, u, t.upgrades[u]);
  }

  lemma AnswerKeepsApart(s: State, u: nat, remote: nat)
    requires Broker.WellFormed(s.broker) && Enabled(s, UpstreamUpgraded(u, remote))
    requires EndsApart(s.upgrades, s.seenSockets)
    ensures EndsApart(Step(s, UpstreamUpgraded(u, remote)).upgrades, s.seenSockets + {remote})
    ensures Step(s, UpstreamUpgraded(u, remote)).seenSockets == s.seenSockets + {remote}
  {
    var t := Step(s, UpstreamUpgraded(u, remote));
    assert s.upgrades[u].socket in Ends(s.upgrades[u]);
    MoveKeepsApart(s.upgrades, s.seenSockets, s.seenSockets + {remote}, u, t.upgrades[u]);
  }

  lemma {:induction false} RunKeepsApart(s: State, events: seq<Event>, t: State)
    requires IsRun(s, events, t) && EndsApart(s.upgrades, s.seenSockets)
    ensures EndsApart(t.upgrades, t.seenSockets)
    decreases |events|
  {
    hide Step, Enabled, EndsApart, Broker.WellFormed;
    if events == [] {
    } else {
      StepKeepsApart(s, events[0]);
      RunKeepsApart(Step(s, events[0]), events[1..], t);
    }
  }

  /** Whether a step ends tunnel `u`. */
  predicate Cuts(s: State, e: Event, u: nat)
    requires Broker.WellFormed(s.broker) && Enabled(s, e) && u < |s.upgrades|
  {
    Invalidates(s, e) || (e.SocketDestroyed? && e.socket in Ends(s.upgrades[u]))
  }

  lemma StepKeepsTunnel(s: State, e: Event, u: nat)
    requires Invariant(s) && EndsApart(s.upgrades, s.seenSockets) && Enabled(s, e) && IsLiveTunnel(s, u)
    ensures u < |Step(s, e).upgrades| && Step(s, e).upgrades[u] == s.upgrades[u]
    ensures IsLiveTunnel(Step(s, e), u) <==> !Cuts(s, e, u)
  {
    assert Broker.WellFormed(s.broker) && UpgradeIsSafe(s, u);
    hide Invariant, UpgradeIsSafe;
    if e.UrlResumed? || e.UrlFailed? || e.UrlHandled? || e.UpstreamFailed? || e.UpstreamUpgraded? {
      OtherUpgradeKeepsTunnel(s, e, u);
    } else {
      PlainStepKeepsTunnel(s, e, u);
    }
  }

  lemma OtherUpgradeKeepsTunnel(s: State, e: Event, u: nat)
    requires Broker.WellFormed(s.broker) && EndsApart(s.upgrades, s.seenSockets) && Enabled(s, e) && IsLiveTunnel(s, u)
    requires e.UrlResumed? || e.UrlFailed? || e.UrlHandled? || e.UpstreamFailed? || e.UpstreamUpgraded?
    ensures IsLiveTunnel(Step(s, e), u) && Step(s, e).upgrades[u] == s.upgrades[u] && !Cuts(s, e, u)
  {
    hide Broker.Step, Broker.WellFormed, Broker.Enabled, Unexpired, MayUpgrade, EndsApart, SessionIsCurrent;
    hide MayGoOn, Peers;
    var it := s.upgrades[u];
    assert Ends(it) <= s.seenSockets && it.socket in Ends(it) && it.phase.remote in Ends(it) by {
      EndsAreSeen(s.upgrades, s.seenSockets, u);
    }
    OthersApart(s, u, e.upgrade);
  }

  lemma EndsAreSeen(upgrades: seq<Upgrade>, seen: set<nat>, u: nat)
    requires EndsApart(upgrades, seen) && u < |upgrades|
    ensures Ends(upgrades[u]) <= seen
  {
  }

  lemma PlainStepKeepsTunnel(s: State, e: Event, u: nat)
    requires Broker.WellFormed(s.broker) && EndsApart(s.upgrades, s.seenSockets) && Enabled(s, e) && IsLiveTunnel(s, u)
    requires s.upgrades[u].socket in s.sockets
    requires !e.UrlResumed? && !e.UrlFailed? && !e.UrlHandled? && !e.UpstreamFailed? && !e.UpstreamUpgraded?
    ensures u < |Step(s, e).upgrades| && Step(s, e).upgrades[u] == s.upgrades[u]
    ensures IsLiveTunnel(Step(s, e), u) <==> !Cuts(s, e, u)
  {
    hide Broker.Step, Broker.WellFormed, Broker.Enabled, Unexpired, MayUpgrade, EndsApart, Peers;
    var it := s.upgrades[u];
    EndsAreSeen(s.upgrades, s.seenSockets, u);
    assert it.socket in Ends(it) && it.phase.remote in Ends(it);
    if e.SocketClosed? {
      PeersAreOthers(s, u, e.socket);
    }
  }

  lemma OthersApart(s: State, u: nat, v: nat)
    requires EndsApart(s.upgrades, s.seenSockets) && u < |s.upgrades| && v < |s.upgrades| && v != u
    ensures s.upgrades[v].socket !in Ends(s.upgrades[u])
  {
    assert s.upgrades[v].socket in Ends(s.upgrades[v]);
    assert Ends(s.upgrades[if u < v then u else v]) !! Ends(s.upgrades[if u < v then v else u]);
  }

  lemma PeersAreOthers(s: State, u: nat, socket: nat)
    requires EndsApart(s.upgrades, s.seenSockets) && u < |s.upgrades| && socket !in Ends(s.upgrades[u])
    ensures Peers(s, socket) !! Ends(s.upgrades[u])
  {
    forall peer | peer in Peers(s, socket) ensures peer !in Ends(s.upgrades[u]) {
      var v :| 0 <= v < |s.upgrades| && s.upgrades[v].phase.Tunnel? && {socket, peer} <= Ends(s.upgrades[v]);
      assert u != v ==> Ends(s.upgrades[if u < v then u else v]) !! Ends(s.upgrades[if u < v then v else u]);
    }
  }

  ghost predicate NeverCut(s: State, events: seq<Event>, u: nat)
    decreases |events|
  {
    events == [] ||
    (&& Broker.WellFormed(s.broker) && Enabled(s, events[0]) && u < |s.upgrades| && !Cuts(s, events[0], u)
     && NeverCut(Step(s, events[0]), events[1..], u))
  }

  lemma {:induction false} TunnelStays(s: State, events: seq<Event>, t: State, u: nat)
    requires Invariant(s) && EndsApart(s.upgrades, s.seenSockets) && IsRun(s, events, t) && IsLiveTunnel(s, u)
    ensures IsLiveTunnel(t, u) <==> NeverCut(s, events, u)
    decreases |events|
  {
    if events == [] {
    } else {
      var next := Step(s, events[0]);
      StepKeepsInvariant(s, events[0]);
      StepKeepsApart(s, events[0]);
      StepKeepsTunnel(s, events[0], u);
      hide Step, Enabled, EndsApart, Broker.WellFormed, Invariant, Cuts;
      if IsLiveTunnel(next, u) {
        TunnelStays(next, events[1..], t, u);
      } else {
        DeadForever(next, events[1..], t, u);
      }
    }
  }

  /** In every run: a live tunnel goes on living exactly until an invalidation, or until one of its own
      ends is destroyed; nothing that happens to other upgrades, tickets or routes ends it. */
  lemma TunnelsLiveOn(before: seq<Event>, s: State, after: seq<Event>, t: State, u: nat)
    requires IsRun(INITIAL, before, s) && IsRun(s, after, t) && IsLiveTunnel(s, u)
    ensures IsLiveTunnel(t, u) <==> NeverCut(s, after, u)
  {
    RunKeepsInvariant(INITIAL, before, s);
    RunKeepsApart(INITIAL, before, s);
    TunnelStays(s, after, t, u);
  }

  /** When one end of a tunnel closes, it is no longer registered and the other end is destroyed. */
  lemma ClosingTakesOtherEnd(s: State, u: nat, socket: nat)
    requires Broker.WellFormed(s.broker) && Enabled(s, SocketClosed(socket))
    requires u < |s.upgrades| && s.upgrades[u].phase.Tunnel? && socket in Ends(s.upgrades[u])
    ensures socket !in Step(s, SocketClosed(socket)).sockets
    ensures Ends(s.upgrades[u]) <= Step(s, SocketClosed(socket)).destroyed
  {
    hide Broker.WellFormed, Broker.Step, Broker.Enabled;
    var it := s.upgrades[u];
    assert it.socket == socket ==> it.phase.remote in Peers(s, socket);
    assert it.phase.remote == socket ==> it.socket in Peers(s, socket);
  }

  lemma {:induction false} RunMore(s: State, events: seq<Event>, t: State, e: Event)
    requires IsRun(s, events, t) && Broker.WellFormed(t.broker) && Enabled(t, e)
    ensures IsRun(s, events + [e], Step(t, e))
    decreases |events|
  {
    hide Step, Enabled, Broker.WellFormed;
    if events == [] {
      assert [e][1..] == [];
    } else {
      RunMore(Step(s, events[0]), events[1..], t, e);
      assert (events + [e])[1..] == events[1..] + [e];
    }
  }

  ghost predicate IsStale(events: seq<Event>, s: State, id: nat) {
    IsRun(INITIAL, events, s) && id in s.routes && !SessionIsCurrent(s, s.routes[id].session)
  }

  /** One account is shown, and one environment connected. */
  lemma ConnectedRun() returns (events: seq<Event>, s: State)
    ensures IsRun(INITIAL, events, s) && s == INITIAL.(broker := s.broker)
    ensures var b := s.broker;
            && Broker.WellFormed(b) && b.generation == 0
            && b.sessions == [Broker.Session(0, "account", "environment", 0, false)]
            && b.dials == [Broker.Dial("account", "environment", 0, Broker.Pending)]
            && b.discovery == Some(Broker.Discovery("account", {"environment"}))
  {
    var discovered := Broker.DiscoverResolved(0, Some(Broker.Discovery("account", {"environment"})));
    events, s := [], INITIAL;
    RunMore(INITIAL, events, s, BrokerStep(Broker.Discover));
    events, s := events + [BrokerStep(Broker.Discover)], Step(s, BrokerStep(Broker.Discover));
    RunMore(INITIAL, events, s, BrokerStep(discovered));
    events, s := events + [BrokerStep(discovered)], Step(s, BrokerStep(discovered));
    hide IsRun;
    var connect := Broker.Connect("account", "environment");
    RunMore(INITIAL, events, s, BrokerStep(connect));
    events, s := events + [BrokerStep(connect)], Step(s, BrokerStep(connect));
  }

  /** ... its target is delivered, and then the account changes. */
  lemma DeliveredRun() returns (events: seq<Event>, s: State)
    ensures IsRun(INITIAL, events, s) && s == INITIAL.(broker := s.broker)
    ensures var b := s.broker;
            && Broker.WellFormed(b) && b.generation == 1
            && b.sessions == [Broker.Session(0, "account", "environment", 0, true)]
  {
    hide IsRun;
    events, s := ConnectedRun();
    RunMore(INITIAL, events, s, BrokerStep(Broker.DialResolved(0)));
    events, s := events + [BrokerStep(Broker.DialResolved(0))], Step(s, BrokerStep(Broker.DialResolved(0)));
    RunMore(INITIAL, events, s, BrokerStep(Broker.ConnectResumed(0)));
    events, s := events + [BrokerStep(Broker.ConnectResumed(0))], Step(s, BrokerStep(Broker.ConnectResumed(0)));
    RunMore(INITIAL, events, s, BrokerStep(Broker.Invalidate));
    events, s := events + [BrokerStep(Broker.Invalidate)], Step(s, BrokerStep(Broker.Invalidate));
  }

  /** Such routes happen: the account changes between the delivery of a target and its route. */
  lemma StaleRoutesHappen()
    ensures exists events, s, id :: IsStale(events, s, id)
  {
    hide IsRun;
    var events, s := DeliveredRun();
    var added := RouteAdded(7, "account", "environment", 0);
    RunMore(INITIAL, events, s, added);
    assert IsStale(events + [added], Step(s, added), 7);
  }

  // ---------- The transport object ----------

  method DropExpired(tickets: map<string, Ticket>, now: int) returns (kept: map<string, Ticket>)
    ensures kept == Unexpired(tickets, now)
  {
    kept := tickets;
    var remaining := tickets.Keys;
    while remaining != {}
      invariant remaining <= kept.Keys <= tickets.Keys
      invariant forall t :: t in kept ==> kept[t] == tickets[t]
      invariant forall t :: t in tickets && t !in remaining ==> (t in kept <==> tickets[t].expiresAt > now)
    {
      var ticket :| ticket in remaining;
      if kept[ticket].expiresAt <= now {
        kept := kept - {ticket};
      }
      remaining := remaining - {ticket};
    }
  }

  class Transport {
    ghost var broker: Broker.State
    var routes: map<nat, Route>
    var tickets: map<string, Ticket>
    var sockets: set<nat>
    var destroyed: set<nat>
    var upgrades: seq<Upgrade>
    ghost var routeIds: set<nat>
    ghost var issued: map<string, int>
    ghost var seenSockets: set<nat>
    ghost var admissions: seq<Admission>

    ghost function View(): State
      reads this
    {
      State(broker, routes, tickets, sockets, destroyed, upgrades, routeIds, issued, seenSockets, admissions)
    }

    constructor ()
      ensures View() == INITIAL && Invariant(View())
    {
      broker := Broker.INITIAL;
      routes, tickets, sockets, destroyed, upgrades := map[], map[], {}, {}, [];
      routeIds, issued, seenSockets, admissions := {}, map[], {}, [];
    }

    /** Forget every route and ticket, and destroy every registered socket. */
    method Invalidate()
      requires Invariant(View())
      modifies this
      ensures View() == Step(old(View()), Dispose) && Invariant(View())
    {
      assert Broker.WellFormed(broker);
      StepKeepsInvariant(View(), Dispose);
      hide Invariant, Broker.WellFormed;
      routes := map[];
      tickets := map[];
      var remaining := sockets;
      while remaining != {}
        invariant remaining <= sockets && destroyed == old(destroyed) + (sockets - remaining)
        invariant sockets == old(sockets)
        modifies this`destroyed
      {
        var socket :| socket in remaining;
        destroyed := destroyed + {socket};
        remaining := remaining - {socket};
      }
      sockets := {};
    }

    /** A step of the broker; when it invalidates, it calls the transport back. */
    method OnBrokerStep(ghost event: Broker.Event, invalidated: bool)
      requires Invariant(View()) && Broker.Enabled(broker, event)
      requires invalidated <==> Broker.Step(broker, event).generation != broker.generation
      modifies this
      ensures View() == Step(old(View()), BrokerStep(event)) && Invariant(View())
    {
      StepKeepsInvariant(View(), BrokerStep(event));
      if invalidated {
        Invalidate();
      }
      broker := Broker.Step(broker, event);
    }

    /** The lookup that connect and socketUrl start with: some route of the account and environment. */
    method FindRoute(account: string, environment: string) returns (found: Option<nat>)
      ensures found.Some? ==>
                found.value in routes && routes[found.value].account == account
                && routes[found.value].environment == environment
      ensures found.None? ==>
                forall id :: id in routes ==> routes[id].account != account || routes[id].environment != environment
    {
      var remaining := routes.Keys;
      while remaining != {}
        invariant remaining <= routes.Keys
        invariant forall id :: id in routes && id !in remaining ==>
                    routes[id].account != account || routes[id].environment != environment
      {
        var id :| id in remaining;
        if routes[id].account == account && routes[id].environment == environment {
          return Some(id);
        }
        remaining := remaining - {id};
      }
      return None;
    }

    /** connect, after the lookup found nothing and the broker delivered the target. */
    method AddRoute(id: nat, account: string, environment: string, session: nat)
      requires Invariant(View()) && Enabled(View(), RouteAdded(id, account, environment, session))
      modifies this
      ensures View() == Step(old(View()), RouteAdded(id, account, environment, session)) && Invariant(View())
    {
      assert Broker.WellFormed(broker);
      StepKeepsInvariant(View(), RouteAdded(id, account, environment, session));
      hide Invariant, Broker.WellFormed;
      routes := routes[id := Route(account, environment, session)];
      routeIds := routeIds + {id};
    }

    method IssueTicket(ticket: string, route: nat, now: int)
      requires Invariant(View()) && ticket !in issued && route in routes
      modifies this
      ensures View() == Step(old(View()), TicketIssued(ticket, route, now)) && Invariant(View())
    {
      assert Broker.WellFormed(broker);
      StepKeepsInvariant(View(), TicketIssued(ticket, route, now));
      hide Invariant, Broker.WellFormed;
      tickets := DropExpired(tickets, now);
      tickets := tickets[ticket := Ticket(route, now + TICKET_LIFETIME)];
      issued := issued[ticket := now];
    }

    /** An upgrade request arrives; true when it is let in and asks its target for a URL. */
    method OnUpgrade(ticket: string, socket: nat, now: int, trusted: bool) returns (admitted: bool)
      requires Invariant(View()) && socket !in seenSockets
      modifies this
      ensures View() == Step(old(View()), UpgradeRequested(ticket, socket, now, trusted)) && Invariant(View())
      ensures admitted == MayUpgrade(old(View()), ticket, now, trusted)
    {
      assert Broker.WellFormed(broker);
      StepKeepsInvariant(View(), UpgradeRequested(ticket, socket, now, trusted));
      assert Step(View(), UpgradeRequested(ticket, socket, now, trusted))
          == Requested(View(), ticket, socket, now, trusted);
      hide Invariant, Broker.WellFormed, Step, Enabled;
      var capability := if ticket in tickets then Some(tickets[ticket]) else None;
      tickets := tickets - {ticket};
      seenSockets := seenSockets + {socket};
      if capability.None? || capability.value.route !in routes || capability.value.expiresAt <= now || !trusted {
        destroyed := destroyed + {socket};
        return false;
      }
      sockets := sockets + {socket};
      var route := capability.value.route;
      upgrades := upgrades + [Upgrade(socket, route, routes[route].session, AwaitingUrl)];
      admissions := admissions + [Admission(ticket, now)];
      return true;
    }

    /** The authorized URL arrived: go on unless the socket or the route is gone. */
    method OnAuthorizedUrl(u: nat)
      requires Invariant(View()) && u < |upgrades| && upgrades[u].phase == UrlDelivered
      modifies this
      ensures View() == Step(old(View()), UrlHandled(u)) && Invariant(View())
    {
      assert Broker.WellFormed(broker);
      StepKeepsInvariant(View(), UrlHandled(u));
      hide Invariant, Broker.WellFormed;
      var socket := upgrades[u].socket;
      if socket in destroyed || upgrades[u].route !in routes {
        destroyed := destroyed + {socket};
        upgrades := upgrades[u := upgrades[u].(phase := Refused)];
        return;
      }
      upgrades := upgrades[u := upgrades[u].(phase := AwaitingUpstream)];
    }

    /** The upstream accepted: tie the two sockets together unless the socket or the route is gone. */
    method OnUpstream(u: nat, remote: nat) returns (tunnelled: bool)
      requires Invariant(View()) && u < |upgrades| && upgrades[u].phase == AwaitingUpstream
      requires remote !in seenSockets
      modifies this
      ensures View() == Step(old(View()), UpstreamUpgraded(u, remote)) && Invariant(View())
      ensures tunnelled == MayGoOn(old(View()), u)
    {
      assert Broker.WellFormed(broker);
      StepKeepsInvariant(View(), UpstreamUpgraded(u, remote));
      assert Step(View(), UpstreamUpgraded(u, remote)) == Answered(View(), u, remote);
      hide Invariant, Broker.WellFormed, Step, Enabled;
      var socket := upgrades[u].socket;
      seenSockets := seenSockets + {remote};
      if socket in destroyed || upgrades[u].route !in routes {
        destroyed := destroyed + {remote};
        destroyed := destroyed + {socket};
        upgrades := upgrades[u := upgrades[u].(phase := Refused)];
        return false;
      }
      sockets := sockets + {remote};
      upgrades := upgrades[u := upgrades[u].(phase := Tunnel(remote))];
      return true;
    }
  }
}
