/** The account broker of apps/desktop/src/connectAccountBroker.ts, split at its awaits. Promises are
    numbers into the sequences that record what was asked of the driver, and when. */
module ConnectAccountBroker {
  import opened Wrappers

  datatype Discovery = Discovery(account: string, environments: set<string>)

  datatype Progress = Pending | Resolved | Rejected

  /** A call of driver.connect, and the generation it was made in. */
  datatype Dial = Dial(account: string, environment: string, generation: nat, progress: Progress)

  /** A call of connect: what it captured, and the driver call it waits for or was handed. */
  datatype Session = Session(epoch: nat, account: string, environment: string, dial: nat, delivered: bool)

  /** A target, URL or response handed to the caller, and what the broker showed at that moment. */
  datatype Delivery = Delivery(session: nat, generation: nat, account: string)

  datatype State = State(
    generation: nat,
    discovery: Option<Discovery>,
    pendingDiscovery: Option<nat>,
    targets: map<string, nat>,
    discoveries: seq<nat>,       // the epoch of each driver.discover call
    dials: seq<Dial>,
    sessions: seq<Session>,
    requests: seq<nat>,          // the session of each nextSocketUrl or request call
    deliveries: seq<Delivery>)

  const INITIAL := State(0, None, None, map[], [], [], [], [], [])

  datatype Event =
    | Invalidate                                            // login (twice) and logout
    | Discover
    | DiscoverResolved(id: nat, next: Option<Discovery>)
    | DiscoverFinally(id: nat)
    | Connect(account: string, environment: string)
    | DialResolved(dial: nat)
    | DialRejected(dial: nat)
    | ConnectResumed(session: nat)
    | RequestBegins(session: nat)
    | RequestResumed(request: nat)

  /** The condition under which assertCurrent does not throw. */
  predicate IsCurrent(s: State, epoch: nat, account: string) {
    epoch == s.generation && s.discovery.Some? && s.discovery.value.account == account
  }

  function Invalidated(s: State): State {
    s.(generation := s.generation + 1, pendingDiscovery := None, targets := map[], discovery := None)
  }

  /** Whether a new discovery shows another account, or lacks an environment shown before. */
  predicate Withdraws(old_: Discovery, next: Option<Discovery>) {
    next.None? || next.value.account != old_.account || !(old_.environments <= next.value.environments)
  }

  function Deliver(s: State, session: nat): State
    requires session < |s.sessions|
  {
    var it := s.sessions[session];
    if IsCurrent(s, it.epoch, it.account)
    then s.(deliveries := s.deliveries + [Delivery(session, s.generation, s.discovery.value.account)])
    else s
  }

  /** The numbers name recorded promises. */
  predicate WellFormed(s: State) {
    && (forall i :: 0 <= i < |s.sessions| ==> s.sessions[i].dial < |s.dials|)
    && (forall r :: 0 <= r < |s.requests| ==> s.requests[r] < |s.sessions|)
    && (forall k :: 0 <= k < |s.deliveries| ==> s.deliveries[k].session < |s.sessions|)
  }

  /** What an event can be: promises settle once they exist, and only delivered sessions are used. */
  predicate Enabled(s: State, e: Event)
    requires WellFormed(s)
  {
    match e
    case DiscoverResolved(id, _) => id < |s.discoveries|
    case DiscoverFinally(id) => id < |s.discoveries|
    case DialResolved(d) => d < |s.dials| && s.dials[d].progress == Pending
    case DialRejected(d) => d < |s.dials| && s.dials[d].progress == Pending
    case ConnectResumed(i) => i < |s.sessions| && s.dials[s.sessions[i].dial].progress == Resolved
    case RequestBegins(i) => i < |s.sessions| && s.sessions[i].delivered
    case RequestResumed(r) => r < |s.requests|
    case _ => true
  }

  function Settle(s: State, d: nat, progress: Progress): State
    requires d < |s.dials|
  {
    s.(dials := s.dials[d := s.dials[d].(progress := progress)])
  }

  function Step(s: State, e: Event): State
    requires WellFormed(s) && Enabled(s, e)
  {
    match e
    case Invalidate => Invalidated(s)
    case Discover =>
      if s.pendingDiscovery.Some? then s
      else s.(discoveries := s.discoveries + [s.generation], pendingDiscovery := Some(|s.discoveries|))
    case DiscoverResolved(id, next) =>
      if s.discoveries[id] != s.generation then s
      else
        var t := if s.discovery.Some? && Withdraws(s.discovery.value, next) then Invalidated(s) else s;
        t.(discovery := next)
    case DiscoverFinally(id) =>
      if s.pendingDiscovery == Some(id) then s.(pendingDiscovery := None) else s
    case Connect(account, environment) =>
      if !IsCurrent(s, s.generation, account) then s
      else
        var t := if environment in s.targets then s
                 else s.(dials := s.dials + [Dial(account, environment, s.generation, Pending)],
                         targets := s.targets[environment := |s.dials|]);
        t.(sessions := s.sessions + [Session(s.generation, account, environment, t.targets[environment], false)])
    case DialResolved(d) => Settle(s, d, Resolved)
    case DialRejected(d) =>
      var environment := s.dials[d].environment;
      var t := Settle(s, d, Rejected);
      if environment in s.targets && s.targets[environment] == d
      then t.(targets := s.targets - {environment}) else t
    case ConnectResumed(i) =>
      var t := Deliver(s, i);
      if IsCurrent(s, s.sessions[i].epoch, s.sessions[i].account)
      then t.(sessions := s.sessions[i := s.sessions[i].(delivered := true)]) else t
    case RequestBegins(i) =>
      if IsCurrent(s, s.sessions[i].epoch, s.sessions[i].account)
      then s.(requests := s.requests + [i]) else s
    case RequestResumed(r) => Deliver(s, s.requests[r])
  }

  // ---------- What every run keeps ----------

  /** The driver call behind session `i` was made in the session's generation, for its account and
      environment. */
  predicate SessionMatchesDial(s: State, i: nat)
    requires WellFormed(s) && i < |s.sessions|
  {
    var it := s.sessions[i];
    var dial := s.dials[it.dial];
    && dial.generation == it.epoch <= s.generation
    && dial.account == it.account && dial.environment == it.environment
  }

  /** A cached target was started in this generation, for the account shown now and for its key. */
  predicate TargetIsCurrent(s: State, environment: string)
    requires environment in s.targets
  {
    var d := s.targets[environment];
    && d < |s.dials| && s.dials[d].environment == environment
    && IsCurrent(s, s.dials[d].generation, s.dials[d].account)
  }

  /** A delivery happened in the generation its connect started in, under its account. */
  predicate DeliveryIsHonest(s: State, k: nat)
    requires WellFormed(s) && k < |s.deliveries|
  {
    var it := s.deliveries[k];
    var dial := s.dials[s.sessions[it.session].dial];
    it.generation == dial.generation && it.account == dial.account
  }

  predicate Invariant(s: State) {
    && WellFormed(s)
    && (s.pendingDiscovery.Some? ==>
        s.pendingDiscovery.value < |s.discoveries| && s.discoveries[s.pendingDiscovery.value] == s.generation)
    && (forall i :: 0 <= i < |s.sessions| ==> SessionMatchesDial(s, i))
    && (forall environment :: environment in s.targets ==> TargetIsCurrent(s, environment))
    && (forall k :: 0 <= k < |s.deliveries| ==> DeliveryIsHonest(s, k))
  }

  /** Within a generation the account stays, and environments are only added; a generation never
      comes back. */
  predicate Shows(s: State, t: State) {
    && s.generation <= t.generation
    && (s.generation == t.generation && s.discovery.Some? ==>
        && t.discovery.Some? && t.discovery.value.account == s.discovery.value.account
        && s.discovery.value.environments <= t.discovery.value.environments)
  }

  lemma StepShows(s: State, e: Event)
    requires WellFormed(s) && Enabled(s, e)
    ensures Shows(s, Step(s, e))
  {
  }

  lemma DeliverKeepsInvariant(s: State, i: nat)
    requires Invariant(s) && i < |s.sessions|
    ensures Invariant(Deliver(s, i))
  {
    var t := Deliver(s, i);
    assert SessionMatchesDial(s, i);
    assert forall j :: 0 <= j < |s.sessions| ==> SessionMatchesDial(s, j) ==> SessionMatchesDial(t, j);
    assert forall env :: env in s.targets ==> TargetIsCurrent(s, env) ==> TargetIsCurrent(t, env);
    forall k | 0 <= k < |t.deliveries| ensures DeliveryIsHonest(t, k) {
      assert k < |s.deliveries| ==> DeliveryIsHonest(s, k);
    }
  }

  lemma SettleKeepsInvariant(s: State, d: nat, progress: Progress)
    requires Invariant(s) && d < |s.dials|
    ensures Invariant(Settle(s, d, progress))
  {
    var t := Settle(s, d, progress);
    assert forall j :: 0 <= j < |s.sessions| ==> SessionMatchesDial(s, j) ==> SessionMatchesDial(t, j);
    assert forall env :: env in s.targets ==> TargetIsCurrent(s, env) ==> TargetIsCurrent(t, env);
    assert forall k :: 0 <= k < |s.deliveries| ==> DeliveryIsHonest(s, k) ==> DeliveryIsHonest(t, k);
  }

  lemma ConnectKeepsInvariant(s: State, account: string, environment: string)
    requires Invariant(s)
    ensures Invariant(Step(s, Connect(account, environment)))
  {
    var t := Step(s, Connect(account, environment));
    assert forall d :: 0 <= d < |s.dials| ==> t.dials[d] == s.dials[d];
    if IsCurrent(s, s.generation, account) {
      assert environment in s.targets ==> TargetIsCurrent(s, environment);
      forall i | 0 <= i < |t.sessions| ensures SessionMatchesDial(t, i) {
        assert i < |s.sessions| ==> SessionMatchesDial(s, i);
      }
      forall env | env in t.targets ensures TargetIsCurrent(t, env) {
        assert env in s.targets ==> TargetIsCurrent(s, env);
      }
      assert forall k :: 0 <= k < |s.deliveries| ==> DeliveryIsHonest(s, k) ==> DeliveryIsHonest(t, k);
    }
  }

  /** Steps that touch neither dials, sessions nor deliveries, and keep what is cached current. */
  lemma OtherStepKeepsInvariant(s: State, t: State)
    requires Invariant(s) && WellFormed(t) && Shows(s, t)
    requires t.dials == s.dials && t.sessions == s.sessions && t.deliveries == s.deliveries
    requires if t.generation == s.generation
             then forall env :: env in t.targets ==> env in s.targets && t.targets[env] == s.targets[env]
             else t.targets == map[]
    requires t.pendingDiscovery.Some? ==>
               t.pendingDiscovery.value < |t.discoveries| && t.discoveries[t.pendingDiscovery.value] == t.generation
    ensures Invariant(t)
  {
    assert forall j :: 0 <= j < |s.sessions| ==> SessionMatchesDial(s, j) ==> SessionMatchesDial(t, j);
    assert forall env :: env in t.targets ==> TargetIsCurrent(s, env) ==> TargetIsCurrent(t, env);
    assert forall k :: 0 <= k < |s.deliveries| ==> DeliveryIsHonest(s, k) ==> DeliveryIsHonest(t, k);
  }

  lemma StepKeepsInvariant(s: State, e: Event)
    requires Invariant(s) && Enabled(s, e)
    ensures Invariant(Step(s, e))
  {
    match e {
      case Connect(account, environment) => ConnectKeepsInvariant(s, account, environment);
      case DialResolved(d) => SettleKeepsInvariant(s, d, Resolved);
      case DialRejected(d) =>
        SettleKeepsInvariant(s, d, Rejected);
        OtherStepKeepsInvariant(Settle(s, d, Rejected), Step(s, e));
      case ConnectResumed(i) =>
        DeliverKeepsInvariant(s, i);
        MarkKeepsInvariant(Deliver(s, i), i);
      case RequestResumed(r) => DeliverKeepsInvariant(s, s.requests[r]);
      case Invalidate => DiscoveryStepKeepsInvariant(s, e);
      case Discover => DiscoveryStepKeepsInvariant(s, e);
      case DiscoverResolved(_, _) => DiscoveryStepKeepsInvariant(s, e);
      case DiscoverFinally(_) => DiscoveryStepKeepsInvariant(s, e);
      case RequestBegins(_) => DiscoveryStepKeepsInvariant(s, e);
    }
  }

  lemma DiscoveryStepKeepsInvariant(s: State, e: Event)
    requires Invariant(s) && Enabled(s, e)
    requires e.Invalidate? || e.Discover? || e.DiscoverResolved? || e.DiscoverFinally? || e.RequestBegins?
    ensures Invariant(Step(s, e))
  {
    StepShows(s, e);
    OtherStepKeepsInvariant(s, Step(s, e));
  }

  lemma MarkKeepsInvariant(s: State, i: nat)
    requires Invariant(s) && i < |s.sessions|
    ensures Invariant(s.(sessions := s.sessions[i := s.sessions[i].(delivered := true)]))
  {
    var t := s.(sessions := s.sessions[i := s.sessions[i].(delivered := true)]);
    forall j | 0 <= j < |t.sessions| ensures SessionMatchesDial(t, j) {
      assert SessionMatchesDial(s, j);
    }
    assert forall env :: env in s.targets ==> TargetIsCurrent(s, env) ==> TargetIsCurrent(t, env);
    assert forall k :: 0 <= k < |s.deliveries| ==> DeliveryIsHonest(s, k) ==> DeliveryIsHonest(t, k);
  }

  // ---------- Runs ----------

  /** `t` follows from `s` by `events`, each of which can happen when it does. */
  ghost predicate IsRun(s: State, events: seq<Event>, t: State)
    decreases |events|
  {
    if events == [] then t == s
    else WellFormed(s) && Enabled(s, events[0]) && IsRun(Step(s, events[0]), events[1..], t)
  }

  lemma {:induction false} RunKeepsInvariant(s: State, events: seq<Event>, t: State)
    requires Invariant(s) && IsRun(s, events, t)
    ensures Invariant(t)
    decreases |events|
  {
    if events == [] {
    } else {
      StepKeepsInvariant(s, events[0]);
      RunKeepsInvariant(Step(s, events[0]), events[1..], t);
    }
  }

  /** Between any two moments of a run in the same generation, the account shown is the same and no
      environment is taken away. */
  lemma {:induction false} EachGenerationShowsOneAccount(s: State, events: seq<Event>, t: State)
    requires IsRun(s, events, t)
    ensures Shows(s, t)
    decreases |events|
  {
    if events == [] {
    } else {
      StepShows(s, events[0]);
      EachGenerationShowsOneAccount(Step(s, events[0]), events[1..], t);
    }
  }

  /** In every run: a target cached under an environment id was started in the current generation
      for the account shown now, so connect never hands out another account's target. */
  lemma CachedTargetsAreCurrent(events: seq<Event>, s: State, account: string, environment: string)
    requires IsRun(INITIAL, events, s) && IsCurrent(s, s.generation, account)
    ensures WellFormed(s)
    ensures environment in s.targets ==>
              && s.targets[environment] < |s.dials|
              && var dial := s.dials[s.targets[environment]];
                 dial.account == account && dial.environment == environment && dial.generation == s.generation
    ensures var t := Step(s, Connect(account, environment));
            && |t.sessions| == |s.sessions| + 1
            && var dial := t.dials[t.sessions[|s.sessions|].dial];
               dial.account == account && dial.environment == environment && dial.generation == s.generation
  {
    RunKeepsInvariant(INITIAL, events, s);
    if environment in s.targets {
      assert TargetIsCurrent(s, environment);
    }
  }

  /** In every run: whatever a session was handed, it was handed in the generation its driver
      connection was started in, while the broker showed the account of that connection. */
  lemma DeliveriesStayInTheirGeneration(events: seq<Event>, s: State, k: nat)
    requires IsRun(INITIAL, events, s) && k < |s.deliveries|
    ensures WellFormed(s)
    ensures var dial := s.dials[s.sessions[s.deliveries[k].session].dial];
            s.deliveries[k].generation == dial.generation && s.deliveries[k].account == dial.account
  {
    RunKeepsInvariant(INITIAL, events, s);
    assert DeliveryIsHonest(s, k);
  }

  /** A session of the current generation is for the account shown now. */
  predicate SessionIsShown(s: State, i: nat)
    requires i < |s.sessions|
  {
    var it := s.sessions[i];
    it.epoch <= s.generation && (it.epoch == s.generation ==> IsCurrent(s, it.epoch, it.account))
  }

  predicate SessionsAreShown(s: State) {
    forall i :: 0 <= i < |s.sessions| ==> SessionIsShown(s, i)
  }

  lemma StepKeepsShown(s: State, e: Event)
    requires WellFormed(s) && Enabled(s, e) && SessionsAreShown(s)
    ensures SessionsAreShown(Step(s, e))
  {
    StepShows(s, e);
    var t := Step(s, e);
    forall i | 0 <= i < |t.sessions| ensures SessionIsShown(t, i) {
      assert i < |s.sessions| ==> SessionIsShown(s, i);
    }
  }

  /** The generation moves on, by one, exactly at an invalidation and at an answer of this generation
      that takes away the account shown or one of its environments. */
  lemma GenerationMovesExactly(s: State, e: Event)
    requires WellFormed(s) && Enabled(s, e)
    ensures Step(s, e).generation == s.generation || Step(s, e).generation == s.generation + 1
    ensures Step(s, e).generation != s.generation <==>
              || e == Invalidate
              || (&& e.DiscoverResolved? && s.discoveries[e.id] == s.generation && s.discovery.Some?
                  && !(&& e.next.Some? && e.next.value.account == s.discovery.value.account
                       && s.discovery.value.environments <= e.next.value.environments))
  {
  }

  /** No event of the run moves the generation on. */
  ghost predicate NeverInvalidates(s: State, events: seq<Event>)
    decreases |events|
  {
    events == [] ||
    (&& WellFormed(s) && Enabled(s, events[0]) && Step(s, events[0]).generation == s.generation
     && NeverInvalidates(Step(s, events[0]), events[1..]))
  }

  lemma StepKeepsEpochs(s: State, e: Event)
    requires WellFormed(s) && Enabled(s, e)
    ensures |s.discoveries| <= |Step(s, e).discoveries| && |s.sessions| <= |Step(s, e).sessions|
    ensures forall i :: 0 <= i < |s.discoveries| ==> Step(s, e).discoveries[i] == s.discoveries[i]
    ensures forall i :: 0 <= i < |s.sessions| ==> Step(s, e).sessions[i].epoch == s.sessions[i].epoch
  {
  }

  /** What was started in the present generation belongs to it exactly as long as nothing invalidates:
      epochs tell whether an invalidation came between. */
  lemma {:induction false} EpochsTellInvalidation(s: State, events: seq<Event>, t: State)
    requires IsRun(s, events, t)
    ensures s.generation == t.generation <==> NeverInvalidates(s, events)
    ensures |s.discoveries| <= |t.discoveries| && |s.sessions| <= |t.sessions|
    ensures forall i :: 0 <= i < |s.discoveries| ==> t.discoveries[i] == s.discoveries[i]
    ensures forall i :: 0 <= i < |s.sessions| ==> t.sessions[i].epoch == s.sessions[i].epoch
    decreases |events|
  {
    if events == [] {
    } else {
      StepKeepsEpochs(s, events[0]);
      GenerationMovesExactly(s, events[0]);
      EachGenerationShowsOneAccount(Step(s, events[0]), events[1..], t);
      hide Step, WellFormed, Enabled;
      EpochsTellInvalidation(Step(s, events[0]), events[1..], t);
    }
  }

  // ---------- What is shown, cached and delivered, from the events alone ----------

  /** The answer shown once an event has happened: an invalidation takes it away, an answer of the
      present generation replaces it. */
  function AnswerAfter(s: State, e: Event, shown: Option<Discovery>): Option<Discovery>
    requires WellFormed(s) && Enabled(s, e)
  {
    match e
    case Invalidate => None
    case DiscoverResolved(id, next) => if s.discoveries[id] == s.generation then next else shown
    case _ => shown
  }

  /** The last answer that a run accepts after its last invalidation, or nothing. */
  ghost function LastAnswer(s: State, events: seq<Event>, shown: Option<Discovery>): Option<Discovery>
    decreases |events|
  {
    if events == [] || !WellFormed(s) || !Enabled(s, events[0]) then shown
    else LastAnswer(Step(s, events[0]), events[1..], AnswerAfter(s, events[0], shown))
  }

  /** In every run: what is shown is the last answer accepted since the last invalidation. */
  lemma {:induction false} ShownIsLastAnswer(s: State, events: seq<Event>, t: State)
    requires IsRun(s, events, t)
    ensures t.discovery == LastAnswer(s, events, s.discovery)
    decreases |events|
  {
    if events == [] {
    } else {
      ShownIsLastAnswer(Step(s, events[0]), events[1..], t);
    }
  }

  /** The discoveries whose promises have run their `finally`. */
  ghost function Finished(events: seq<Event>): set<nat> {
    set e | e in events && e.DiscoverFinally? :: e.id
  }

  ghost predicate IsUnderWay(s: State, id: nat, finished: set<nat>) {
    id + 1 == |s.discoveries| && s.discoveries[id] == s.generation && id !in finished
  }

  ghost predicate JoinsUnderWay(s: State, finished: set<nat>) {
    && (forall id :: id in finished ==> id < |s.discoveries|)
    && (forall i :: 0 <= i < |s.discoveries| ==> s.discoveries[i] <= s.generation)
    && (forall id: nat :: s.pendingDiscovery == Some(id) <==> IsUnderWay(s, id, finished))
  }

  lemma StepJoins(s: State, e: Event, finished: set<nat>)
    requires WellFormed(s) && Enabled(s, e) && JoinsUnderWay(s, finished)
    ensures JoinsUnderWay(Step(s, e), finished + Finished([e]))
  {
    var t, more := Step(s, e), finished + Finished([e]);
    assert e.DiscoverFinally? ==> e in [e] && e.id in more;
    forall id: nat ensures t.pendingDiscovery == Some(id) <==> IsUnderWay(t, id, more) {
      assert s.pendingDiscovery == Some(id) <==> IsUnderWay(s, id, finished);
    }
  }

  lemma {:induction false} RunJoins(s: State, events: seq<Event>, t: State, finished: set<nat>)
    requires IsRun(s, events, t) && JoinsUnderWay(s, finished)
    ensures JoinsUnderWay(t, finished + Finished(events))
    decreases |events|
  {
    hide Step, WellFormed, Enabled, JoinsUnderWay;
    if events == [] {
      assert finished + Finished([]) == finished;
    } else {
      var e, rest := events[0], events[1..];
      StepJoins(s, e, finished);
      RunJoins(Step(s, e), rest, t, finished + Finished([e]));
      assert events == [e] + rest;
      assert finished + Finished([e]) + Finished(rest) == finished + Finished(events);
    }
  }

  /** In every run: a call of discover joins the latest driver call exactly while that was made since
      the last invalidation and has not run its `finally`; so there is never more than one, and a
      finished one is never joined. */
  lemma PendingExactly(events: seq<Event>, s: State, id: nat)
    requires IsRun(INITIAL, events, s)
    ensures s.pendingDiscovery == Some(id) <==>
              && id + 1 == |s.discoveries| && s.discoveries[id] == s.generation
              && DiscoverFinally(id) !in events
  {
    RunJoins(INITIAL, events, s, {});
    hide IsRun;
    assert IsUnderWay(s, id, {} + Finished(events)) <==> s.pendingDiscovery == Some(id);
    assert DiscoverFinally(id) in events <==> id in Finished(events) by {
      assert forall e :: e in events && e.DiscoverFinally? && e.id == id ==> e == DiscoverFinally(id);
    }
  }

  /** Driver call `d` was made in this generation for this environment, and has not failed. */
  predicate IsOpen(s: State, d: nat, environment: string) {
    && d < |s.dials| && s.dials[d].generation == s.generation
    && s.dials[d].environment == environment && s.dials[d].progress != Rejected
  }

  ghost predicate CachesOpen(s: State) {
    && (forall d :: 0 <= d < |s.dials| ==> s.dials[d].generation <= s.generation)
    && (forall d: nat, environment :: IsOpen(s, d, environment) ==>
          environment in s.targets && s.targets[environment] == d)
    && (forall environment :: environment in s.targets ==> IsOpen(s, s.targets[environment], environment))
  }

  lemma StepCachesOpen(s: State, e: Event)
    requires WellFormed(s) && Enabled(s, e) && CachesOpen(s)
    ensures CachesOpen(Step(s, e))
  {
    hide CachesOpen, IsCurrent;
    if e.Connect? && IsCurrent(s, s.generation, e.account) {
      ConnectCachesOpen(s, e);
    } else if e.DialResolved? || e.DialRejected? {
      SettlingCachesOpen(s, e);
    } else {
      SameDialsCachesOpen(s, Step(s, e));
    }
  }

  /** Steps that make no driver call and settle none. */
  lemma SameDialsCachesOpen(s: State, t: State)
    requires CachesOpen(s) && t.dials == s.dials
    requires if t.generation == s.generation then t.targets == s.targets
             else t.generation > s.generation && t.targets == map[]
    ensures CachesOpen(t)
  {
    assert t.generation == s.generation ==>
      forall d: nat, environment :: IsOpen(t, d, environment) <==> IsOpen(s, d, environment);
  }

  lemma SettlingCachesOpen(s: State, e: Event)
    requires WellFormed(s) && Enabled(s, e) && CachesOpen(s) && (e.DialResolved? || e.DialRejected?)
    ensures CachesOpen(Step(s, e))
  {
    hide WellFormed;
    var t := Step(s, e);
    forall d: nat, environment | IsOpen(t, d, environment)
      ensures environment in t.targets && t.targets[environment] == d
    {
      assert IsOpen(s, d, environment);
    }
    forall environment | environment in t.targets
      ensures IsOpen(t, t.targets[environment], environment)
    {
      assert IsOpen(s, s.targets[environment], environment);
    }
  }

  lemma ConnectCachesOpen(s: State, e: Event)
    requires WellFormed(s) && Enabled(s, e) && CachesOpen(s)
    requires e.Connect? && IsCurrent(s, s.generation, e.account)
    ensures CachesOpen(Step(s, e))
  {
    var t := Step(s, e);
    hide WellFormed, Step, Enabled;
    assert t.generation == s.generation;
    if e.environment in s.targets {
      assert t.dials == s.dials && t.targets == s.targets by { ConnectDials(s, e); }
      assert forall d: nat, environment :: IsOpen(t, d, environment) <==> IsOpen(s, d, environment);
    } else {
      assert t.dials == s.dials + [Dial(e.account, e.environment, s.generation, Pending)]
          && t.targets == s.targets[e.environment := |s.dials|] by { ConnectDials(s, e); }
      assert forall d: nat, environment :: d < |s.dials| ==> (IsOpen(t, d, environment) <==> IsOpen(s, d, environment));
    }
  }

  lemma ConnectDials(s: State, e: Event)
    requires WellFormed(s) && e.Connect? && IsCurrent(s, s.generation, e.account)
    ensures var t := Step(s, e);
            if e.environment in s.targets then t.dials == s.dials && t.targets == s.targets
            else t.dials == s.dials + [Dial(e.account, e.environment, s.generation, Pending)]
                 && t.targets == s.targets[e.environment := |s.dials|]
  {
  }

  lemma {:induction false} RunCachesOpen(s: State, events: seq<Event>, t: State)
    requires IsRun(s, events, t) && CachesOpen(s)
    ensures CachesOpen(t)
    decreases |events|
  {
    hide Step, WellFormed, Enabled, CachesOpen;
    if events == [] {
    } else {
      StepCachesOpen(s, events[0]);
      RunCachesOpen(Step(s, events[0]), events[1..], t);
    }
  }

  /** In every run: the cached target of an environment is the one driver call of this generation for
      it that has not failed, so connects share it, and after a failure the next one dials again. */
  lemma CachedTargetIsTheOpenOne(events: seq<Event>, s: State, d: nat, environment: string)
    requires IsRun(INITIAL, events, s)
    ensures environment in s.targets && s.targets[environment] == d <==> IsOpen(s, d, environment)
  {
    RunCachesOpen(INITIAL, events, s);
  }

  lemma StepSettles(s: State, e: Event, d: nat)
    requires WellFormed(s) && Enabled(s, e)
    ensures |s.dials| <= |Step(s, e).dials|
    ensures if d < |s.dials| && s.dials[d].progress != Pending
            then Step(s, e).dials[d].progress == s.dials[d].progress && e != DialResolved(d) && e != DialRejected(d)
            else d < |Step(s, e).dials| ==>
                   Step(s, e).dials[d].progress ==
                   if e == DialResolved(d) then Resolved else if e == DialRejected(d) then Rejected else Pending
    ensures d >= |Step(s, e).dials| ==> e != DialResolved(d) && e != DialRejected(d)
  {
  }

  lemma {:induction false} SettledStays(s: State, events: seq<Event>, t: State, d: nat)
    requires IsRun(s, events, t) && d < |s.dials| && s.dials[d].progress != Pending
    ensures d < |t.dials| && t.dials[d].progress == s.dials[d].progress
    ensures DialResolved(d) !in events && DialRejected(d) !in events
    decreases |events|
  {
    hide Step, WellFormed, Enabled;
    if events == [] {
    } else {
      assert events == [events[0]] + events[1..];
      StepSettles(s, events[0], d);
      SettledStays(Step(s, events[0]), events[1..], t, d);
    }
  }

  /** In every run: what a driver call came to is what was answered. */
  lemma {:induction false} DialsEndAsAnswered(s: State, events: seq<Event>, t: State, d: nat)
    requires IsRun(s, events, t) && d < |t.dials|
    requires d < |s.dials| ==> s.dials[d].progress == Pending
    ensures t.dials[d].progress == Resolved <==> DialResolved(d) in events
    ensures t.dials[d].progress == Rejected <==> DialRejected(d) in events
    decreases |events|
  {
    hide Step, WellFormed, Enabled;
    if events == [] {
    } else {
      var e, rest := events[0], events[1..];
      assert events == [e] + rest;
      StepSettles(s, e, d);
      if e == DialResolved(d) || e == DialRejected(d) {
        SettledStays(Step(s, e), rest, t, d);
      } else {
        DialsEndAsAnswered(Step(s, e), rest, t, d);
      }
    }
  }

  lemma {:induction false} RunKeepsShown(s: State, events: seq<Event>, t: State)
    requires SessionsAreShown(s) && IsRun(s, events, t)
    ensures SessionsAreShown(t)
    decreases |events|
  {
    hide Step, WellFormed, Enabled, SessionsAreShown;
    if events == [] {
    } else {
      StepKeepsShown(s, events[0]);
      RunKeepsShown(Step(s, events[0]), events[1..], t);
    }
  }

  /** In every run: a connect or request of session `i` that comes back is handed its answer exactly
      when no invalidation came since the session began, and otherwise nothing changes. */
  lemma DeliversExactly(events: seq<Event>, s: State, e: Event, i: nat)
    requires IsRun(INITIAL, events, s) && WellFormed(s) && Enabled(s, e) && i < |s.sessions|
    requires e == ConnectResumed(i) || (e.RequestResumed? && s.requests[e.request] == i)
    ensures if s.sessions[i].epoch == s.generation
            then Step(s, e) == s.(deliveries := s.deliveries + [Delivery(i, s.generation, s.sessions[i].account)],
                                  sessions := if e.RequestResumed? then s.sessions
                                              else s.sessions[i := s.sessions[i].(delivered := true)])
            else Step(s, e) == s
  {
    RunKeepsShown(INITIAL, events, s);
    assert SessionIsShown(s, i);
  }

  /** ... and a request is passed on to the driver exactly then. */
  lemma RequestsExactly(events: seq<Event>, s: State, i: nat)
    requires IsRun(INITIAL, events, s) && WellFormed(s) && Enabled(s, RequestBegins(i))
    ensures Step(s, RequestBegins(i)) ==
            if s.sessions[i].epoch == s.generation then s.(requests := s.requests + [i]) else s
  {
    RunKeepsShown(INITIAL, events, s);
    assert SessionIsShown(s, i);
  }

  // ---------- The broker object ----------

  class Broker {
    var generation: nat
    var discovery: Option<Discovery>
    var pendingDiscovery: Option<nat>
    var targets: map<string, nat>
    var discoveries: seq<nat>
    var dials: seq<Dial>
    var sessions: seq<Session>
    var requests: seq<nat>
    ghost var deliveries: seq<Delivery>

    ghost function View(): State
      reads this
    {
      State(generation, discovery, pendingDiscovery, targets, discoveries, dials, sessions, requests, deliveries)
    }

    constructor ()
      ensures View() == INITIAL && Invariant(View())
    {
      generation, discovery, pendingDiscovery, targets := 0, None, None, map[];
      discoveries, dials, sessions, requests, deliveries := [], [], [], [], [];
    }

    predicate AssertCurrent(epoch: nat, account: string)
      reads this
    {
      epoch == generation && discovery.Some? && discovery.value.account == account
    }

    method Invalidate()
      requires Invariant(View())
      modifies this
      ensures View() == Step(old(View()), Event.Invalidate) && Invariant(View())
    {
      StepKeepsInvariant(View(), Event.Invalidate);
      generation := generation + 1;
      pendingDiscovery := None;
      targets := map[];
      discovery := None;
    }

    /** Start a discovery, or join the one under way. */
    method Discover() returns (promise: nat)
      requires Invariant(View())
      modifies this
      ensures View() == Step(old(View()), Event.Discover) && Invariant(View())
      ensures pendingDiscovery == Some(promise)
      ensures discoveries == old(discoveries) + if old(pendingDiscovery).None? then [generation] else []
    {
      StepKeepsInvariant(View(), Event.Discover);
      if pendingDiscovery.Some? {
        return pendingDiscovery.value;
      }
      promise := |discoveries|;
      discoveries := discoveries + [generation];
      pendingDiscovery := Some(promise);
    }

    /** The driver answered discovery `id`. */
    method OnDiscovered(id: nat, next: Option<Discovery>) returns (shown: Option<Discovery>)
      requires Invariant(View()) && id < |discoveries|
      modifies this
      ensures View() == Step(old(View()), DiscoverResolved(id, next)) && Invariant(View())
      ensures discovery == if old(discoveries[id] == generation) then next else old(discovery)
      ensures shown == discovery
    {
      StepKeepsInvariant(View(), DiscoverResolved(id, next));
      if discoveries[id] != generation {
        return discovery;
      }
      if discovery.Some? && Withdraws(discovery.value, next) {
        Invalidate();
      }
      discovery := next;
      return next;
    }

    method OnDiscoverySettled(id: nat)
      requires Invariant(View()) && id < |discoveries|
      modifies this
      ensures View() == Step(old(View()), DiscoverFinally(id)) && Invariant(View())
    {
      StepKeepsInvariant(View(), DiscoverFinally(id));
      if pendingDiscovery == Some(id) {
        pendingDiscovery := None;
      }
    }

    /** connect up to its await; None where it throws at once. */
    method Connect(account: string, environment: string) returns (session: Option<nat>)
      requires Invariant(View())
      modifies this
      ensures View() == Step(old(View()), Event.Connect(account, environment)) && Invariant(View())
      ensures session == if old(AssertCurrent(generation, account)) then Some(old(|sessions|)) else None
      ensures session.Some? ==>
                && environment in targets
                && sessions == old(sessions) + [Session(generation, account, environment, targets[environment], false)]
      ensures session.None? ==> View() == old(View())
    {
      StepKeepsInvariant(View(), Event.Connect(account, environment));
      var epoch := generation;
      if !AssertCurrent(epoch, account) {
        return None;
      }
      if environment !in targets {
        targets := targets[environment := |dials|];
        dials := dials + [Dial(account, environment, generation, Pending)];
      }
      var pending := targets[environment];
      session := Some(|sessions|);
      sessions := sessions + [Session(epoch, account, environment, pending, false)];
    }

    method OnDialRejected(dial: nat)
      requires Invariant(View()) && dial < |dials| && dials[dial].progress == Pending
      modifies this
      ensures View() == Step(old(View()), DialRejected(dial)) && Invariant(View())
    {
      StepKeepsInvariant(View(), DialRejected(dial));
      var environment := dials[dial].environment;
      dials := dials[dial := dials[dial].(progress := Rejected)];
      if environment in targets && targets[environment] == dial {
        targets := targets - {environment};
      }
    }

    method OnDialResolved(dial: nat)
      requires Invariant(View()) && dial < |dials| && dials[dial].progress == Pending
      modifies this
      ensures View() == Step(old(View()), DialResolved(dial)) && Invariant(View())
    {
      StepKeepsInvariant(View(), DialResolved(dial));
      dials := dials[dial := dials[dial].(progress := Resolved)];
    }

    /** connect after its await; false where it throws. */
    method ResumeConnect(session: nat) returns (ok: bool)
      requires Invariant(View()) && session < |sessions| && dials[sessions[session].dial].progress == Resolved
      modifies this
      ensures View() == Step(old(View()), ConnectResumed(session)) && Invariant(View())
      ensures ok == old(AssertCurrent(sessions[session].epoch, sessions[session].account))
    {
      StepKeepsInvariant(View(), ConnectResumed(session));
      var it := sessions[session];
      ok := AssertCurrent(it.epoch, it.account);
      if ok {
        deliveries := deliveries + [Delivery(session, generation, discovery.value.account)];
        sessions := sessions[session := it.(delivered := true)];
      }
    }

    /** nextSocketUrl or request on a target, up to its await; false where it throws at once. */
    method BeginRequest(session: nat) returns (ok: bool)
      requires Invariant(View()) && session < |sessions| && sessions[session].delivered
      modifies this
      ensures View() == Step(old(View()), RequestBegins(session)) && Invariant(View())
      ensures ok == old(AssertCurrent(sessions[session].epoch, sessions[session].account))
    {
      StepKeepsInvariant(View(), RequestBegins(session));
      ok := AssertCurrent(sessions[session].epoch, sessions[session].account);
      if ok {
        requests := requests + [session];
      }
    }

    /** ... and after its await, when the URL or response may be handed out. */
    method ResumeRequest(request: nat) returns (ok: bool)
      requires Invariant(View()) && request < |requests|
      modifies this
      ensures View() == Step(old(View()), RequestResumed(request)) && Invariant(View())
      ensures var it := old(sessions[requests[request]]); ok == old(AssertCurrent(it.epoch, it.account))
    {
      StepKeepsInvariant(View(), RequestResumed(request));
      var it := sessions[requests[request]];
      ok := AssertCurrent(it.epoch, it.account);
      if ok {
        deliveries := deliveries + [Delivery(requests[request], generation, discovery.value.account)];
      }
    }
  }
}
