/** Creating a nested thread in three backend calls (`apps/server/src/nestedThreadCreation.ts`):
    create the thread, start its first turn, and remove the thread again when the turn was
    rejected. What the caller is told is compared with what the backend did. */
module NestedThreads {
  import opened Wrappers

  // ---------- the phases and their reported outcome ----------

  /** Why a call failed: an error, or a defect or interruption without one. */
  datatype Cause<E> = Failed(error: E) | NoError(pretty: string)

  datatype Exit<V, E> = Success(value: V) | Failure(cause: Cause<E>)

  datatype PhaseFailure = PhaseFailure(definitive: bool, message: string)

  datatype ErrorCode =
    | ThreadCreateRejected
    | ThreadCreateAmbiguous
    | TurnStartRejected
    | TurnStartAmbiguous
    | ThreadCleanupRejected
    | ThreadCleanupAmbiguous

  datatype Outcome =
    | Created(threadId: string, threadUrl: Option<string>, workspaceCreated: bool)
    | FailedOutcome(failedThread: Option<string>, mayRetry: bool, workspaceCreated: bool,
                    cleanupPerformed: bool, errorCode: ErrorCode, message: string)
    | Ambiguous(ambiguousThread: Option<string>, workspaceCreated: bool, errorCode: ErrorCode, message: string)
  {
    predicate Retryable() {
      FailedOutcome? && mayRetry
    }

    function NamedThread(): Option<string> {
      match this
      case Created(threadId, _, _) => Some(threadId)
      case FailedOutcome(failedThread, _, _, _, _, _) => failedThread
      case Ambiguous(ambiguousThread, _, _, _) => ambiguousThread
    }
  }

  datatype Phase = CreateThread | StartTurn | CleanupThread

  /** The exits of the three calls, had they been made. */
  datatype Exits<E> = Exits(create: Exit<Option<string>, E>, start: Exit<(), E>, cleanup: Exit<(), E>)

  function FailureFromCause<E>(cause: Cause<E>, classify: E -> PhaseFailure): PhaseFailure {
    match cause
    case Failed(error) => classify(error)
    case NoError(pretty) => PhaseFailure(false, pretty)
  }

  /** What is reported, and the calls that are made. */
  function RunPhases<E>(threadId: string, workspaceCreated: bool, exits: Exits<E>,
                        classify: E -> PhaseFailure): (Outcome, seq<Phase>) {
    if exits.create.Failure? then
      var failure := FailureFromCause(exits.create.cause, classify);
      (if failure.definitive then
         FailedOutcome(None, true, workspaceCreated, false, ThreadCreateRejected, failure.message)
       else
         Ambiguous(Some(threadId), workspaceCreated, ThreadCreateAmbiguous, failure.message),
       [CreateThread])
    else if exits.start.Success? then
      (Created(threadId, exits.create.value, workspaceCreated), [CreateThread, StartTurn])
    else
      var turnFailure := FailureFromCause(exits.start.cause, classify);
      if !turnFailure.definitive then
        (Ambiguous(Some(threadId), workspaceCreated, TurnStartAmbiguous, turnFailure.message),
         [CreateThread, StartTurn])
      else if exits.cleanup.Success? then
        (FailedOutcome(Some(threadId), true, workspaceCreated, true, TurnStartRejected, turnFailure.message),
         [CreateThread, StartTurn, CleanupThread])
      else
        var cleanupFailure := FailureFromCause(exits.cleanup.cause, classify);
        (if cleanupFailure.definitive then
           FailedOutcome(Some(threadId), false, workspaceCreated, false, ThreadCleanupRejected,
                         cleanupFailure.message)
         else
           Ambiguous(Some(threadId), workspaceCreated, ThreadCleanupAmbiguous, cleanupFailure.message),
         [CreateThread, StartTurn, CleanupThread])
  }

  // ---------- what the backend did ----------

  /** The live threads of the caller, and the log of the turns it had accepted. */
  datatype World = World(live: set<string>, accepted: seq<string>)

  /** Which of the three calls, if made, the backend commits. */
  datatype Commits = Commits(create: bool, start: bool, cleanup: bool) {
    predicate Of(phase: Phase) {
      match phase
      case CreateThread => create
      case StartTurn => start
      case CleanupThread => cleanup
    }
  }

  /** A call that succeeds is committed, and one that fails with a definitive error is not; of a
      call that fails with another error, or without one, nothing is known. */
  ghost predicate Honest<V, E>(exit: Exit<V, E>, committed: bool, classify: E -> PhaseFailure) {
    match exit
    case Success(_) => committed
    case Failure(Failed(error)) => classify(error).definitive ==> !committed
    case Failure(NoError(_)) => true
  }

  ghost predicate Explains<E>(commits: Commits, exits: Exits<E>, classify: E -> PhaseFailure) {
    && Honest(exits.create, commits.create, classify)
    && Honest(exits.start, commits.start, classify)
    && Honest(exits.cleanup, commits.cleanup, classify)
  }

  function Committed(world: World, threadId: string, phase: Phase): World {
    match phase
    case CreateThread => world.(live := world.live + {threadId})
    case StartTurn => world.(accepted := world.accepted + [threadId])
    case CleanupThread => world.(live := world.live - {threadId})
  }

  function Step(world: World, threadId: string, phase: Phase, commits: Commits): World {
    if commits.Of(phase) then Committed(world, threadId, phase) else world
  }

  /** The backend before the first of the calls, between any two of them and after the last. */
  function Worlds(world: World, threadId: string, phases: seq<Phase>, commits: Commits): (r: seq<World>)
    ensures |r| == |phases| + 1
    decreases |phases|
  {
    if phases == [] then [world]
    else
      [world] + Worlds(Step(world, threadId, phases[0], commits), threadId, phases[1..], commits)
  }

  function WorldAfter(world: World, threadId: string, phases: seq<Phase>, commits: Commits): World {
    Worlds(world, threadId, phases, commits)[|phases|]
  }

  // ---------- one attempt ----------

  lemma WorldsStep(world: World, threadId: string, phase: Phase, rest: seq<Phase>, commits: Commits)
    ensures Worlds(world, threadId, [phase] + rest, commits)
            == [world] + Worlds(Step(world, threadId, phase, commits), threadId, rest, commits)
    ensures Worlds(world, threadId, [], commits) == [world]
  {
    assert ([phase] + rest)[1..] == rest;
  }

  /** The three lists of calls that an attempt makes, and the worlds they pass through. */
  lemma WorldsOfAttempt(world: World, threadId: string, commits: Commits)
    ensures var w1 := Step(world, threadId, CreateThread, commits);
            var w2 := Step(w1, threadId, StartTurn, commits);
            var w3 := Step(w2, threadId, CleanupThread, commits);
            && Worlds(world, threadId, [CreateThread], commits) == [world, w1]
            && Worlds(world, threadId, [CreateThread, StartTurn], commits) == [world, w1, w2]
            && Worlds(world, threadId, [CreateThread, StartTurn, CleanupThread], commits) == [world, w1, w2, w3]
  {
    hide Worlds, Step;
    var w1 := Step(world, threadId, CreateThread, commits);
    var w2 := Step(w1, threadId, StartTurn, commits);
    assert [CreateThread] == [CreateThread] + [];
    assert [CreateThread, StartTurn] == [CreateThread] + [StartTurn];
    assert [CreateThread, StartTurn, CleanupThread] == [CreateThread] + [StartTurn, CleanupThread];
    assert [StartTurn] == [StartTurn] + [];
    assert [StartTurn, CleanupThread] == [StartTurn] + [CleanupThread];
    assert [CleanupThread] == [CleanupThread] + [];
    WorldsStep(world, threadId, CreateThread, [], commits);
    WorldsStep(world, threadId, CreateThread, [StartTurn], commits);
    WorldsStep(world, threadId, CreateThread, [StartTurn, CleanupThread], commits);
    WorldsStep(w1, threadId, StartTurn, [], commits);
    WorldsStep(w1, threadId, StartTurn, [CleanupThread], commits);
    WorldsStep(w2, threadId, CleanupThread, [], commits);
    var w3 := Step(w2, threadId, CleanupThread, commits);
    WorldsStep(w3, threadId, CleanupThread, [], commits);
  }

  /** The outcome tells the truth about the backend: `created` means that the thread is live and
      its turn accepted; what may be retried left nothing behind; a thread is removed only when
      its turn was not accepted, and one that is left behind is named. */
  lemma OutcomeIsTrue<E>(world: World, threadId: string, workspaceCreated: bool, exits: Exits<E>,
                         classify: E -> PhaseFailure, commits: Commits)
    requires threadId !in world.live && Explains(commits, exits, classify)
    ensures var (outcome, phases) := RunPhases(threadId, workspaceCreated, exits, classify);
            var after := WorldAfter(world, threadId, phases, commits);
            && (outcome.Created? ==>
                  after == World(world.live + {threadId}, world.accepted + [threadId]))
            && (outcome.Retryable() ==> after == world)
            && (outcome.FailedOutcome? && !outcome.mayRetry ==>
                  after == World(world.live + {threadId}, world.accepted))
            && (outcome.FailedOutcome? && outcome.cleanupPerformed ==> threadId !in after.live)
            && (CleanupThread in phases ==> after.accepted == world.accepted)
            && (threadId !in after.live ==> after.accepted == world.accepted)
            && (threadId in after.live ==> outcome.NamedThread() == Some(threadId))
  {
    var (outcome, phases) := RunPhases(threadId, workspaceCreated, exits, classify);
    WorldsOfAttempt(world, threadId, commits);
    hide Worlds;
  }

  /** Retrying is allowed exactly when it is safe: in every course of events that explains what the
      caller saw, the attempt left neither a live thread nor an accepted turn. */
  lemma RetryableExactly<E>(world: World, threadId: string, workspaceCreated: bool, exits: Exits<E>,
                            classify: E -> PhaseFailure)
    requires threadId !in world.live
    ensures var (outcome, phases) := RunPhases(threadId, workspaceCreated, exits, classify);
            outcome.Retryable() <==>
            forall commits :: Explains(commits, exits, classify) ==>
              WorldAfter(world, threadId, phases, commits) == world
  {
    var (outcome, phases) := RunPhases(threadId, workspaceCreated, exits, classify);
    forall commits | Explains(commits, exits, classify)
      ensures outcome.Retryable() ==> WorldAfter(world, threadId, phases, commits) == world
    {
      OutcomeIsTrue(world, threadId, workspaceCreated, exits, classify, commits);
    }
    if !outcome.Retryable() {
      var commits := Commits(
        exits.create.Success? || exits.create.cause.NoError? || !classify(exits.create.cause.error).definitive,
        exits.start.Success?,
        exits.cleanup.Success?);
      assert Explains(commits, exits, classify);
      WorldsOfAttempt(world, threadId, commits);
      assert threadId in WorldAfter(world, threadId, phases, commits).live;
    }
  }

  /** A thread is cleaned up only after its turn failed definitively, never when the turn may
      have been accepted. */
  lemma CleanupOnlyAfterRejection<E>(threadId: string, workspaceCreated: bool, exits: Exits<E>,
                                     classify: E -> PhaseFailure)
    ensures var (_, phases) := RunPhases(threadId, workspaceCreated, exits, classify);
            CleanupThread in phases <==>
            exits.create.Success? && forall commits :: Explains(commits, exits, classify) ==> !commits.start
  {
    if exits.start.Success? || exits.start.cause.NoError? || !classify(exits.start.cause.error).definitive {
      var commits := Commits(exits.create.Success?, true, exits.cleanup.Success?);
      assert Explains(commits, exits, classify);
    } else {
      var commits := Commits(exits.create.Success?, false, exits.cleanup.Success?);
      assert Explains(commits, exits, classify);
    }
  }

  /** Why a call failed, if it did. */
  function CauseOf<E>(exits: Exits<E>, phase: Phase): Option<Cause<E>> {
    match phase
    case CreateThread => if exits.create.Failure? then Some(exits.create.cause) else None
    case StartTurn => if exits.start.Failure? then Some(exits.start.cause) else None
    case CleanupThread => if exits.cleanup.Failure? then Some(exits.cleanup.cause) else None
  }

  function CodeOf(phase: Phase, definitive: bool): ErrorCode {
    match phase
    case CreateThread => if definitive then ThreadCreateRejected else ThreadCreateAmbiguous
    case StartTurn => if definitive then TurnStartRejected else TurnStartAmbiguous
    case CleanupThread => if definitive then ThreadCleanupRejected else ThreadCleanupAmbiguous
  }

  /** The report of a failure: an error is reported as it is classified, and a failure without an error
      is ambiguous. */
  ghost predicate Reports<E>(outcome: Outcome, phase: Phase, cause: Cause<E>, classify: E -> PhaseFailure) {
    && !outcome.Created?
    && match cause
       case Failed(error) =>
         && outcome.message == classify(error).message
         && outcome.errorCode == CodeOf(phase, classify(error).definitive)
         && (outcome.Ambiguous? <==> !classify(error).definitive)
       case NoError(pretty) =>
         outcome.message == pretty && outcome.errorCode == CodeOf(phase, false) && outcome.Ambiguous?
  }

  /** The i-th call is the last that failed, and the report is about it. */
  ghost predicate ReportsLastFailure<E>(outcome: Outcome, phases: seq<Phase>, i: nat, exits: Exits<E>,
                                        classify: E -> PhaseFailure)
  {
    && i < |phases|
    && (forall j :: i < j < |phases| ==> CauseOf(exits, phases[j]).None?)
    && CauseOf(exits, phases[i]).Some?
    && Reports(outcome, phases[i], CauseOf(exits, phases[i]).value, classify)
  }

  /** An attempt is reported as created exactly when no call failed; else the report names the
      last call that did, carries its message, and is ambiguous exactly when that failure is. It also
      carries whether a workspace was made, the thread, its url where it was created, and a cleanup
      exactly where one was made and succeeded. */
  lemma OutcomeNamesLastFailure<E>(threadId: string, workspaceCreated: bool, exits: Exits<E>,
                                   classify: E -> PhaseFailure)
    ensures var (outcome, phases) := RunPhases(threadId, workspaceCreated, exits, classify);
            && (outcome.Created? <==> forall p :: p in phases ==> CauseOf(exits, p).None?)
            && (!outcome.Created? ==>
                  exists i: nat :: ReportsLastFailure(outcome, phases, i, exits, classify))
    ensures var (outcome, phases) := RunPhases(threadId, workspaceCreated, exits, classify);
            && outcome.workspaceCreated == workspaceCreated
            && (outcome.NamedThread().None? <==> CauseOf(exits, CreateThread).Some? && outcome.FailedOutcome?)
            && (outcome.NamedThread().Some? ==> outcome.NamedThread() == Some(threadId))
            && (outcome.Created? ==> exits.create == Success(outcome.threadUrl))
            && (outcome.FailedOutcome? && outcome.cleanupPerformed <==>
                CleanupThread in phases && CauseOf(exits, CleanupThread).None?)
  {
    var (outcome, phases) := RunPhases(threadId, workspaceCreated, exits, classify);
    if exits.create.Failure? {
      assert phases[0] == CreateThread && ReportsLastFailure(outcome, phases, 0, exits, classify);
    } else if exits.start.Success? {
      assert phases == [CreateThread, StartTurn];
    } else {
      var last := if |phases| == 3 && exits.cleanup.Failure? then 2 else 1;
      assert phases[1] == StartTurn && ReportsLastFailure(outcome, phases, last, exits, classify);
    }
  }

  // ---------- any number of attempts ----------

  datatype Attempt<E> = Attempt(threadId: string, workspaceCreated: bool, exits: Exits<E>, commits: Commits)

  /** Every world that a caller passes through that starts the next attempt only after an outcome
      that may be retried. */
  function RetryWorlds<E>(world: World, attempts: seq<Attempt<E>>, classify: E -> PhaseFailure): seq<World>
    decreases |attempts|
  {
    if attempts == [] then [world]
    else
      var a := attempts[0];
      var (outcome, phases) := RunPhases(a.threadId, a.workspaceCreated, a.exits, classify);
      var worlds := Worlds(world, a.threadId, phases, a.commits);
      if outcome.Retryable() then
        worlds + RetryWorlds(WorldAfter(world, a.threadId, phases, a.commits), attempts[1..], classify)
      else worlds
  }

  lemma AttemptIsSafe<E>(a: Attempt<E>, classify: E -> PhaseFailure)
    requires Explains(a.commits, a.exits, classify)
    ensures var start := World({}, []);
            var (outcome, phases) := RunPhases(a.threadId, a.workspaceCreated, a.exits, classify);
            && (forall w :: w in Worlds(start, a.threadId, phases, a.commits) ==> |w.live| <= 1 && |w.accepted| <= 1)
            && (outcome.Retryable() ==> WorldAfter(start, a.threadId, phases, a.commits) == start)
  {
    var start := World({}, []);
    var (outcome, phases) := RunPhases(a.threadId, a.workspaceCreated, a.exits, classify);
    OutcomeIsTrue(start, a.threadId, a.workspaceCreated, a.exits, classify, a.commits);
    WorldsOfAttempt(start, a.threadId, a.commits);
    var w1 := Step(start, a.threadId, CreateThread, a.commits);
    var w2 := Step(w1, a.threadId, StartTurn, a.commits);
    hide Worlds, Step, Explains, FailureFromCause;
    SmallWorlds(a.threadId, a.commits);
    assert Worlds(start, a.threadId, phases, a.commits)
        <= [start, w1, w2, Step(w2, a.threadId, CleanupThread, a.commits)];
  }

  lemma SmallWorlds(id: string, commits: Commits)
    ensures var start := World({}, []);
            var w1 := Step(start, id, CreateThread, commits);
            var w2 := Step(w1, id, StartTurn, commits);
            var w3 := Step(w2, id, CleanupThread, commits);
            forall w :: w in [start, w1, w2, w3] ==> |w.live| <= 1 && |w.accepted| <= 1
  {
    var start := World({}, []);
    var w1 := Step(start, id, CreateThread, commits);
    var w2 := Step(w1, id, StartTurn, commits);
    var w3 := Step(w2, id, CleanupThread, commits);
    assert w1.live <= {id} && w2.live <= {id} && w3.live <= {id};
    assert forall w :: w in [w1, w2, w3] ==> w.live == {} || w.live == {id};
  }

  /** Over any number of attempts, with the same or new thread ids, the caller never has more than
      one live thread, and never more than one turn is accepted. */
  lemma {:induction false} RetriesAreSafe<E>(attempts: seq<Attempt<E>>, classify: E -> PhaseFailure)
    requires forall a :: a in attempts ==> Explains(a.commits, a.exits, classify)
    ensures forall w :: w in RetryWorlds(World({}, []), attempts, classify) ==>
              |w.live| <= 1 && |w.accepted| <= 1
    decreases |attempts|
  {
    hide RunPhases, Worlds, WorldAfter, Explains;
    if attempts == [] {
    } else {
      AttemptIsSafe(attempts[0], classify);
      RetriesAreSafe(attempts[1..], classify);
    }
  }
}
