/** The durable file replace of scripts/lib/durableFile.ts, split into its file-system steps. A
    writer may crash between any two steps, and readers look at the disk between any two steps. */
module DurableFile {
  import opened Wrappers

  /** Where the writer stands; `Idle` also covers a writer that died. */
  datatype Phase =
    | Idle
    | WritingTemporary
    | Replacing
    | RemovingBackup
    | SettingAside
    | Committing
    | RemovingAside
    | CleaningUp

  /** The file, its `.previous` sibling and the writer's temporary file. `committed` is history:
      every value that was put in place, oldest first. */
  datatype State = State(
    main: Option<string>, previous: Option<string>, temporary: Option<string>,
    phase: Phase, contents: string, committed: seq<string>)

  /** One step, with its outcome. A failed operation leaves the disk as it was. */
  datatype Event =
    | Begin(contents: string)
    | TemporaryPartlyWritten(text: string)
    | TemporaryWritten
    | TemporaryFailed
    | Replaced
    | ReplaceNeedsFallback
    | ReplaceFailed
    | BackupRemoved
    | BackupNotRemoved
    | SetAside
    | NothingToSetAside
    | SetAsideFailed
    | Committed
    | CommitFailed
    | AsideRemoved
    | AsideNotRemoved
    | TemporaryRemoved
    | TemporaryNotRemoved
    | Crash

  function Put(s: State, next: Phase): State {
    s.(main := s.temporary, temporary := None, committed := s.committed + [s.contents], phase := next)
  }

  /** The state after an event, or None where the event cannot happen. */
  function Step(s: State, e: Event): Option<State> {
    match e
    case Begin(contents) =>
      if s.phase == Idle then Some(s.(phase := WritingTemporary, contents := contents, temporary := None)) else None
    case TemporaryPartlyWritten(text) =>
      if s.phase == WritingTemporary then Some(s.(temporary := Some(text))) else None
    case TemporaryWritten =>
      if s.phase == WritingTemporary then Some(s.(temporary := Some(s.contents), phase := Replacing)) else None
    case TemporaryFailed =>
      if s.phase == WritingTemporary then Some(s.(phase := CleaningUp)) else None
    case Replaced => if s.phase == Replacing then Some(Put(s, CleaningUp)) else None
    case ReplaceNeedsFallback => if s.phase == Replacing then Some(s.(phase := RemovingBackup)) else None
    case ReplaceFailed => if s.phase == Replacing then Some(s.(phase := CleaningUp)) else None
    case BackupRemoved =>
      if s.phase == RemovingBackup then Some(s.(previous := None, phase := SettingAside)) else None
    case BackupNotRemoved => if s.phase == RemovingBackup then Some(s.(phase := CleaningUp)) else None
    case SetAside =>
      if s.phase == SettingAside && s.main.Some?
      then Some(s.(previous := s.main, main := None, phase := Committing)) else None
    case NothingToSetAside =>
      if s.phase == SettingAside && s.main.None? then Some(s.(phase := Committing)) else None
    case SetAsideFailed => if s.phase == SettingAside then Some(s.(phase := CleaningUp)) else None
    case Committed => if s.phase == Committing then Some(Put(s, RemovingAside)) else None
    case CommitFailed => if s.phase == Committing then Some(s.(phase := CleaningUp)) else None
    case AsideRemoved =>
      if s.phase == RemovingAside then Some(s.(previous := None, phase := CleaningUp)) else None
    case AsideNotRemoved => if s.phase == RemovingAside then Some(s.(phase := CleaningUp)) else None
    case TemporaryRemoved => if s.phase == CleaningUp then Some(s.(temporary := None, phase := Idle)) else None
    case TemporaryNotRemoved => if s.phase == CleaningUp then Some(s.(phase := Idle)) else None
    case Crash => Some(s.(phase := Idle))
  }

  function Run(s: State, events: seq<Event>): Option<State>
    decreases |events|
  {
    if events == [] then Some(s)
    else
      var next := Step(s, events[0]);
      if next.None? then None else Run(next.value, events[1..])
  }

  /** The one assumption about the file system: renaming onto an absent target never fails with
      one of the codes that start the fallback. */
  predicate RenamesOntoAbsentTarget(s: State, events: seq<Event>)
    decreases |events|
  {
    events == [] || Step(s, events[0]).None?
    || (&& (events[0] == ReplaceNeedsFallback ==> s.main.Some?)
        && RenamesOntoAbsentTarget(Step(s, events[0]).value, events[1..]))
  }

  /** Any disk at rest may be the start; what it holds counts as the last committed value. */
  predicate Initial(s: State) {
    && s.phase == Idle
    && s.committed == if s.main.Some? then [s.main.value]
                      else if s.previous.Some? then [s.previous.value] else []
  }

  // ---------- Invariant ----------

  /** The last committed value is in the file, or the file is absent and it is in `.previous`. */
  predicate Durable(s: State) {
    if s.committed == [] then s.main.None? && s.previous.None?
    else
      var last := s.committed[|s.committed| - 1];
      s.main == Some(last) || (s.main.None? && s.previous == Some(last))
  }

  predicate Invariant(s: State) {
    && Durable(s)
    && (s.phase in {Replacing, RemovingBackup, SettingAside, Committing} ==> s.temporary == Some(s.contents))
    && (s.phase in {RemovingBackup, SettingAside, RemovingAside} ==> s.main.Some?)
  }

  lemma StepKeepsInvariant(s: State, e: Event)
    requires Invariant(s) && Step(s, e).Some?
    requires e == ReplaceNeedsFallback ==> s.main.Some?
    ensures Invariant(Step(s, e).value)
    ensures s.committed <= Step(s, e).value.committed
    ensures |Step(s, e).value.committed| <= |s.committed| + 1
  {
  }

  lemma {:induction false} RunKeepsInvariant(s: State, events: seq<Event>)
    requires Invariant(s) && Run(s, events).Some? && RenamesOntoAbsentTarget(s, events)
    ensures Invariant(Run(s, events).value)
    ensures s.committed <= Run(s, events).value.committed
    decreases |events|
  {
    if events == [] {
    } else {
      StepKeepsInvariant(s, events[0]);
      RunKeepsInvariant(Step(s, events[0]).value, events[1..]);
    }
  }

  /** At every instant of every run, crashes included, one of the two files holds the last
      committed value. */
  lemma LastCommittedValueSurvives(s: State, events: seq<Event>)
    requires Initial(s) && Run(s, events).Some? && RenamesOntoAbsentTarget(s, events)
    requires Run(s, events).value.committed != []
    ensures var t := Run(s, events).value;
            var last := t.committed[|t.committed| - 1];
            t.main == Some(last) || (t.main.None? && t.previous == Some(last))
  {
    RunKeepsInvariant(s, events);
  }

  /** Deleting the old backup is safe exactly when the file itself is there (or nothing was ever
      committed): this is what the assumption above is needed for. */
  lemma RemovingBackupIsSafeExactlyWhen(s: State)
    requires Durable(s) && s.phase == RemovingBackup
    ensures Durable(Step(s, BackupRemoved).value) <==> s.main.Some? || s.committed == []
  {
  }

  /** All states of the run are durable. */
  predicate StaysDurable(s: State, events: seq<Event>)
    decreases |events|
  {
    Durable(s) &&
    (events == [] || Step(s, events[0]).None? || StaysDurable(Step(s, events[0]).value, events[1..]))
  }

  /** The step that line 43 takes when nothing else holds the committed value. */
  predicate DropsOnlyCopy(s: State, e: Event) {
    e == BackupRemoved && s.main.None? && s.committed != []
  }

  predicate NeverDropsOnlyCopy(s: State, events: seq<Event>)
    decreases |events|
  {
    events == [] || Step(s, events[0]).None?
    || (!DropsOnlyCopy(s, events[0]) && NeverDropsOnlyCopy(Step(s, events[0]).value, events[1..]))
  }

  /** What every run keeps, whatever the renames do, until it drops the only copy. */
  predicate WeakInvariant(s: State) {
    && Durable(s)
    && (s.phase in {Replacing, RemovingBackup, SettingAside, Committing} ==> s.temporary == Some(s.contents))
    && (s.phase == SettingAside ==> s.main.Some? || s.committed == [])
    && (s.phase == RemovingAside ==> s.main.Some?)
  }

  lemma StepKeepsWeakInvariant(s: State, e: Event)
    requires WeakInvariant(s) && Step(s, e).Some?
    ensures if DropsOnlyCopy(s, e) then !Durable(Step(s, e).value) else WeakInvariant(Step(s, e).value)
  {
  }

  lemma {:induction false} DurableFromHere(s: State, events: seq<Event>)
    requires WeakInvariant(s)
    ensures StaysDurable(s, events) <==> NeverDropsOnlyCopy(s, events)
    decreases |events|
  {
    if events == [] || Step(s, events[0]).None? {
    } else {
      StepKeepsWeakInvariant(s, events[0]);
      if !DropsOnlyCopy(s, events[0]) {
        DurableFromHere(Step(s, events[0]).value, events[1..]);
      }
    }
  }

  /** Over every run, with no assumption on renames: the last committed value stays in one of the
      two files if and only if the backup is never removed while the file is absent and something
      is committed. */
  lemma RunsAreDurableExactly(s: State, events: seq<Event>)
    requires Initial(s) && Run(s, events).Some?
    ensures StaysDurable(s, events) <==> NeverDropsOnlyCopy(s, events)
  {
    DurableFromHere(s, events);
  }

  /** A run that breaks the assumption: the only copy is deleted before the new one is in place. */
  lemma FallbackWithoutFileLosesData()
    ensures exists s, events ::
      && Initial(s) && s.committed == ["old"]
      && Run(s, events).Some?
      && Run(s, events).value.main.None? && Run(s, events).value.previous.None?
  {
    var s := State(None, Some("old"), None, Idle, "", ["old"]);
    var events := [Begin("new"), TemporaryWritten, ReplaceNeedsFallback, BackupRemoved];
    var s1 := Step(s, Begin("new")).value;
    var s2 := Step(s1, TemporaryWritten).value;
    var s3 := Step(s2, ReplaceNeedsFallback).value;
    var s4 := Step(s3, BackupRemoved).value;
    assert events[1..] == [TemporaryWritten, ReplaceNeedsFallback, BackupRemoved];
    assert events[1..][1..] == [ReplaceNeedsFallback, BackupRemoved];
    assert events[1..][1..][1..] == [BackupRemoved];
    assert Run(s3, [BackupRemoved]) == Some(s4);
    assert Run(s2, [ReplaceNeedsFallback, BackupRemoved]) == Some(s4);
    assert Run(s1, events[1..]) == Some(s4);
    assert Run(s, events) == Some(s4);
  }

  // ---------- Readers ----------

  /** A read looks at the file in `first`, and only when it is absent at `.previous` in `second`. */
  function ReadDurableText(first: State, second: State): Option<string> {
    if first.main.Some? then first.main else second.previous
  }

  lemma {:induction false} RunSplit(s: State, a: seq<Event>, b: seq<Event>)
    ensures Run(s, a + b) == if Run(s, a).None? then None else Run(Run(s, a).value, b)
    decreases |a|
  {
    if a == [] {
      assert a + b == b;
    } else {
      assert (a + b)[1..] == a[1..] + b;
      if Step(s, a[0]).Some? {
        RunSplit(Step(s, a[0]).value, a[1..], b);
      }
    }
  }

  /** `value` was the committed value at some moment from `s` to the end of `events`. */
  ghost predicate CommittedDuring(s: State, events: seq<Event>, value: string) {
    exists k: nat :: k <= |events| && LastCommittedIs(Run(s, events[..k]), value)
  }

  predicate LastCommittedIs(s: Option<State>, value: string) {
    s.Some? && s.value.committed != [] && s.value.committed[|s.value.committed| - 1] == value
  }

  lemma {:induction false} CommittedLater(s: State, e: Event, events: seq<Event>, value: string)
    requires Step(s, e).Some? && CommittedDuring(Step(s, e).value, events, value)
    ensures CommittedDuring(s, [e] + events, value)
  {
    var k: nat :| k <= |events| && LastCommittedIs(Run(Step(s, e).value, events[..k]), value);
    assert ([e] + events)[..k + 1] == [e] + events[..k];
    assert ([e] + events[..k])[1..] == events[..k];
    assert Run(s, ([e] + events)[..k + 1]) == Run(Step(s, e).value, events[..k]);
  }

  lemma CommittedNow(s: State, events: seq<Event>)
    requires s.committed != []
    ensures CommittedDuring(s, events, s.committed[|s.committed| - 1])
  {
    assert events[..0] == [];
    assert LastCommittedIs(Run(s, events[..0]), s.committed[|s.committed| - 1]);
  }

  /** What `.previous` holds at the end it held at the start, or it was set aside on the way and
      was the committed value then. */
  lemma {:induction false} PreviousWasCommitted(s: State, events: seq<Event>)
    requires Invariant(s) && Run(s, events).Some? && RenamesOntoAbsentTarget(s, events)
    ensures var t := Run(s, events).value;
            t.previous.Some? ==> t.previous == s.previous || CommittedDuring(s, events, t.previous.value)
    decreases |events|
  {
    if events == [] {
    } else {
      var e, rest := events[0], events[1..];
      var next, t := Step(s, e).value, Run(s, events).value;
      StepKeepsInvariant(s, e);
      PreviousWasCommitted(next, rest);
      assert events == [e] + rest;
      if e == SetAside {
        CommittedNow(s, events);
      }
      if t.previous.Some? && CommittedDuring(next, rest, t.previous.value) {
        CommittedLater(s, e, rest, t.previous.value);
      }
    }
  }

  /** Whatever a read returns was the committed value at some moment during that read, however many
      writes, failures and crashes happen between its two looks. */
  lemma ReadsAreCommittedValues(s: State, before: seq<Event>, during: seq<Event>)
    requires Initial(s) && Run(s, before + during).Some? && RenamesOntoAbsentTarget(s, before + during)
    ensures Run(s, before).Some?
    ensures var first := Run(s, before).value;
            var result := ReadDurableText(first, Run(s, before + during).value);
            result.Some? ==> CommittedDuring(first, during, result.value)
  {
    RunSplit(s, before, during);
    AssumptionSplit(s, before, during);
    var first := Run(s, before).value;
    RunKeepsInvariant(s, before);
    RunKeepsInvariant(first, during);
    if first.committed != [] {
      CommittedNow(first, during);
    }
    PreviousWasCommitted(first, during);
  }

  lemma {:induction false} AssumptionSplit(s: State, a: seq<Event>, b: seq<Event>)
    requires RenamesOntoAbsentTarget(s, a + b) && Run(s, a).Some?
    ensures RenamesOntoAbsentTarget(s, a) && RenamesOntoAbsentTarget(Run(s, a).value, b)
    decreases |a|
  {
    if a == [] {
      assert a + b == b;
    } else {
      assert (a + b)[1..] == a[1..] + b;
      AssumptionSplit(Step(s, a[0]).value, a[1..], b);
    }
  }

  /** A read between steps finds exactly the last committed value, and nothing only where nothing was
      committed. */
  lemma QuietReadsFindTheLastValue(s: State, events: seq<Event>)
    requires Initial(s) && Run(s, events).Some? && RenamesOntoAbsentTarget(s, events)
    ensures var t := Run(s, events).value;
            ReadDurableText(t, t) == if t.committed == [] then None else Some(t.committed[|t.committed| - 1])
  {
    RunKeepsInvariant(s, events);
  }

  /** While the file is absent and no new value is put in place, `.previous` stays. */
  lemma {:induction false} PreviousStays(s: State, events: seq<Event>)
    requires Invariant(s) && s.main.None? && Run(s, events).Some? && RenamesOntoAbsentTarget(s, events)
    requires Run(s, events).value.committed == s.committed
    ensures Run(s, events).value.main.None? && Run(s, events).value.previous == s.previous
    decreases |events|
  {
    if events == [] {
    } else {
      StepKeepsInvariant(s, events[0]);
      RunKeepsInvariant(Step(s, events[0]).value, events[1..]);
      PreviousStays(Step(s, events[0]).value, events[1..]);
    }
  }

  /** A read that finds nothing although a value was committed when it began has met a write: a new
      value was put in place during the read. */
  lemma MissedReadsMeetAWrite(s: State, before: seq<Event>, during: seq<Event>)
    requires Initial(s) && Run(s, before + during).Some? && RenamesOntoAbsentTarget(s, before + during)
    ensures Run(s, before).Some?
    ensures var first, second := Run(s, before).value, Run(s, before + during).value;
            ReadDurableText(first, second).None? && first.committed != [] ==> |second.committed| > |first.committed|
  {
    RunSplit(s, before, during);
    AssumptionSplit(s, before, during);
    var first := Run(s, before).value;
    RunKeepsInvariant(s, before);
    RunKeepsInvariant(first, during);
    if first.main.None? && Run(first, during).value.committed == first.committed {
      PreviousStays(first, during);
    }
  }

  /** A fair run in which something is committed at every moment of a read that finds nothing. */
  ghost predicate IsMissedRead(s: State, before: seq<Event>, during: seq<Event>) {
    && Initial(s) && RenamesOntoAbsentTarget(s, before + during)
    && (forall k :: 0 <= k <= |during| ==> var t := Run(s, before + during[..k]); t.Some? && t.value.committed != [])
    && Run(s, before).Some? && Run(s, before + during).Some?
    && ReadDurableText(Run(s, before).value, Run(s, before + during).value).None?
  }

  /** Such reads happen: a write ends, and takes `.previous` away, between the two looks. */
  lemma ReadsMayMissTheFile()
    ensures exists s, before, during :: IsMissedRead(s, before, during)
  {
    hide Run, RenamesOntoAbsentTarget;
    var s := State(Some("old"), None, None, Idle, "", ["old"]);
    var before := [Begin("new"), TemporaryWritten, ReplaceNeedsFallback, BackupRemoved, SetAside];
    var during := [Committed, AsideRemoved];
    var aside := State(None, Some("old"), Some("new"), Committing, "new", ["old"]);
    FallbackUpToCommit(s, before, aside);
    CommitAfterFallback(aside, during);
    AssumptionJoin(s, before, during);
    forall k | 0 <= k <= |during|
      ensures var t := Run(s, before + during[..k]); t.Some? && t.value.committed != []
    {
      RunSplit(s, before, during[..k]);
    }
    RunSplit(s, before, during);
    assert IsMissedRead(s, before, during);
  }

  lemma FallbackUpToCommit(s: State, events: seq<Event>, aside: State)
    requires s == State(Some("old"), None, None, Idle, "", ["old"])
    requires events == [Begin("new"), TemporaryWritten, ReplaceNeedsFallback, BackupRemoved, SetAside]
    requires aside == State(None, Some("old"), Some("new"), Committing, "new", ["old"])
    ensures Run(s, events) == Some(aside) && RenamesOntoAbsentTarget(s, events)
  {
    hide Run, RenamesOntoAbsentTarget;
    var s1 := s.(phase := WritingTemporary, contents := "new");
    var s2 := s1.(phase := Replacing, temporary := Some("new"));
    var s3 := s2.(phase := RemovingBackup);
    var s4 := s3.(phase := SettingAside);
    NoStepsYet(aside);
    assert [SetAside][1..] == [] && [BackupRemoved, SetAside][1..] == [SetAside];
    assert [ReplaceNeedsFallback, BackupRemoved, SetAside][1..] == [BackupRemoved, SetAside];
    RunOne(s4, [SetAside], aside);
    RunOne(s3, [BackupRemoved, SetAside], s4);
    RunOne(s2, [ReplaceNeedsFallback, BackupRemoved, SetAside], s3);
    assert events[1..][1..] == [ReplaceNeedsFallback, BackupRemoved, SetAside];
    RunOne(s1, [TemporaryWritten, ReplaceNeedsFallback, BackupRemoved, SetAside], s2);
    assert events[1..] == [TemporaryWritten, ReplaceNeedsFallback, BackupRemoved, SetAside];
    RunOne(s, events, s1);
  }

  lemma CommitAfterFallback(aside: State, events: seq<Event>)
    requires aside == State(None, Some("old"), Some("new"), Committing, "new", ["old"])
    requires events == [Committed, AsideRemoved]
    ensures RenamesOntoAbsentTarget(aside, events)
    ensures forall k :: 0 <= k <= |events| ==> var t := Run(aside, events[..k]); t.Some? && t.value.committed != []
    ensures Run(aside, events).Some? && Run(aside, events).value.previous.None?
  {
    hide Run, RenamesOntoAbsentTarget;
    var s6 := Put(aside, RemovingAside);
    var s7 := s6.(previous := None, phase := CleaningUp);
    NoStepsYet(aside);
    NoStepsYet(s6);
    NoStepsYet(s7);
    RunOne(aside, [Committed], s6);
    RunOne(s6, [AsideRemoved], s7);
    assert [Committed][1..] == [] && [AsideRemoved][1..] == [] && events[1..] == [AsideRemoved];
    RunOne(aside, events, s6);
    assert events[..0] == [] && events[..1] == [Committed] && events[..2] == events;
  }

  lemma RunOne(s: State, events: seq<Event>, next: State)
    requires events != [] && Step(s, events[0]) == Some(next)
    requires events[0] == ReplaceNeedsFallback ==> s.main.Some?
    ensures Run(s, events) == Run(next, events[1..])
    ensures RenamesOntoAbsentTarget(s, events) <==> RenamesOntoAbsentTarget(next, events[1..])
  {
  }

  lemma {:induction false} AssumptionJoin(s: State, a: seq<Event>, b: seq<Event>)
    requires RenamesOntoAbsentTarget(s, a) && Run(s, a).Some? && RenamesOntoAbsentTarget(Run(s, a).value, b)
    ensures RenamesOntoAbsentTarget(s, a + b)
    decreases |a|
  {
    if a == [] {
      assert a + b == b;
    } else {
      assert (a + b)[1..] == a[1..] + b;
      AssumptionJoin(Step(s, a[0]).value, a[1..], b);
    }
  }

  // ---------- The code that takes the steps ----------

  /** How each operation of one write ends; the ones that are not reached do not matter. */
  datatype Outcome = Success | FallbackError | OtherError

  datatype Outcomes = Outcomes(
    writeTemporary: Outcome, replace: Outcome, removeBackup: Outcome, setAside: Outcome,
    commit: Outcome, removeAside: Outcome, removeTemporary: Outcome)
  {
    /** The fallback gets as far as the second rename onto the path, and that one succeeds. */
    predicate FallbackPutsInPlace(fileExists: bool) {
      removeBackup == Success && (fileExists ==> setAside == Success) && commit == Success
    }

    /** What has to succeed for the new value to get in place. */
    predicate PutsInPlace(fileExists: bool) {
      && writeTemporary == Success
      && (replace == Success || (replace == FallbackError && FallbackPutsInPlace(fileExists)))
    }

    /** What `.previous` holds once the new value is in place. */
    function PreviousAfter(main: Option<string>, previous: Option<string>): Option<string> {
      if replace == Success then previous else if removeAside == Success then None else main
    }
  }

  class DurableFile {
    var main: Option<string>
    var previous: Option<string>
    var temporary: Option<string>
    ghost var phase: Phase
    ghost var contents: string
    ghost var committed: seq<string>
    /** The steps taken so far by the write that is under way. */
    ghost var steps: seq<Event>

    ghost function View(): State
      reads this
    {
      State(main, previous, temporary, phase, contents, committed)
    }

    /** The steps so far lead from `start` to here and, when `fair`, respect the assumption. */
    ghost predicate OnRunFrom(start: State, fair: bool)
      reads this
    {
      && Run(start, steps) == Some(View())
      && (fair ==> RenamesOntoAbsentTarget(start, steps))
    }

    /** The operation just made, or attempted, was step `e` from the state `was`. */
    ghost method Took(start: State, was: State, e: Event, fair: bool)
      requires Run(start, steps) == Some(was) && (fair ==> RenamesOntoAbsentTarget(start, steps))
      requires fair && e == ReplaceNeedsFallback ==> was.main.Some?
      requires Step(was, e).Some?
      requires var next := Step(was, e).value;
               next.main == main && next.previous == previous && next.temporary == temporary
      modifies this`steps, this`phase, this`contents, this`committed
      ensures Step(was, e) == Some(View()) && OnRunFrom(start, fair)
    {
      var next := Step(was, e).value;
      RunSplit(start, steps, [e]);
      if fair {
        AssumptionJoin(start, steps, [e]);
      }
      phase, contents, committed := next.phase, next.contents, next.committed;
      steps := steps + [e];
    }

    /** The queued part of writeDurableFile. It takes only steps of the machine above, from `Begin`
        to the removal of the temporary file. Its outcomes alone decide whether the new value is put in
        place and whether success is reported; when it is not put in place, the old one can be read. */
    method WriteContents(newContents: string, outcomes: Outcomes) returns (ok: bool)
      requires phase == Idle && steps == []
      modifies this
      ensures OnRunFrom(old(View()), outcomes.replace != FallbackError || old(main).Some?) && phase == Idle
      ensures var put := outcomes.PutsInPlace(old(main).Some?);
              && committed == (if put then old(committed) + [newContents] else old(committed))
              && (ok <==> put && outcomes.removeTemporary == Success
                          && (outcomes.replace == Success || outcomes.removeAside == Success))
              && (put ==> main == Some(newContents)
                          && previous == outcomes.PreviousAfter(old(main), old(previous)))
              && (!put && (outcomes.replace != FallbackError || old(main).Some?) ==>
                    ReadDurableText(View(), View()) == old(ReadDurableText(View(), View())))
      ensures ok ==> temporary == None
    {
      hide OnRunFrom, RenamesOntoAbsentTarget;
      ghost var start, fair := View(), outcomes.replace != FallbackError || main.Some?;
      assert RenamesOntoAbsentTarget(start, steps) by {
        NoStepsYet(start);
      }
      temporary := None;
      Took(start, start, Begin(newContents), fair);
      ok := ReplaceContents(start, fair, newContents, outcomes);
      // finally
      ghost var was := View();
      OnRun(start, fair);
      if outcomes.removeTemporary == Success {
        temporary := None;
        Took(start, was, TemporaryRemoved, fair);
      } else {
        Took(start, was, TemporaryNotRemoved, fair);
        ok := false;
      }
    }

    lemma OnRun(start: State, fair: bool)
      requires OnRunFrom(start, fair)
      ensures Run(start, steps) == Some(View()) && (fair ==> RenamesOntoAbsentTarget(start, steps))
    {
    }

    method ReplaceContents(ghost start: State, ghost fair: bool, newContents: string, outcomes: Outcomes)
      returns (ok: bool)
      requires OnRunFrom(start, fair) && phase == WritingTemporary && contents == newContents
      requires fair ==> outcomes.replace != FallbackError || main.Some?
      modifies this
      ensures OnRunFrom(start, fair) && phase == CleaningUp
      ensures var put := outcomes.PutsInPlace(old(main).Some?);
              && committed == (if put then old(committed) + [newContents] else old(committed))
              && (ok <==> put && (outcomes.replace == Success || outcomes.removeAside == Success))
              && (put ==> main == Some(newContents)
                          && previous == outcomes.PreviousAfter(old(main), old(previous)))
              && (!put && (outcomes.replace != FallbackError || old(main).Some?) ==>
                    ReadDurableText(View(), View()) == old(ReadDurableText(View(), View())))
    {
      hide RenamesOntoAbsentTarget, Run;
      ghost var was := View();
      if outcomes.writeTemporary != Success {
        Took(start, was, TemporaryFailed, fair);
        return false;
      }
      temporary := Some(newContents);
      Took(start, was, TemporaryWritten, fair);
      was := View();
      if outcomes.replace == Success {
        main, temporary := temporary, None;
        Took(start, was, Replaced, fair);
        return true;
      }
      if outcomes.replace != FallbackError {
        Took(start, was, ReplaceFailed, fair);
        return false;
      }
      Took(start, was, ReplaceNeedsFallback, fair);
      ok := ReplaceWithBackup(start, fair, newContents, outcomes);
    }

    /** The fallback for platforms that cannot rename over an existing file. */
    method ReplaceWithBackup(ghost start: State, ghost fair: bool, newContents: string, outcomes: Outcomes)
      returns (ok: bool)
      requires OnRunFrom(start, fair) && phase == RemovingBackup
      requires contents == newContents && temporary == Some(newContents)
      modifies this
      ensures OnRunFrom(start, fair) && phase == CleaningUp
      ensures var put := outcomes.FallbackPutsInPlace(old(main).Some?);
              && committed == (if put then old(committed) + [newContents] else old(committed))
              && (ok <==> put && outcomes.removeAside == Success)
              && (put ==> main == Some(newContents)
                          && previous == if outcomes.removeAside == Success then None else old(main))
              && (!put && old(main).Some? ==> ReadDurableText(View(), View()) == old(main))
    {
      hide RenamesOntoAbsentTarget, Run;
      ghost var was := View();
      if outcomes.removeBackup != Success {
        Took(start, was, BackupNotRemoved, fair);
        return false;
      }
      previous := None;
      Took(start, was, BackupRemoved, fair);
      was := View();
      if main.None? {
        Took(start, was, NothingToSetAside, fair);
      } else if outcomes.setAside == Success {
        previous, main := main, None;
        Took(start, was, SetAside, fair);
      } else {
        Took(start, was, SetAsideFailed, fair);
        return false;
      }
      ok := CommitReplacement(start, fair, newContents, outcomes);
    }

    method CommitReplacement(ghost start: State, ghost fair: bool, newContents: string, outcomes: Outcomes)
      returns (ok: bool)
      requires OnRunFrom(start, fair) && phase == Committing
      requires contents == newContents && temporary == Some(newContents)
      modifies this
      ensures OnRunFrom(start, fair) && phase == CleaningUp
      ensures committed == if outcomes.commit == Success then old(committed) + [newContents] else old(committed)
      ensures ok <==> outcomes.commit == Success && outcomes.removeAside == Success
      ensures main == if outcomes.commit == Success then Some(newContents) else old(main)
      ensures previous == if ok then None else old(previous)
    {
      hide RenamesOntoAbsentTarget, Run;
      ghost var was := View();
      if outcomes.commit != Success {
        Took(start, was, CommitFailed, fair);
        return false;
      }
      main, temporary := temporary, None;
      Took(start, was, Committed, fair);
      was := View();
      if outcomes.removeAside != Success {
        Took(start, was, AsideNotRemoved, fair);
        return false;
      }
      previous := None;
      Took(start, was, AsideRemoved, fair);
      return true;
    }
  }

  lemma NoStepsYet(s: State)
    ensures Run(s, []) == Some(s) && RenamesOntoAbsentTarget(s, [])
  {
  }
}
