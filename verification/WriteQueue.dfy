/** The per-path promise chain of scripts/lib/durableFile.ts: the module-level `writeQueues` map and
    the writes that wait on one another through it. */
module WriteQueue {
  import opened Wrappers

  datatype Status = Waiting | Running | Settled

  /** A call of writeDurableFile: its path, the promise it chained onto, and how far it got. */
  datatype Write = Write(path: string, after: Option<nat>, status: Status)

  predicate SamePath(writes: seq<Write>, i: nat, j: nat)
    requires i < |writes| && j < |writes|
  {
    writes[i].path == writes[j].path
  }

  predicate IsSettled(writes: seq<Write>, i: nat) {
    i < |writes| && writes[i].status == Settled
  }

  /** Write `j` chained onto the latest earlier write to its path, or found all of them settled. */
  predicate ChainedAt(writes: seq<Write>, j: nat)
    requires j < |writes|
  {
    match writes[j].after
    case Some(p) =>
      && p < j && SamePath(writes, p, j)
      && forall k :: p < k < j ==> !SamePath(writes, k, j)
    case None =>
      forall k :: 0 <= k < j && SamePath(writes, k, j) ==> IsSettled(writes, k)
  }

  predicate Chained(writes: seq<Write>) {
    forall j :: 0 <= j < |writes| ==> ChainedAt(writes, j)
  }

  /** The map names the latest write of a path; a path without entry has no unsettled write. */
  predicate MapsLatest(writes: seq<Write>, queues: map<string, nat>) {
    && (forall path :: path in queues ==>
          && queues[path] < |writes| && writes[queues[path]].path == path
          && forall k :: queues[path] < k < |writes| ==> writes[k].path != path)
    && (forall k :: 0 <= k < |writes| && writes[k].path !in queues ==> IsSettled(writes, k))
  }

  /** No write has started before every earlier write to its path has settled. */
  predicate InOrder(writes: seq<Write>) {
    forall i, j :: 0 <= i < j < |writes| && SamePath(writes, i, j) && writes[j].status != Waiting ==>
      IsSettled(writes, i)
  }

  /** Two writes to one path are never under way together. */
  lemma NeverOverlap(writes: seq<Write>, i: nat, j: nat)
    requires InOrder(writes) && i < |writes| && j < |writes| && SamePath(writes, i, j)
    requires writes[i].status == Running && writes[j].status == Running
    ensures i == j
  {
    assert i < j ==> IsSettled(writes, i);
    assert j < i ==> IsSettled(writes, j);
  }

  ghost predicate Orderly(writes: seq<Write>, queues: map<string, nat>) {
    Chained(writes) && MapsLatest(writes, queues) && InOrder(writes)
  }

  function Latest(queues: map<string, nat>, path: string): Option<nat> {
    if path in queues then Some(queues[path]) else None
  }

  lemma CallKeepsOrder(writes: seq<Write>, queues: map<string, nat>, path: string)
    requires Orderly(writes, queues)
    ensures Orderly(writes + [Write(path, Latest(queues, path), Waiting)], queues[path := |writes|])
  {
    var more := writes + [Write(path, Latest(queues, path), Waiting)];
    assert forall k :: 0 <= k < |writes| ==> more[k] == writes[k];
    forall j | 0 <= j < |more| ensures ChainedAt(more, j) {
      if j < |writes| {
        assert ChainedAt(writes, j);
        assert forall k :: 0 <= k < j ==> SamePath(more, k, j) == SamePath(writes, k, j);
        assert forall k :: 0 <= k < j ==> IsSettled(more, k) == IsSettled(writes, k);
      } else {
        assert forall k :: 0 <= k < j ==> IsSettled(more, k) == IsSettled(writes, k);
      }
    }
    assert forall k :: 0 <= k < |writes| ==> IsSettled(more, k) == IsSettled(writes, k);
    forall i, j | 0 <= i < j < |more| && SamePath(more, i, j) && more[j].status != Waiting
      ensures IsSettled(more, i)
    {
      assert SamePath(writes, i, j);
    }
  }

  /** What may start finds every earlier write to its path settled. */
  lemma EarlierAreSettled(writes: seq<Write>, id: nat)
    requires Chained(writes) && InOrder(writes) && id < |writes|
    requires writes[id].after.None? || IsSettled(writes, writes[id].after.value)
    ensures forall k :: 0 <= k < id && SamePath(writes, k, id) ==> IsSettled(writes, k)
  {
    assert ChainedAt(writes, id);
    if writes[id].after.Some? {
      var p := writes[id].after.value;
      forall k | 0 <= k < id && SamePath(writes, k, id) ensures IsSettled(writes, k) {
        assert k < p ==> SamePath(writes, k, p);
      }
    }
  }

  /** Moving one write on, to Running only when its turn has come, keeps the order. */
  lemma AdvanceKeepsOrder(writes: seq<Write>, queues: map<string, nat>, id: nat, next: Status)
    requires Orderly(writes, queues) && id < |writes|
    requires next == Running ==> forall k :: 0 <= k < id && SamePath(writes, k, id) ==> IsSettled(writes, k)
    requires next == Running ==> writes[id].status == Waiting
    requires next == Settled ==> writes[id].status == Running
    requires next != Waiting
    ensures Orderly(writes[id := writes[id].(status := next)], queues)
  {
    var moved := writes[id := writes[id].(status := next)];
    assert forall i, j :: 0 <= i < |moved| && 0 <= j < |moved| ==> SamePath(moved, i, j) == SamePath(writes, i, j);
    assert forall k :: IsSettled(writes, k) ==> IsSettled(moved, k);
    forall j | 0 <= j < |moved| ensures ChainedAt(moved, j) {
      assert ChainedAt(writes, j);
    }
    forall i, j | 0 <= i < j < |moved| && SamePath(moved, i, j) && moved[j].status != Waiting
      ensures IsSettled(moved, i)
    {
      assert SamePath(writes, i, j);
    }
  }

  lemma ReleaseKeepsOrder(writes: seq<Write>, queues: map<string, nat>, id: nat)
    requires Orderly(writes, queues) && IsSettled(writes, id) && Latest(queues, writes[id].path) == Some(id)
    ensures Orderly(writes, queues - {writes[id].path})
  {
    forall k | 0 <= k < |writes| && writes[k].path == writes[id].path ensures IsSettled(writes, k) {
      assert k < id ==> SamePath(writes, k, id);
    }
  }

  // ---------- Runs ----------

  datatype State = State(writes: seq<Write>, queues: map<string, nat>)

  const EMPTY := State([], map[])

  datatype Event = Called(path: string) | Started(id: nat) | Ended(id: nat) | Released(id: nat)

  predicate IsReady(writes: seq<Write>, id: nat) {
    && id < |writes| && writes[id].status == Waiting
    && (writes[id].after.None? || IsSettled(writes, writes[id].after.value))
  }

  predicate Enabled(s: State, e: Event) {
    match e
    case Called(_) => true
    case Started(id) => IsReady(s.writes, id)
    case Ended(id) => id < |s.writes| && s.writes[id].status == Running
    case Released(id) => IsSettled(s.writes, id)
  }

  function Advanced(writes: seq<Write>, id: nat, next: Status): seq<Write>
    requires id < |writes|
  {
    writes[id := writes[id].(status := next)]
  }

  function Step(s: State, e: Event): State
    requires Enabled(s, e)
  {
    match e
    case Called(path) =>
      State(s.writes + [Write(path, Latest(s.queues, path), Waiting)], s.queues[path := |s.writes|])
    case Started(id) => s.(writes := Advanced(s.writes, id, Running))
    case Ended(id) => s.(writes := Advanced(s.writes, id, Settled))
    case Released(id) =>
      var path := s.writes[id].path;
      if Latest(s.queues, path) == Some(id) then s.(queues := s.queues - {path}) else s
  }

  ghost predicate IsRun(s: State, events: seq<Event>, t: State)
    decreases |events|
  {
    if events == [] then t == s
    else Enabled(s, events[0]) && IsRun(Step(s, events[0]), events[1..], t)
  }

  lemma StepKeepsOrder(s: State, e: Event)
    requires Orderly(s.writes, s.queues) && Enabled(s, e)
    ensures Orderly(Step(s, e).writes, Step(s, e).queues)
  {
    match e
    case Called(path) => CallKeepsOrder(s.writes, s.queues, path);
    case Started(id) =>
      EarlierAreSettled(s.writes, id);
      hide Orderly;
      AdvanceKeepsOrder(s.writes, s.queues, id, Running);
    case Ended(id) =>
      hide Orderly;
      AdvanceKeepsOrder(s.writes, s.queues, id, Settled);
    case Released(id) =>
      if Latest(s.queues, s.writes[id].path) == Some(id) {
        ReleaseKeepsOrder(s.writes, s.queues, id);
      }
  }

  lemma {:induction false} RunKeepsOrder(s: State, events: seq<Event>, t: State)
    requires Orderly(s.writes, s.queues) && IsRun(s, events, t)
    ensures Orderly(t.writes, t.queues)
    decreases |events|
  {
    hide Orderly;
    if events == [] {
    } else {
      StepKeepsOrder(s, events[0]);
      RunKeepsOrder(Step(s, events[0]), events[1..], t);
    }
  }

  /** In every run from the empty queue: two writes to one path are never under way together, and
      no write has started before every earlier call for its path has settled. */
  lemma WritesRunInCallOrder(events: seq<Event>, s: State, i: nat, j: nat)
    requires IsRun(EMPTY, events, s) && i < j < |s.writes| && SamePath(s.writes, i, j)
    ensures s.writes[j].status != Waiting ==> IsSettled(s.writes, i)
    ensures !(s.writes[i].status == Running && s.writes[j].status == Running)
  {
    RunKeepsOrder(EMPTY, events, s);
  }

  /** The queue never stalls: in every run, while some write has not settled, one of the unsettled
      writes is under way or may start. */
  lemma SomeWriteCanGoOn(events: seq<Event>, s: State, id: nat)
    requires IsRun(EMPTY, events, s) && id < |s.writes| && !IsSettled(s.writes, id)
    ensures exists k: nat :: k < |s.writes| && (s.writes[k].status == Running || IsReady(s.writes, k))
  {
    RunKeepsOrder(EMPTY, events, s);
    var first := FirstUnsettled(s.writes, id);
    hide IsRun, MapsLatest, InOrder, Chained, ChainedAt;
    FirstGoesOn(s.writes, first);
  }

  lemma FirstGoesOn(writes: seq<Write>, first: nat)
    requires Chained(writes) && first < |writes| && !IsSettled(writes, first)
    requires forall k :: 0 <= k < first ==> IsSettled(writes, k)
    ensures writes[first].status == Running || IsReady(writes, first)
  {
    assert ChainedAt(writes, first);
  }

  lemma FirstUnsettled(writes: seq<Write>, id: nat) returns (first: nat)
    requires id < |writes| && !IsSettled(writes, id)
    ensures first <= id && !IsSettled(writes, first)
    ensures forall k :: 0 <= k < first ==> IsSettled(writes, k)
  {
    first := 0;
    while IsSettled(writes, first)
      invariant first <= id && forall k :: 0 <= k < first ==> IsSettled(writes, k)
      decreases id - first
    {
      first := first + 1;
    }
  }

  /** Write `id` is the latest to its path. */
  predicate IsLatest(writes: seq<Write>, id: nat, path: string) {
    && id < |writes| && writes[id].path == path
    && forall k :: id < k < |writes| ==> writes[k].path != path
  }

  ghost function Returned(events: seq<Event>): set<nat> {
    set e | e in events && e.Released? :: e.id
  }

  ghost predicate NamesLatest(s: State, returned: set<nat>) {
    && (forall id :: id in returned ==> id < |s.writes|)
    && forall path, id: nat ::
         path in s.queues && s.queues[path] == id <==> IsLatest(s.writes, id, path) && id !in returned
  }

  /** What is added may be the latest to its path instead. */
  lemma SamePaths(writes: seq<Write>, more: seq<Write>, id: nat, path: string)
    requires |writes| <= |more| <= |writes| + 1
    requires forall k :: 0 <= k < |writes| ==> more[k].path == writes[k].path
    ensures IsLatest(more, id, path) <==>
            if |more| > |writes| && more[|writes|].path == path then id == |writes| else IsLatest(writes, id, path)
  {
  }

  lemma StepNames(s: State, e: Event, returned: set<nat>)
    requires NamesLatest(s, returned) && Enabled(s, e)
    ensures NamesLatest(Step(s, e), returned + Returned([e]))
  {
    var t, more := Step(s, e), returned + Returned([e]);
    assert e.Released? ==> e in [e] && e.id in more;
    assert forall k :: 0 <= k < |s.writes| ==> t.writes[k].path == s.writes[k].path;
    assert e.Called? ==> t.writes[|s.writes|].path == e.path;
    forall path, id: nat
      ensures path in t.queues && t.queues[path] == id <==> IsLatest(t.writes, id, path) && id !in more
    {
      assert path in s.queues && s.queues[path] == id <==> IsLatest(s.writes, id, path) && id !in returned;
      SamePaths(s.writes, t.writes, id, path);
    }
  }

  lemma {:induction false} RunNames(s: State, events: seq<Event>, t: State, returned: set<nat>)
    requires NamesLatest(s, returned) && IsRun(s, events, t)
    ensures NamesLatest(t, returned + Returned(events))
    decreases |events|
  {
    hide NamesLatest, Step, Enabled;
    if events == [] {
      assert returned + Returned([]) == returned;
    } else {
      var e, rest := events[0], events[1..];
      StepNames(s, e, returned);
      RunNames(Step(s, e), rest, t, returned + Returned([e]));
      assert events == [e] + rest;
      assert returned + Returned([e]) + Returned(rest) == returned + Returned(events);
    }
  }

  /** In every run: the map holds exactly the latest write to a path whose caller has not returned, so
      it is empty once all callers have. */
  lemma QueueHoldsExactly(events: seq<Event>, s: State, path: string, id: nat)
    requires IsRun(EMPTY, events, s)
    ensures path in s.queues && s.queues[path] == id <==>
            IsLatest(s.writes, id, path) && Released(id) !in events
  {
    RunNames(EMPTY, events, s, {});
    hide IsRun;
    assert Released(id) in events <==> id in Returned(events) by {
      assert forall e :: e in events && e.Released? && e.id == id ==> e == Released(id);
    }
    assert {} + Returned(events) == Returned(events);
  }

  lemma StepMoves(s: State, e: Event, id: nat)
    requires Enabled(s, e)
    ensures |s.writes| <= |Step(s, e).writes|
    ensures id < |s.writes| && s.writes[id].status == Settled ==>
              Step(s, e).writes[id].status == Settled && e != Ended(id)
    ensures id < |s.writes| && s.writes[id].status == Running ==>
              Step(s, e).writes[id].status == if e == Ended(id) then Settled else Running
    ensures id < |Step(s, e).writes| && (id < |s.writes| ==> s.writes[id].status == Waiting) ==>
              Step(s, e).writes[id].status == (if e == Started(id) then Running else Waiting) && e != Ended(id)
    ensures id >= |Step(s, e).writes| ==> e != Ended(id)
  {
  }

  /** In every run: a write has settled exactly when it has ended, however it ended, and a write that
      failed holds up no other. */
  lemma {:induction false} SettledMeansEnded(s: State, events: seq<Event>, t: State, id: nat)
    requires IsRun(s, events, t) && id < |t.writes|
    ensures t.writes[id].status == Settled <==> IsSettled(s.writes, id) || Ended(id) in events
    decreases |events|
  {
    hide Step, Enabled;
    if events == [] {
    } else {
      assert events == [events[0]] + events[1..];
      StepMoves(s, events[0], id);
      SettledMeansEnded(Step(s, events[0]), events[1..], t, id);
    }
  }

  class WriteQueues {
    var queues: map<string, nat>
    var writes: seq<Write>

    ghost function View(): State
      reads this
    {
      State(writes, queues)
    }

    constructor ()
      ensures Orderly(writes, queues) && View() == EMPTY
    {
      queues := map[];
      writes := [];
    }

    /** A call: chain onto the promise of the path, if there is one, and become that promise. */
    method Call(path: string) returns (id: nat)
      requires Orderly(writes, queues)
      modifies this
      ensures Orderly(writes, queues) && id == old(|writes|)
      ensures View() == Step(old(View()), Called(path))
    {
      hide Orderly;
      CallKeepsOrder(writes, queues, path);
      id := |writes|;
      var previous := if path in queues then Some(queues[path]) else None;
      writes := writes + [Write(path, previous, Waiting)];
      queues := queues[path := id];
    }

    /** The promise a write waited for is settled, whichever way: its own steps begin. */
    method Start(id: nat)
      requires Orderly(writes, queues) && IsReady(writes, id)
      modifies this`writes
      ensures Orderly(writes, queues) && View() == Step(old(View()), Started(id))
      ensures forall k :: 0 <= k < id && SamePath(old(writes), k, id) ==> IsSettled(old(writes), k)
    {
      EarlierAreSettled(writes, id);
      hide Orderly;
      AdvanceKeepsOrder(writes, queues, id, Running);
      writes := writes[id := writes[id].(status := Running)];
    }

    method Settle(id: nat)
      requires Orderly(writes, queues) && id < |writes| && writes[id].status == Running
      modifies this`writes
      ensures Orderly(writes, queues) && View() == Step(old(View()), Ended(id))
    {
      hide Orderly;
      AdvanceKeepsOrder(writes, queues, id, Settled);
      writes := writes[id := writes[id].(status := Settled)];
    }

    /** The caller's `finally`, some time after its write settled. */
    method Release(id: nat)
      requires Orderly(writes, queues) && IsSettled(writes, id)
      modifies this`queues
      ensures Orderly(writes, queues) && View() == Step(old(View()), Released(id))
    {
      hide Orderly;
      var path := writes[id].path;
      if path in queues && queues[path] == id {
        ReleaseKeepsOrder(writes, queues, id);
        queues := queues - {path};
      }
    }
  }
}
