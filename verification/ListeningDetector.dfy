/** Waiting for the server's "Listening on" line in a stream of output chunks
    (`apps/desktop/src/serverListeningDetector.ts`), with a buffer that keeps only the last
    characters of the stream. */
module ListeningDetector {
  import opened Selections
  import opened Text
  import opened Wrappers

  const LISTENING_LOG_FRAGMENT := "Listening on http://"
  const MAX_BUFFER_CHARS := 8192

  datatype Event = Push(chunk: string) | Fail(error: string)

  datatype Promise = Pending | Resolved | Rejected(error: string)

  function RemoveCr(s: string): string {
    if s == "" then "" else RemoveCr(s[..|s| - 1]) + if s[|s| - 1] == '\r' then "" else [s[|s| - 1]]
  }

  function OtherThanCr(s: string): set<nat> {
    set i: nat | i < |s| && s[i] != '\r'
  }

  /** Exactly the carriage returns go; everything else stays, in order. */
  lemma {:induction false} RemoveCrMeaning(s: string)
    ensures IsSelection(s, OtherThanCr(s), RemoveCr(s))
    decreases |s|
  {
    hide IsSelection;
    if s == "" {
      NothingSelected(s);
      assert OtherThanCr(s) == {};
    } else {
      var init, last := s[..|s| - 1], s[|s| - 1];
      RemoveCrMeaning(init);
      SelectNext(init, OtherThanCr(init), RemoveCr(init), last, last != '\r');
      assert init + [last] == s && RemoveCr(init) + "" == RemoveCr(init);
      assert OtherThanCr(s) == if last != '\r' then OtherThanCr(init) + {|init|} else OtherThanCr(init);
    }
  }

  /** The last `n` characters of `s`. */
  function Last(s: string, n: nat): string {
    if |s| <= n then s else s[|s| - n..]
  }

  // ---------- the detector that searches the whole stream ----------

  /** Everything pushed, without carriage returns. */
  ghost function StreamOf(events: seq<Event>): string {
    if events == [] then ""
    else
      var e := events[|events| - 1];
      StreamOf(events[..|events| - 1]) + if e.Push? then RemoveCr(e.chunk) else ""
  }

  ghost function Outcome(events: seq<Event>): Promise {
    if events == [] then Pending
    else
      var before := Outcome(events[..|events| - 1]);
      if !before.Pending? then before
      else
        match events[|events| - 1]
        case Push(_) => if Contains(StreamOf(events), LISTENING_LOG_FRAGMENT) then Resolved else Pending
        case Fail(error) => Rejected(error)
  }

  /** The k-th event is one that settles a detector that is still waiting. */
  ghost predicate Settles(events: seq<Event>, k: nat) {
    && k < |events|
    && (events[k].Push? ==> Contains(StreamOf(events[..k + 1]), LISTENING_LOG_FRAGMENT))
  }

  ghost predicate SettlesFirst(events: seq<Event>, k: nat) {
    Settles(events, k) && forall j: nat :: j < k ==> !Settles(events, j)
  }

  lemma SettlesInit(events: seq<Event>)
    requires events != []
    ensures var n := |events| - 1;
            && (forall k: nat :: k < n ==> (Settles(events, k) <==> Settles(events[..n], k)))
            && (forall k: nat :: k >= n ==> !Settles(events[..n], k))
            && (forall k: nat :: k > n ==> !Settles(events, k))
            && (Settles(events, n) <==>
                (events[n].Push? ==> Contains(StreamOf(events), LISTENING_LOG_FRAGMENT)))
  {
    hide Contains, StreamOf;
    var n := |events| - 1;
    forall k: nat | k < n
      ensures Settles(events, k) <==> Settles(events[..n], k)
    {
      assert events[..k + 1] == events[..n][..k + 1];
    }
    assert events[..n + 1] == events;
  }

  /** The outcome is that of the first settling event: later ones change nothing, and while there
      is none the detector waits. */
  lemma {:induction false} OutcomeMeaning(events: seq<Event>)
    ensures Outcome(events).Pending? <==> forall k: nat :: !Settles(events, k)
    ensures forall k: nat :: SettlesFirst(events, k) ==>
              Outcome(events) == match events[k] case Push(_) => Resolved case Fail(error) => Rejected(error)
    decreases |events|
  {
    if events == [] {
    } else {
      SettlesInit(events);
      hide Contains, StreamOf, Settles;
      var n := |events| - 1;
      var init := events[..n];
      OutcomeMeaning(init);
      assert Settles(events, n) ==> forall k: nat :: SettlesFirst(events, k) ==> k <= n;
      if !Outcome(init).Pending? {
        var k: nat :| Settles(init, k);
        assert Settles(events, k);
      }
      assert forall k: nat :: k < n && SettlesFirst(events, k) ==> SettlesFirst(init, k);
    }
  }

  lemma {:induction false} OutcomeStays(events: seq<Event>, more: seq<Event>)
    requires !Outcome(events).Pending?
    ensures Outcome(events + more) == Outcome(events)
    decreases |more|
  {
    hide Contains, StreamOf;
    if more == [] {
      assert events + more == events;
    } else {
      var all := events + more;
      assert all[..|all| - 1] == events + more[..|more| - 1];
      OutcomeStays(events, more[..|more| - 1]);
    }
  }

  // ---------- the window ----------

  /** Searching only the last `window` characters and the new text finds the pattern whenever
      searching everything does, for every stream that did not contain it before, exactly when
      the window holds all of the pattern but its last character. */
  lemma WindowSuffices(pattern: string, window: nat)
    requires pattern != ""
    ensures |pattern| <= window + 1 <==>
            forall stream, text :: !Contains(stream, pattern) ==>
              (Contains(Last(stream, window) + text, pattern) <==> Contains(stream + text, pattern))
  {
    hide Contains;
    if |pattern| <= window + 1 {
      forall stream, text | !Contains(stream, pattern)
        ensures Contains(Last(stream, window) + text, pattern) <==> Contains(stream + text, pattern)
      {
        WindowFinds(stream, text, pattern, window);
      }
    } else {
      var n := |pattern| - 1;
      var stream, text := pattern[..n], pattern[n..];
      TooShort(stream, pattern);
      TooShort(Last(stream, window) + text, pattern);
      assert stream + text == "" + pattern + "";
      ContainsPart("", pattern, "");
    }
  }

  lemma TooShort(s: string, pattern: string)
    requires |s| < |pattern|
    ensures !Contains(s, pattern)
  {
  }

  lemma WindowFinds(stream: string, text: string, pattern: string, window: nat)
    requires |pattern| <= window + 1 && !Contains(stream, pattern)
    ensures Contains(Last(stream, window) + text, pattern) <==> Contains(stream + text, pattern)
  {
    hide OccursAt;
    var kept, whole := Last(stream, window), stream + text;
    var d := |stream| - |kept|;
    assert stream == stream[..d] + kept;
    assert whole == stream[..d] + (kept + text);
    if Contains(kept + text, pattern) {
      OccursInRight(stream[..d], kept + text, pattern, IndexOf(kept + text, pattern, 0).value);
    }
    if Contains(whole, pattern) {
      var i := IndexOf(whole, pattern, 0).value;
      if i + |pattern| <= |stream| {
        OccursInLeft(stream, text, pattern, i);
      } else {
        OccursInRight(stream[..d], kept + text, pattern, i - d);
      }
    }
  }

  // ---------- how chunks are cut does not matter ----------

  lemma {:induction false} RemoveCrAppend(a: string, b: string)
    ensures RemoveCr(a + b) == RemoveCr(a) + RemoveCr(b)
    decreases |b|
  {
    if b == "" {
      assert a + b == a;
    } else {
      var s := a + b;
      assert s[..|s| - 1] == a + b[..|b| - 1] && s[|s| - 1] == b[|b| - 1];
      RemoveCrAppend(a, b[..|b| - 1]);
    }
  }

  ghost function Chunks(chunks: seq<string>): seq<Event> {
    seq(|chunks|, i requires 0 <= i < |chunks| => Push(chunks[i]))
  }

  ghost function Concat(chunks: seq<string>): string {
    if chunks == [] then "" else Concat(chunks[..|chunks| - 1]) + chunks[|chunks| - 1]
  }

  /** However the output is cut into chunks, the detector has resolved exactly when the output as
      a whole, carriage returns removed, contains the fragment. */
  lemma {:induction false} CutsDoNotMatter(chunks: seq<string>)
    ensures StreamOf(Chunks(chunks)) == RemoveCr(Concat(chunks))
    ensures Outcome(Chunks(chunks)) ==
            if Contains(RemoveCr(Concat(chunks)), LISTENING_LOG_FRAGMENT) then Resolved else Pending
    decreases |chunks|
  {
    hide Contains;
    if chunks == [] {
      TooShort("", LISTENING_LOG_FRAGMENT);
    } else {
      var n := |chunks| - 1;
      var init := chunks[..n];
      CutsDoNotMatter(init);
      assert Chunks(chunks)[..n] == Chunks(init);
      RemoveCrAppend(Concat(init), chunks[n]);
      var before, text := RemoveCr(Concat(init)), RemoveCr(chunks[n]);
      if Contains(before, LISTENING_LOG_FRAGMENT) {
        assert before + text == "" + before + text;
        ContainsPart("", before, text);
        ContainsTrans(before + text, before, LISTENING_LOG_FRAGMENT);
      }
    }
  }

  // ---------- the class ----------

  lemma OutcomeOfPush(events: seq<Event>, chunk: string)
    ensures var more := events + [Push(chunk)];
            && StreamOf(more) == StreamOf(events) + RemoveCr(chunk)
            && Outcome(more) == if !Outcome(events).Pending? then Outcome(events)
                                else if Contains(StreamOf(more), LISTENING_LOG_FRAGMENT) then Resolved
                                else Pending
  {
    hide Contains;
    var more := events + [Push(chunk)];
    assert more[..|more| - 1] == events && more[|more| - 1] == Push(chunk);
  }

  class ServerListeningDetector {
    var buffer: string
    var settled: bool
    var promise: Promise
    ghost var events: seq<Event>

    /** The promise is that of the detector that searches everything pushed so far. */
    ghost predicate Valid()
      reads this
    {
      && promise == Outcome(events)
      && settled == !promise.Pending?
      && (!settled ==>
            && !Contains(StreamOf(events), LISTENING_LOG_FRAGMENT)
            && buffer == Last(StreamOf(events), MAX_BUFFER_CHARS))
    }

    constructor ()
      ensures Valid() && events == [] && promise.Pending?
    {
      buffer, settled, promise, events := "", false, Pending, [];
      TooShort("", LISTENING_LOG_FRAGMENT);
    }

    method ResolvePromise()
      modifies this`settled, this`promise
      ensures settled && promise == if old(settled) then old(promise) else Resolved
    {
      if !settled {
        settled := true;
        promise := Resolved;
      }
    }

    method Push(chunk: string)
      requires Valid()
      modifies this
      ensures Valid() && events == old(events) + [Event.Push(chunk)]
      ensures !old(promise).Pending? ==> promise == old(promise) && buffer == old(buffer)
      ensures |buffer| <= MAX_BUFFER_CHARS || settled
    {
      hide IndexOf, Contains, RemoveCr;
      ghost var before := events;
      events := events + [Event.Push(chunk)];
      OutcomeOfPush(before, chunk);
      hide Outcome, StreamOf;
      if settled {
        return;
      }
      var text := RemoveCr(chunk);
      WindowFinds(StreamOf(before), text, LISTENING_LOG_FRAGMENT, MAX_BUFFER_CHARS);
      buffer := buffer + text;
      if Contains(buffer, LISTENING_LOG_FRAGMENT) {
        ResolvePromise();
        return;
      }
      LastOfLast(StreamOf(before), text, MAX_BUFFER_CHARS);
      if |buffer| > MAX_BUFFER_CHARS {
        buffer := buffer[|buffer| - MAX_BUFFER_CHARS..];
      }
    }

    method Fail(error: string)
      requires Valid()
      modifies this
      ensures Valid() && events == old(events) + [Event.Fail(error)]
      ensures promise == if old(promise).Pending? then Rejected(error) else old(promise)
    {
      ghost var before := events;
      events := events + [Event.Fail(error)];
      assert events[..|events| - 1] == before;
      if !settled {
        settled := true;
        promise := Rejected(error);
      }
    }
  }

  lemma LastOfLast(stream: string, text: string, n: nat)
    ensures Last(Last(stream, n) + text, n) == Last(stream + text, n)
  {
  }
}
