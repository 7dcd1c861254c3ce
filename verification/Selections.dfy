/** What a filter keeps of a sequence, in order, told by the indices of what it keeps. */
module Selections {
  ghost predicate Ascends(at: seq<nat>) {
    forall i, j :: 0 <= i < j < |at| ==> at[i] < at[j]
  }

  /** `at` lists the chosen indices, each once and in ascending order. */
  ghost predicate Lists(at: seq<nat>, chosen: set<nat>) {
    Ascends(at) && forall i: nat :: i in at <==> i in chosen
  }

  ghost predicate Picks<T>(s: seq<T>, at: seq<nat>, r: seq<T>) {
    |at| == |r| && forall k :: 0 <= k < |at| ==> at[k] < |s| && r[k] == s[at[k]]
  }

  /** `r` is what stands in `s` at the chosen indices, in the order of `s`. */
  ghost predicate IsSelection<T>(s: seq<T>, chosen: set<nat>, r: seq<T>) {
    exists at :: Lists(at, chosen) && Picks(s, at, r)
  }

  lemma NothingSelected<T>(s: seq<T>)
    ensures IsSelection(s, {}, [])
  {
    var at: seq<nat> := [];
    assert Lists(at, {}) && Picks(s, at, []);
  }

  lemma ListNext(at: seq<nat>, chosen: set<nat>, next: nat)
    requires Lists(at, chosen) && forall i :: i in at ==> i < next
    ensures Lists(at + [next], chosen + {next})
  {
    var more := at + [next];
    assert forall k :: 0 <= k < |at| ==> at[k] in at;
    assert forall i: nat :: i in more <==> i in at || i == next;
  }

  lemma PickNext<T>(init: seq<T>, at: seq<nat>, r: seq<T>, last: T)
    requires Picks(init, at, r)
    ensures Picks(init + [last], at, r) && Picks(init + [last], at + [|init|], r + [last])
    ensures forall i :: i in at ==> i < |init|
  {
  }

  /** The next element is kept, and its index chosen, or neither. */
  lemma SelectNext<T>(init: seq<T>, chosen: set<nat>, r: seq<T>, last: T, keep: bool)
    requires IsSelection(init, chosen, r)
    ensures IsSelection(init + [last], if keep then chosen + {|init|} else chosen, if keep then r + [last] else r)
  {
    hide Lists, Picks;
    var at :| Lists(at, chosen) && Picks(init, at, r);
    var next: nat := |init|;
    PickNext(init, at, r, last);
    ListNext(at, chosen, next);
    assert keep ==> Lists(at + [next], chosen + {next}) && Picks(init + [last], at + [next], r + [last]);
  }
}
