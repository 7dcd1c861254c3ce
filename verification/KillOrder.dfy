/** The kill order of a process tree (scripts/dev-runner.ts): a depth-first post-order over a
    process listing that may hold duplicates, self-parents and cycles. */
module KillOrder {

  datatype Entry = Entry(pid: int, ppid: int, command: string)

  /** The children the listing gives a process, in listing order; a self-parent is no child. */
  function ChildrenOf(entries: seq<Entry>, parent: int): (r: seq<int>)
    ensures forall c :: c in r <==> exists e :: e in entries && e.ppid == parent && e.pid == c && c != parent
  {
    if entries == [] then []
    else
      var init, last := entries[..|entries| - 1], entries[|entries| - 1];
      assert forall e :: e in entries <==> e in init || e == last;
      ChildrenOf(init, parent)
      + if last.ppid == parent && last.pid != parent then [last.pid] else []
  }

  function Pids(entries: seq<Entry>): set<int> {
    set e | e in entries :: e.pid
  }

  // ---------- Reachability ----------

  ghost predicate IsPath(entries: seq<Entry>, path: seq<int>, a: int, b: int) {
    && |path| > 0 && path[0] == a && path[|path| - 1] == b
    && forall k :: 1 <= k < |path| ==> path[k] in ChildrenOf(entries, path[k - 1])
  }

  /** `b` is `a` or a descendant of `a` in the listing. */
  ghost predicate Reaches(entries: seq<Entry>, a: int, b: int) {
    exists path :: IsPath(entries, path, a, b)
  }

  lemma ReachesItself(entries: seq<Entry>, a: int)
    ensures Reaches(entries, a, a)
  {
    assert IsPath(entries, [a], a, a);
  }

  lemma ReachesChild(entries: seq<Entry>, a: int, b: int, c: int)
    requires Reaches(entries, a, b) && c in ChildrenOf(entries, b)
    ensures Reaches(entries, a, c)
  {
    var path :| IsPath(entries, path, a, b);
    assert IsPath(entries, path + [c], a, c);
  }

  lemma ReachesThroughChild(entries: seq<Entry>, a: int, c: int, b: int)
    requires c in ChildrenOf(entries, a) && Reaches(entries, c, b)
    ensures Reaches(entries, a, b)
  {
    var path :| IsPath(entries, path, c, b);
    var longer := [a] + path;
    assert forall k :: 0 < k < |longer| ==> longer[k] == path[k - 1];
    assert IsPath(entries, longer, a, b);
  }

  lemma {:induction false} ClosedUnderChildren(entries: seq<Entry>, s: set<int>, path: seq<int>, a: int, b: int)
    requires a in s && IsPath(entries, path, a, b)
    requires forall p, c :: p in s && c in ChildrenOf(entries, p) ==> c in s
    ensures b in s
    decreases |path|
  {
    if |path| <= 1 {
    } else {
      var rest := path[1..];
      assert path[1] in ChildrenOf(entries, path[0]);
      ClosedUnderChildren(entries, s, rest, path[1], b);
    }
  }

  // ---------- The specification ----------

  predicate Distinct(s: seq<int>) {
    forall i, j :: 0 <= i < j < |s| ==> s[i] != s[j]
  }

  /** Every child stands before its parent, unless the child itself reaches the parent. */
  ghost predicate ChildrenFirst(entries: seq<Entry>, order: seq<int>) {
    forall k, c :: 0 <= k < |order| && c in ChildrenOf(entries, order[k]) ==>
      c in order[..k] || Reaches(entries, c, order[k])
  }

  ghost predicate IsKillOrder(entries: seq<Entry>, root: int, order: seq<int>) {
    && Distinct(order)
    && ((forall e :: e in entries ==> e.pid != root) ==> order == [])
    && ((exists e :: e in entries && e.pid == root) ==>
        && (forall p :: p in order <==> Reaches(entries, root, p))
        && |order| > 0 && order[|order| - 1] == root)
    && ChildrenFirst(entries, order)
  }

  // ---------- The walk ----------

  function Elements(s: seq<int>): set<int> {
    set x | x in s
  }

  function Lookup(children: map<int, seq<int>>, parent: int): seq<int> {
    if parent in children then children[parent] else []
  }

  ghost predicate Lists(children: map<int, seq<int>>, entries: seq<Entry>) {
    forall p :: Lookup(children, p) == ChildrenOf(entries, p)
  }

  /** `open` are the processes entered and not yet left; every other visited one is in `order`,
      with all its children visited too. */
  ghost predicate Consistent(entries: seq<Entry>, visited: set<int>, order: seq<int>, open: set<int>) {
    && Distinct(order)
    && visited == Elements(order) + open
    && Elements(order) !! open
    && (forall p, c :: p in order && c in ChildrenOf(entries, p) ==> c in visited)
    && ChildrenFirst(entries, order)
  }

  lemma Enter(entries: seq<Entry>, visited: set<int>, order: seq<int>, open: set<int>, pid: int)
    requires Consistent(entries, visited, order, open) && pid !in visited
    ensures Consistent(entries, visited + {pid}, order, open + {pid})
  {
  }

  lemma Leave(entries: seq<Entry>, visited: set<int>, order: seq<int>, open: set<int>, pid: int)
    requires Consistent(entries, visited, order, open + {pid}) && pid !in open
    requires forall p :: p in open ==> Reaches(entries, p, pid)
    requires forall c :: c in ChildrenOf(entries, pid) ==> c in visited
    ensures Consistent(entries, visited, order + [pid], open)
  {
    hide Reaches, ChildrenOf;
    assert Elements(order + [pid]) == Elements(order) + {pid};
    ReachesItself(entries, pid);
    var longer := order + [pid];
    forall k, c | 0 <= k < |longer| && c in ChildrenOf(entries, longer[k])
      ensures c in longer[..k] || Reaches(entries, c, longer[k])
    {
      if k < |order| {
        assert longer[..k] == order[..k];
      } else {
        assert longer[..k] == order;
      }
    }
  }

  class Walk {
    ghost const entries: seq<Entry>
    const children: map<int, seq<int>>
    var visited: set<int>
    var order: seq<int>

    constructor (ghost entries: seq<Entry>, children: map<int, seq<int>>)
      requires Lists(children, entries)
      ensures this.entries == entries && this.children == children
      ensures visited == {} && order == [] && Consistent(entries, visited, order, {})
    {
      this.entries := entries;
      this.children := children;
      visited := {};
      order := [];
    }

    method Visit(pid: int, ghost open: set<int>)
      requires Lists(children, entries) && Consistent(entries, visited, order, open)
      requires pid in Pids(entries)
      requires forall p :: p in open ==> Reaches(entries, p, pid)
      modifies this
      ensures Consistent(entries, visited, order, open) && old(visited) <= visited && pid in visited
      ensures forall p :: p in order ==> p in old(order) || Reaches(entries, pid, p)
      ensures pid !in old(visited) ==> |order| > 0 && order[|order| - 1] == pid
      decreases Pids(entries) - visited
    {
      hide Consistent, Reaches, Lists;
      if pid in visited {
        return;
      }
      Enter(entries, visited, order, open, pid);
      visited := visited + {pid};
      OpenIsVisited(entries, visited - {pid}, order, open);
      ReachesItself(entries, pid);
      ChildrenListed(children, entries, pid);
      var kids := Lookup(children, pid);
      for i := 0 to |kids|
        invariant Consistent(entries, visited, order, open + {pid})
        invariant old(visited) + {pid} <= visited
        invariant forall j :: 0 <= j < i ==> kids[j] in visited
        invariant forall p :: p in order ==> p in old(order) || Reaches(entries, pid, p)
      {
        var child := kids[i];
        assert child in ChildrenOf(entries, pid);
        forall p | p in open + {pid} ensures Reaches(entries, p, child) {
          ReachesChild(entries, p, pid, child);
        }
        ghost var before := order;
        Visit(child, open + {pid});
        forall p | p in order && p !in before ensures Reaches(entries, pid, p) {
          ReachesThroughChild(entries, pid, child, p);
        }
      }
      Leave(entries, visited, order, open, pid);
      order := order + [pid];
    }
  }

  lemma OpenIsVisited(entries: seq<Entry>, visited: set<int>, order: seq<int>, open: set<int>)
    requires Consistent(entries, visited, order, open)
    ensures open <= visited
  {
  }

  lemma ChildrenListed(children: map<int, seq<int>>, entries: seq<Entry>, pid: int)
    requires Lists(children, entries)
    ensures Lookup(children, pid) == ChildrenOf(entries, pid)
    ensures forall c :: c in ChildrenOf(entries, pid) ==> c in Pids(entries)
  {
  }

  lemma ListsNext(children: map<int, seq<int>>, entries: seq<Entry>, i: nat)
    requires i < |entries| && Lists(children, entries[..i])
    ensures var e := entries[i];
            Lists(if e.pid == e.ppid then children else children[e.ppid := Lookup(children, e.ppid) + [e.pid]],
                  entries[..i + 1])
  {
    var e := entries[i];
    var next := if e.pid == e.ppid then children else children[e.ppid := Lookup(children, e.ppid) + [e.pid]];
    forall p ensures Lookup(next, p) == ChildrenOf(entries[..i + 1], p) {
      assert entries[..i + 1][..i] == entries[..i];
      assert Lookup(children, p) == ChildrenOf(entries[..i], p);
    }
  }

  method ComputeProcessTreeKillOrder(entries: seq<Entry>, rootPid: int) returns (order: seq<int>)
    ensures IsKillOrder(entries, rootPid, order)
  {
    hide Reaches, Lists;
    var children: map<int, seq<int>> := map[];
    var known: set<int> := {};
    NothingListed();
    for i := 0 to |entries|
      invariant known == Pids(entries[..i])
      invariant Lists(children, entries[..i])
    {
      var entry := entries[i];
      ListsNext(children, entries, i);
      assert forall e :: e in entries[..i + 1] <==> e in entries[..i] || e == entry;
      known := known + {entry.pid};
      if entry.pid == entry.ppid {
        continue;
      }
      var siblings := Lookup(children, entry.ppid);
      siblings := siblings + [entry.pid];
      children := children[entry.ppid := siblings];
    }
    assert entries[..|entries|] == entries;
    if rootPid !in known {
      return [];
    }
    var walk := new Walk(entries, children);
    walk.Visit(rootPid, {});
    order := walk.order;
    OrderIsKillOrder(entries, rootPid, walk.visited, order);
  }

  lemma NothingListed()
    ensures Lists(map[], [])
  {
  }

  lemma OrderIsKillOrder(entries: seq<Entry>, root: int, visited: set<int>, order: seq<int>)
    requires Consistent(entries, visited, order, {}) && root in visited && root in Pids(entries)
    requires forall p :: p in order ==> Reaches(entries, root, p)
    requires |order| > 0 && order[|order| - 1] == root
    ensures IsKillOrder(entries, root, order)
  {
    forall p | Reaches(entries, root, p) ensures p in order {
      var path :| IsPath(entries, path, root, p);
      ClosedUnderChildren(entries, Elements(order), path, root, p);
    }
  }

  /** Without cycles through a parent, a kill order puts every child strictly before its parent. */
  lemma AcyclicMeansLeavesFirst(entries: seq<Entry>, root: int, order: seq<int>, i: nat, j: nat)
    requires IsKillOrder(entries, root, order) && i < |order| && j < |order|
    requires order[i] in ChildrenOf(entries, order[j]) && !Reaches(entries, order[i], order[j])
    ensures i < j
  {
    assert order[i] in order[..j];
    var k :| 0 <= k < j && order[k] == order[i];
    assert i == k;
  }
}
