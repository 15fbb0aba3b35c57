/** The test runner of the unit-test frame (test/frame/test_manager.cpp): the registry of test
    cases and of start and exit events, the dependency order of the events, the selection of
    cases from the command line and the result of a run.

    A `topological_sort_object_t` is a node numbered by its place in the name index's iteration
    order; its `depend_by` list of pointers is a list of node numbers and its
    `dependency_count` an entry of a sequence. */
module TestManager {
  import opened Optional
  import CString
  import CmdOptionValue

  // ---------------------------------------------------------------- dependency graph

  /** Every `depend_by` list points at nodes of the graph. */
  predicate Graph(dependBy: seq<seq<nat>>)
  {
    forall u, k :: 0 <= u < |dependBy| && 0 <= k < |dependBy[u]| ==> dependBy[u][k] < |dependBy|
  }

  /** The set of nodes in a list. */
  function Elems(s: seq<nat>): (r: set<nat>)
    ensures forall x :: x in r <==> x in s
  {
    set x | x in s
  }

  /** No node twice. */
  predicate Distinct(s: seq<nat>)
  {
    forall p, q :: 0 <= p < q < |s| ==> s[p] != s[q]
  }

  /** The edges into `v` from the nodes below `k` that are not in `done`, counted with their
      multiplicity in the `depend_by` lists. */
  function Pending(dependBy: seq<seq<nat>>, v: nat, done: set<nat>, k: nat): nat
    requires k <= |dependBy|
  {
    if k == 0 then 0
    else Pending(dependBy, v, done, k - 1) + (if k - 1 in done then 0 else multiset(dependBy[k - 1])[v])
  }

  /** Each node's `dependency_count` is the number of edges into it. */
  predicate ProperCounts(dependBy: seq<seq<nat>>, count: seq<nat>)
  {
    |count| == |dependBy| && forall v :: 0 <= v < |count| ==> count[v] == Pending(dependBy, v, {}, |dependBy|)
  }

  /** Taking node `x` out of the pending sources removes exactly its edges. */
  lemma {:induction false} PendingDone(dependBy: seq<seq<nat>>, v: nat, done: set<nat>, x: nat, k: nat)
    requires k <= |dependBy| && x !in done
    ensures x < k ==> Pending(dependBy, v, done, k) == Pending(dependBy, v, done + {x}, k) + multiset(dependBy[x])[v]
    ensures x >= k ==> Pending(dependBy, v, done, k) == Pending(dependBy, v, done + {x}, k)
  {
    if k > 0 {
      PendingDone(dependBy, v, done, x, k - 1);
    }
  }

  /** No edge is pending into `v` exactly when every source of an edge into `v` is done. */
  lemma {:induction false} PendingZero(dependBy: seq<seq<nat>>, v: nat, done: set<nat>, k: nat)
    requires k <= |dependBy|
    ensures Pending(dependBy, v, done, k) == 0 <==> forall u :: 0 <= u < k && u !in done ==> v !in dependBy[u]
  {
    if k > 0 {
      PendingZero(dependBy, v, done, k - 1);
      assert v in dependBy[k - 1] <==> multiset(dependBy[k - 1])[v] > 0;
    }
  }

  /** Appending `x` to the list of node `d` adds one edge into `x` and nothing else. */
  lemma {:induction false} PendingAppend(dependBy: seq<seq<nat>>, d: nat, x: nat, v: nat, done: set<nat>, k: nat)
    requires d < |dependBy| && k <= |dependBy|
    ensures Pending(dependBy[d := dependBy[d] + [x]], v, done, k)
         == Pending(dependBy, v, done, k) + (if d < k && d !in done && v == x then 1 else 0)
  {
    if k > 0 {
      PendingAppend(dependBy, d, x, v, done, k - 1);
      assert multiset(dependBy[d] + [x]) == multiset(dependBy[d]) + multiset{x};
    }
  }

  /** A list of distinct nodes below `n` is no longer than `n`. */
  lemma {:induction false} DistinctBound(s: seq<nat>, n: nat)
    requires Distinct(s) && forall p :: 0 <= p < |s| ==> s[p] < n
    ensures |s| <= n
    decreases |s|
  {
    if s != [] {
      var m := s[|s| - 1];
      // close the gap left by `m`
      var t := seq(|s| - 1, p requires 0 <= p < |s| - 1 => if s[p] > m then s[p] - 1 else s[p]);
      forall p | 0 <= p < |t| ensures t[p] < n - 1 {
        assert s[p] != m;
      }
      forall p, q | 0 <= p < q < |t| ensures t[p] != t[q] {
        assert s[p] != s[q] && s[p] != m && s[q] != m;
      }
      DistinctBound(t, n - 1);
    }
  }

  // ---------------------------------------------------------------- topological_sort

  /** The nodes below `k` whose count is zero, in index order. */
  function Zeros(count: seq<nat>, k: nat): (r: seq<nat>)
    requires k <= |count|
    ensures forall p :: 0 <= p < |r| ==> r[p] < k && count[r[p]] == 0
    ensures forall v :: 0 <= v < k && count[v] == 0 ==> v in r
    ensures forall p, q :: 0 <= p < q < |r| ==> r[p] < r[q]
  {
    if k == 0 then []
    else if count[k - 1] == 0 then Zeros(count, k - 1) + [k - 1]
    else Zeros(count, k - 1)
  }

  /** Every emitted node comes after every node it depends on. */
  ghost predicate AfterDependencies(dependBy: seq<seq<nat>>, out: seq<nat>)
  {
    forall p, u :: 0 <= p < |out| && 0 <= u < |dependBy| && out[p] in dependBy[u] ==> u in out[..p]
  }

  /** Node `v` depends on a node that is left out. */
  ghost predicate StuckDependency(dependBy: seq<seq<nat>>, out: seq<nat>, v: nat)
  {
    exists u :: 0 <= u < |dependBy| && u !in out && v in dependBy[u]
  }

  /** Every node left out has a dependency that is left out too. */
  ghost predicate Closed(dependBy: seq<seq<nat>>, out: seq<nat>)
  {
    forall v {:trigger StuckDependency(dependBy, out, v)} :: 0 <= v < |dependBy| ==> v in out || StuckDependency(dependBy, out, v)
  }

  /** The first pass: every node whose count is already zero, in the index's order. */
  method Ready(count: seq<nat>) returns (out: seq<nat>)
    ensures out == Zeros(count, |count|)
  {
    out := [];
    var v := 0;
    while v < |count|
      invariant v <= |count|
      invariant out == Zeros(count, v)
    {
      if count[v] == 0 {
        out := out + [v];
      }
      v := v + 1;
    }
  }

  /** The state the sort keeps while it releases the dependents of `out[i - 1]`, or between two
      nodes when `rest` is empty: a node's count is the number of its pending edges (from the
      nodes not yet reached and from the rest of the current list), a node is emitted exactly
      when its count is zero, and no node is emitted before what it depends on. */
  ghost predicate SortState(dependBy: seq<seq<nat>>, count: seq<nat>, out: seq<nat>, i: nat, rest: seq<nat>)
  {
    Graph(dependBy) && |count| == |dependBy| && i <= |out| &&
    (forall k :: 0 <= k < |rest| ==> rest[k] < |dependBy|) && Distinct(out) && (forall p :: 0 <= p < |out| ==> out[p] < |dependBy|) &&
    (forall v :: 0 <= v < |count| ==> count[v] == Pending(dependBy, v, Elems(out[..i]), |dependBy|) + multiset(rest)[v]) &&
    (forall v :: 0 <= v < |count| ==> (count[v] == 0 <==> v in out)) &&
    AfterDependencies(dependBy, out)
  }

  /** One step of the inner loop: the next dependent still has a count, and after the
      decrement (and the emission when it reaches zero) the state holds for the rest of the
      list. */
  lemma ReleaseStep(dependBy: seq<seq<nat>>, count: seq<nat>, out: seq<nat>, i: nat, rest: seq<nat>)
      returns (count': seq<nat>, out': seq<nat>)
    requires SortState(dependBy, count, out, i, rest) && rest != [] && i <= |out|
    ensures rest[0] < |count| && count[rest[0]] > 0
    ensures count' == count[rest[0] := count[rest[0]] - 1]
    ensures out' == if count'[rest[0]] == 0 then out + [rest[0]] else out
    ensures SortState(dependBy, count', out', i, rest[1..])
  {
    var d := rest[0];
    DecrementCounts(dependBy, count, out, i, rest);
    count' := count[d := count[d] - 1];
    out' := out;
    if count'[d] == 0 {
      out' := out + [d];
      PendingZero(dependBy, d, Elems(out[..i]), |dependBy|);
      EmitAfter(dependBy, out, i, d);
      assert out'[..i] == out[..i];
    }
  }

  /** Taking the next dependent off the list: it still has a count, and its count less one is
      its pending edges plus its occurrences in the rest of the list. */
  lemma DecrementCounts(dependBy: seq<seq<nat>>, count: seq<nat>, out: seq<nat>, i: nat, rest: seq<nat>)
    requires SortState(dependBy, count, out, i, rest) && rest != []
    ensures rest[0] < |count| && count[rest[0]] > 0
    ensures forall v :: 0 <= v < |count| ==>
      count[rest[0] := count[rest[0]] - 1][v] == Pending(dependBy, v, Elems(out[..i]), |dependBy|) + multiset(rest[1..])[v]
  {
    var d := rest[0];
    assert rest == [d] + rest[1..];
    assert multiset(rest)[d] == multiset(rest[1..])[d] + 1;
    forall v | 0 <= v < |count|
      ensures count[d := count[d] - 1][v] == Pending(dependBy, v, Elems(out[..i]), |dependBy|) + multiset(rest[1..])[v]
    {
      assert multiset(rest)[v] == multiset(rest[1..])[v] + (if v == d then 1 else 0);
    }
  }

  /** Emitting a node all of whose dependencies are among the first `i` emitted keeps every
      node after its dependencies. */
  lemma EmitAfter(dependBy: seq<seq<nat>>, out: seq<nat>, i: nat, d: nat)
    requires AfterDependencies(dependBy, out) && i <= |out|
    requires forall u :: 0 <= u < |dependBy| && u !in Elems(out[..i]) ==> d !in dependBy[u]
    ensures AfterDependencies(dependBy, out + [d])
  {
    var out' := out + [d];
    forall p, u | 0 <= p < |out'| && 0 <= u < |dependBy| && out'[p] in dependBy[u] ensures u in out'[..p] {
      if p < |out| {
        assert out'[..p] == out[..p];
      } else {
        assert u in out[..i];
        assert out'[..p] == out;
      }
    }
  }

  /** The inner loop: walk the `depend_by` list of node `out[i - 1]`, decrement each dependent
      that still has a count, and emit it when the count reaches zero. */
  method Release(dependBy: seq<seq<nat>>, count0: seq<nat>, out0: seq<nat>, i: nat) returns (count: seq<nat>, out: seq<nat>)
    requires 0 < i <= |out0| && out0[i - 1] < |dependBy|
    requires SortState(dependBy, count0, out0, i, dependBy[out0[i - 1]])
    ensures SortState(dependBy, count, out, i, []) && |out0| <= |out| && out[..|out0|] == out0
  {
    var list := dependBy[out0[i - 1]];
    count, out := count0, out0;
    var j := 0;
    while j < |list|
      invariant j <= |list| && |out0| <= |out| && out[..|out0|] == out0
      invariant SortState(dependBy, count, out, i, list[j..])
    {
      var d := list[j];
      ghost var c', o' := ReleaseStep(dependBy, count, out, i, list[j..]);
      assert list[j..][1..] == list[j + 1..];
      if count[d] > 0 {
        count := count[d := count[d] - 1];
        if count[d] == 0 {
          out := out + [d];
        }
      }
      j := j + 1;
    }
  }

  /** The state after the first pass: nothing reached yet, so every count is the node's full
      number of edges, and the emitted nodes are those with none. */
  lemma ReadyState(dependBy: seq<seq<nat>>, count: seq<nat>)
    requires Graph(dependBy) && ProperCounts(dependBy, count)
    ensures SortState(dependBy, count, Zeros(count, |count|), 0, [])
  {
    var out := Zeros(count, |count|);
    assert Elems(out[..0]) == {};
    forall p, q | 0 <= p < q < |out| ensures out[p] != out[q] {
    }
    forall p | 0 <= p < |out| ensures forall u :: 0 <= u < |dependBy| ==> out[p] !in dependBy[u] {
      PendingZero(dependBy, out[p], {}, |dependBy|);
    }
  }

  /** Moving on to the next node: its edges leave the pending sources and become the list
      still to walk. */
  lemma AdvanceState(dependBy: seq<seq<nat>>, count: seq<nat>, out: seq<nat>, i: nat)
    requires SortState(dependBy, count, out, i, []) && i < |out|
    ensures out[i] < |dependBy| && SortState(dependBy, count, out, i + 1, dependBy[out[i]])
  {
    var w := out[i];
    assert out[..i + 1] == out[..i] + [w];
    assert Elems(out[..i + 1]) == Elems(out[..i]) + {w};
    assert w !in Elems(out[..i]);
    forall v | 0 <= v < |count|
      ensures count[v] == Pending(dependBy, v, Elems(out[..i + 1]), |dependBy|) + multiset(dependBy[w])[v]
    {
      PendingDone(dependBy, v, Elems(out[..i]), w, |dependBy|);
    }
  }

  /** When every emitted node has been walked, a node left out still has an edge pending from
      a node left out. */
  lemma FinalState(dependBy: seq<seq<nat>>, count: seq<nat>, out: seq<nat>)
    requires SortState(dependBy, count, out, |out|, [])
    ensures forall v :: 0 <= v < |count| ==> count[v] == Pending(dependBy, v, Elems(out), |dependBy|)
    ensures Closed(dependBy, out)
  {
    assert out[..|out|] == out;
    forall v | 0 <= v < |dependBy| ensures v in out || StuckDependency(dependBy, out, v) {
      PendingZero(dependBy, v, Elems(out), |dependBy|);
    }
  }

  /** The outer loop: walk the emitted nodes in order, the output growing while it is read,
      until the walk catches up with it. */
  method Drain(dependBy: seq<seq<nat>>, count0: seq<nat>, out0: seq<nat>) returns (count: seq<nat>, out: seq<nat>)
    requires SortState(dependBy, count0, out0, 0, [])
    ensures SortState(dependBy, count, out, |out|, []) && |out0| <= |out| && out[..|out0|] == out0
  {
    count, out := count0, out0;
    var i := 0;
    while i < |out|
      invariant |out0| <= |out| && out[..|out0|] == out0
      invariant SortState(dependBy, count, out, i, [])
      decreases |dependBy| - i
    {
      DistinctBound(out, |dependBy|);
      AdvanceState(dependBy, count, out, i);
      ghost var before := out;
      count, out := Release(dependBy, count, out, i + 1);
      PrefixOfPrefix(out0, before, out);
      i := i + 1;
    }
  }

  lemma PrefixOfPrefix(a: seq<nat>, b: seq<nat>, c: seq<nat>)
    requires |a| <= |b| <= |c| && b[..|a|] == a && c[..|b|] == b
    ensures c[..|a|] == a
  {
    assert c[..|a|] == c[..|b|][..|a|];
  }

  // ---------------------------------------------------------------- building the index

  /** A registered event: a start event with the names it runs after, or an exit event with
      the names it runs before. Its position in the registration list stands for its
      object. */
  datatype Event = Event(name: string, links: seq<string>)

  /** No name twice. */
  predicate Unique(s: seq<string>)
  {
    forall p, q :: 0 <= p < q < |s| ==> s[p] != s[q]
  }

  /** Where the index keeps a name (`index_by_name.find`). */
  function IndexOf(keys: seq<string>, n: string): (r: nat)
    requires n in keys
    ensures r < |keys| && keys[r] == n
  {
    if keys[0] == n then 0 else 1 + IndexOf(keys[1..], n)
  }

  /** `keys` is the index's iteration order: each registered name exactly once. */
  predicate IndexesNames(events: seq<Event>, keys: seq<string>)
  {
    Unique(keys) && (forall i :: 0 <= i < |events| ==> events[i].name in keys) &&
    forall n :: n in keys ==> exists i :: 0 <= i < |events| && events[i].name == n
  }

  /** Event `e`, registered under the name of node `v`, links to the name of node `u`. */
  predicate Requests(e: Event, keys: seq<string>, u: nat, v: nat)
    requires u < |keys| && v < |keys|
  {
    e.name == keys[v] && keys[u] in e.links
  }

  /** Event `k` is the last one registered under `n` among the first `i`. */
  predicate LastOf(events: seq<Event>, n: string, k: nat, i: nat)
    requires i <= |events|
  {
    k < i && events[k].name == n && forall j :: k < j < i ==> events[j].name != n
  }

  /** The inner loop of the second pass over one event: every link to a known name counts one
      more dependency of the event's node `obj` and puts `obj` on the linked node's list; an
      unknown name only warns. */
  method Link(keys: seq<string>, obj: nat, links: seq<string>, dependBy0: seq<seq<nat>>, count0: seq<nat>)
      returns (dependBy: seq<seq<nat>>, count: seq<nat>)
    requires Unique(keys) && |dependBy0| == |keys| && obj < |keys|
    requires Graph(dependBy0) && ProperCounts(dependBy0, count0)
    ensures |dependBy| == |keys| && Graph(dependBy) && ProperCounts(dependBy, count)
    ensures forall u, v :: 0 <= u < |keys| && 0 <= v < |keys| ==>
      (v in dependBy[u] <==> v in dependBy0[u] || (v == obj && keys[u] in links))
  {
    dependBy, count := dependBy0, count0;
    var j := 0;
    while j < |links|
      invariant j <= |links|
      invariant |dependBy| == |keys| && Graph(dependBy) && ProperCounts(dependBy, count)
      invariant forall u, v :: 0 <= u < |keys| && 0 <= v < |keys| ==>
        (v in dependBy[u] <==> v in dependBy0[u] || (v == obj && keys[u] in links[..j]))
    {
      var dep := links[j];
      assert links[..j + 1] == links[..j] + [dep];
      if dep in keys {
        var d := IndexOf(keys, dep);
        var dependBy' := dependBy[d := dependBy[d] + [obj]];
        forall v | 0 <= v < |count| ensures count[obj := count[obj] + 1][v] == Pending(dependBy', v, {}, |dependBy'|) {
          PendingAppend(dependBy, d, obj, v, {}, |dependBy|);
        }
        count := count[obj := count[obj] + 1];
        dependBy := dependBy';
      }
      j := j + 1;
    }
  }

  /** The first pass: each name's node gets the object of the last event registered under it
      (and a zero count). */
  method NameObjects(events: seq<Event>, keys: seq<string>) returns (objs: seq<nat>)
    requires IndexesNames(events, keys)
    ensures |objs| == |keys| && forall v :: 0 <= v < |keys| ==> LastOf(events, keys[v], objs[v], |events|)
  {
    objs := seq(|keys|, _ => 0);
    var i := 0;
    while i < |events|
      invariant i <= |events| && |objs| == |keys|
      invariant forall v :: 0 <= v < |keys| && (exists k :: 0 <= k < i && events[k].name == keys[v]) ==>
        LastOf(events, keys[v], objs[v], i)
    {
      objs := objs[IndexOf(keys, events[i].name) := i];
      i := i + 1;
    }
    forall v | 0 <= v < |keys| ensures LastOf(events, keys[v], objs[v], |events|) {
      assert keys[v] in keys;
      var k :| 0 <= k < |events| && events[k].name == keys[v];
    }
  }

  /** The second pass: link every event's node to the nodes of the names it names. */
  method LinkAll(events: seq<Event>, keys: seq<string>) returns (deps: seq<seq<nat>>, counts: seq<nat>)
    requires IndexesNames(events, keys)
    ensures |deps| == |keys| && Graph(deps) && ProperCounts(deps, counts)
    ensures forall u, v :: 0 <= u < |keys| && 0 <= v < |keys| ==>
      (v in deps[u] <==> exists i :: 0 <= i < |events| && Requests(events[i], keys, u, v))
  {
    deps := seq(|keys|, _ => []);
    counts := seq(|keys|, _ => 0);
    forall v | 0 <= v < |keys| ensures counts[v] == Pending(deps, v, {}, |deps|) {
      PendingZero(deps, v, {}, |deps|);
    }
    var i := 0;
    while i < |events|
      invariant i <= |events|
      invariant |deps| == |keys| && Graph(deps) && ProperCounts(deps, counts)
      invariant forall u, v :: 0 <= u < |keys| && 0 <= v < |keys| ==>
        (v in deps[u] <==> exists k :: 0 <= k < i && Requests(events[k], keys, u, v))
    {
      var obj := IndexOf(keys, events[i].name);
      deps, counts := Link(keys, obj, events[i].links, deps, counts);
      forall u, v | 0 <= u < |keys| && 0 <= v < |keys|
        ensures v in deps[u] <==> exists k :: 0 <= k < i + 1 && Requests(events[k], keys, u, v)
      {
        assert v == obj <==> events[i].name == keys[v];
      }
      i := i + 1;
    }
  }

  /** The index of event names: one node per name, in the index's iteration order, with the
      event whose object it runs, its `dependency_count` and its `depend_by` list. */
  class NameIndex {
    var names: seq<string>
    var objects: seq<nat>
    var count: seq<nat>
    var dependBy: seq<seq<nat>>

    /** The two passes of `run_event_on_start` (and `run_event_on_exit`) over the registered
        events. */
    constructor Build(events: seq<Event>, keys: seq<string>)
      requires IndexesNames(events, keys)
      ensures names == keys && |objects| == |keys|
      ensures forall v :: 0 <= v < |keys| ==> LastOf(events, keys[v], objects[v], |events|)
      ensures |dependBy| == |keys| && Graph(dependBy) && ProperCounts(dependBy, count)
      ensures forall u, v :: 0 <= u < |keys| && 0 <= v < |keys| ==>
        (v in dependBy[u] <==> exists i :: 0 <= i < |events| && Requests(events[i], keys, u, v))
    {
      var objs := NameObjects(events, keys);
      var deps, counts := LinkAll(events, keys);
      names, objects, dependBy, count := keys, objs, deps, counts;
    }

    /** `topological_sort`: Kahn's algorithm over the `depend_by` lists, the output growing
        while it is read and the counts decremented in place. */
    method TopologicalSort() returns (out: seq<nat>)
      requires Graph(dependBy) && ProperCounts(dependBy, count)
      modifies this
      ensures names == old(names) && objects == old(objects) && dependBy == old(dependBy)
      ensures |Zeros(old(count), |old(count)|)| <= |out|
      ensures out[..|Zeros(old(count), |old(count)|)|] == Zeros(old(count), |old(count)|)
      ensures Distinct(out) && forall p :: 0 <= p < |out| ==> out[p] < |dependBy|
      ensures |count| == |dependBy|
      ensures forall v :: 0 <= v < |count| ==> (count[v] == 0 <==> v in out)
      ensures forall v :: 0 <= v < |count| ==> count[v] == Pending(dependBy, v, Elems(out), |dependBy|)
      ensures AfterDependencies(dependBy, out)
      ensures Closed(dependBy, out)
    {
      out := Ready(count);
      ReadyState(dependBy, count);
      count, out := Drain(dependBy, count, out);
      FinalState(dependBy, count, out);
    }
  }

  // ---------------------------------------------------------------- what the order promises

  /** The dependency graph has no cycle: some ranking puts every node after its
      dependencies. */
  predicate Ranked(dependBy: seq<seq<nat>>, rank: seq<nat>)
  {
    |rank| == |dependBy| &&
    forall u, k :: 0 <= u < |dependBy| && 0 <= k < |dependBy[u]| && dependBy[u][k] < |dependBy| ==> rank[u] < rank[dependBy[u][k]]
  }

  /** A path along dependency edges: each node is in the `depend_by` list of the one before. */
  predicate Path(dependBy: seq<seq<nat>>, c: seq<nat>)
  {
    (forall k :: 0 <= k < |c| ==> c[k] < |dependBy|) &&
    forall k :: 0 <= k < |c| - 1 ==> c[k + 1] in dependBy[c[k]]
  }

  lemma {:induction false} EmittedByRank(dependBy: seq<seq<nat>>, out: seq<nat>, rank: seq<nat>, v: nat)
    requires Closed(dependBy, out) && Ranked(dependBy, rank) && v < |dependBy|
    ensures v in out
    decreases rank[v]
  {
    if v !in out {
      assert StuckDependency(dependBy, out, v);
      var u :| 0 <= u < |dependBy| && u !in out && v in dependBy[u];
      var k :| 0 <= k < |dependBy[u]| && dependBy[u][k] == v;
      EmittedByRank(dependBy, out, rank, u);
    }
  }

  /** With no cycle, the sort emits every node, each exactly once. */
  lemma AcyclicAllEmitted(dependBy: seq<seq<nat>>, out: seq<nat>, rank: seq<nat>)
    requires Closed(dependBy, out) && Ranked(dependBy, rank)
    ensures forall v :: 0 <= v < |dependBy| ==> v in out
  {
    forall v | 0 <= v < |dependBy| ensures v in out {
      EmittedByRank(dependBy, out, rank, v);
    }
  }

  /** Along a path ending at an emitted node, the first node is emitted earlier. */
  lemma {:induction false} PathEmittedEarlier(dependBy: seq<seq<nat>>, out: seq<nat>, c: seq<nat>, p: nat)
    requires AfterDependencies(dependBy, out) && Path(dependBy, c)
    requires |c| >= 2 && p < |out| && out[p] == c[|c| - 1]
    ensures exists q :: 0 <= q < p && out[q] == c[0]
    decreases |c|
  {
    var u := c[|c| - 2];
    assert u in out[..p];
    var q :| 0 <= q < p && out[q] == u;
    if |c| > 2 {
      var c' := c[..|c| - 1];
      assert Path(dependBy, c');
      PathEmittedEarlier(dependBy, out, c', q);
    }
  }

  /** A node from which a path of dependency edges leads back to itself is never emitted. */
  lemma CycleNeverEmitted(dependBy: seq<seq<nat>>, out: seq<nat>, c: seq<nat>)
    requires AfterDependencies(dependBy, out) && Distinct(out)
    requires Path(dependBy, c) && |c| >= 2 && c[0] == c[|c| - 1]
    ensures c[0] !in out
  {
    if p :| 0 <= p < |out| && out[p] == c[0] {
      PathEmittedEarlier(dependBy, out, c, p);
    }
  }

  // ---------------------------------------------------------------- events by name

  /** The names of a list of nodes. */
  function NamesOf(keys: seq<string>, out: seq<nat>): (r: seq<string>)
    requires forall p :: 0 <= p < |out| ==> out[p] < |keys|
    ensures |r| == |out| && forall p :: 0 <= p < |out| ==> r[p] == keys[out[p]]
  {
    seq(|out|, p requires 0 <= p < |out| => keys[out[p]])
  }

  /** Every event runs after every known name it links to. */
  ghost predicate RunsAfterLinks(events: seq<Event>, keys: seq<string>, order: seq<string>)
  {
    forall p, i, k :: 0 <= p < |order| && 0 <= i < |events| && events[i].name == order[p] &&
      0 <= k < |events[i].links| && events[i].links[k] in keys
      ==> events[i].links[k] in order[..p]
  }

  /** Every event runs before every known name it links to. */
  ghost predicate RunsBeforeLinks(events: seq<Event>, keys: seq<string>, order: seq<string>)
  {
    forall p, i, k :: 0 <= p < |order| && 0 <= i < |events| && events[i].name == order[p] &&
      0 <= k < |events[i].links| && events[i].links[k] in keys
      ==> events[i].links[k] in order[p + 1..]
  }

  /** An event registered under `n` links to a known name that does not run. */
  ghost predicate WaitsOnLeftOut(events: seq<Event>, keys: seq<string>, order: seq<string>, n: string)
  {
    exists i, k :: 0 <= i < |events| && events[i].name == n && 0 <= k < |events[i].links| &&
      events[i].links[k] in keys && events[i].links[k] !in order
  }

  /** Every known name that does not run waits on one that does not run either. */
  ghost predicate LeftOutWait(events: seq<Event>, keys: seq<string>, order: seq<string>)
  {
    forall n {:trigger WaitsOnLeftOut(events, keys, order, n)} :: n in keys ==> n in order || WaitsOnLeftOut(events, keys, order, n)
  }

  /** The links between the events form no cycle: some ranking puts every event after the
      known names it links to. */
  ghost predicate LinksRanked(events: seq<Event>, keys: seq<string>, rank: map<string, nat>)
  {
    (forall n :: n in keys ==> n in rank) && (forall i :: 0 <= i < |events| ==> events[i].name in rank) &&
    forall i, k :: 0 <= i < |events| && 0 <= k < |events[i].links| && events[i].links[k] in keys ==>
      rank[events[i].links[k]] < rank[events[i].name]
  }

  /** The order of the nodes, read by name. */
  lemma NamesFollowNodes(events: seq<Event>, keys: seq<string>, dependBy: seq<seq<nat>>, out: seq<nat>)
    requires IndexesNames(events, keys) && |dependBy| == |keys|
    requires forall u, v :: 0 <= u < |keys| && 0 <= v < |keys| ==>
      (v in dependBy[u] <==> exists i :: 0 <= i < |events| && Requests(events[i], keys, u, v))
    requires Distinct(out) && (forall p :: 0 <= p < |out| ==> out[p] < |keys|)
    requires AfterDependencies(dependBy, out) && Closed(dependBy, out)
    ensures Unique(NamesOf(keys, out))
    ensures forall n :: n in NamesOf(keys, out) ==> n in keys
    ensures RunsAfterLinks(events, keys, NamesOf(keys, out))
    ensures LeftOutWait(events, keys, NamesOf(keys, out))
  {
    NamesOfDistinct(keys, out);
    NamesAfterLinks(events, keys, dependBy, out);
    NamesLeftOutWait(events, keys, dependBy, out);
  }

  lemma NamesOfDistinct(keys: seq<string>, out: seq<nat>)
    requires Unique(keys) && Distinct(out) && (forall p :: 0 <= p < |out| ==> out[p] < |keys|)
    ensures Unique(NamesOf(keys, out))
    ensures forall n :: n in NamesOf(keys, out) ==> n in keys
  {
    var order := NamesOf(keys, out);
    forall p, q | 0 <= p < q < |order| ensures order[p] != order[q] {
      assert out[p] != out[q];
    }
  }

  lemma NamesAfterLinks(events: seq<Event>, keys: seq<string>, dependBy: seq<seq<nat>>, out: seq<nat>)
    requires IndexesNames(events, keys) && |dependBy| == |keys|
    requires forall u, v :: 0 <= u < |keys| && 0 <= v < |keys| ==>
      (v in dependBy[u] <==> exists i :: 0 <= i < |events| && Requests(events[i], keys, u, v))
    requires forall p :: 0 <= p < |out| ==> out[p] < |keys|
    requires AfterDependencies(dependBy, out)
    ensures RunsAfterLinks(events, keys, NamesOf(keys, out))
  {
    var order := NamesOf(keys, out);
    forall p, i, k | 0 <= p < |order| && 0 <= i < |events| && events[i].name == order[p] &&
      0 <= k < |events[i].links| && events[i].links[k] in keys
      ensures events[i].links[k] in order[..p]
    {
      var u := IndexOf(keys, events[i].links[k]);
      assert Requests(events[i], keys, u, out[p]);
      assert out[p] in dependBy[u];
      assert u in out[..p];
      var q :| 0 <= q < p && out[q] == u;
      assert order[..p][q] == keys[u];
    }
  }

  lemma NamesLeftOutWait(events: seq<Event>, keys: seq<string>, dependBy: seq<seq<nat>>, out: seq<nat>)
    requires IndexesNames(events, keys) && |dependBy| == |keys|
    requires forall u, v :: 0 <= u < |keys| && 0 <= v < |keys| ==>
      (v in dependBy[u] <==> exists i :: 0 <= i < |events| && Requests(events[i], keys, u, v))
    requires forall p :: 0 <= p < |out| ==> out[p] < |keys|
    requires Closed(dependBy, out)
    ensures LeftOutWait(events, keys, NamesOf(keys, out))
  {
    var order := NamesOf(keys, out);
    forall n | n in keys ensures n in order || WaitsOnLeftOut(events, keys, order, n) {
      var v := IndexOf(keys, n);
      if v !in out {
        assert StuckDependency(dependBy, out, v);
        var u :| 0 <= u < |dependBy| && u !in out && v in dependBy[u];
        var i :| 0 <= i < |events| && Requests(events[i], keys, u, v);
        var k :| 0 <= k < |events[i].links| && events[i].links[k] == keys[u];
      } else {
        var p :| 0 <= p < |out| && out[p] == v;
        assert order[p] == n;
      }
    }
  }

  lemma {:induction false} RunsByRank(events: seq<Event>, keys: seq<string>, order: seq<string>, rank: map<string, nat>, n: string)
    requires LeftOutWait(events, keys, order) && LinksRanked(events, keys, rank) && n in keys
    ensures n in order
    decreases rank[n]
  {
    if n !in order {
      assert WaitsOnLeftOut(events, keys, order, n);
      var i, k :| 0 <= i < |events| && events[i].name == n && 0 <= k < |events[i].links| &&
        events[i].links[k] in keys && events[i].links[k] !in order;
      RunsByRank(events, keys, order, rank, events[i].links[k]);
    }
  }

  /** When the links form no cycle, every registered name runs. */
  lemma EventsAcyclicAllRun(events: seq<Event>, keys: seq<string>, order: seq<string>, rank: map<string, nat>)
    requires LeftOutWait(events, keys, order) && LinksRanked(events, keys, rank)
    ensures forall n :: n in keys ==> n in order
  {
    forall n | n in keys ensures n in order {
      RunsByRank(events, keys, order, rank, n);
    }
  }

  /** Read back to front, an order that puts each event after its links puts it before
      them. */
  lemma BackwardsRunsBefore(events: seq<Event>, keys: seq<string>, order: seq<string>, back: seq<string>)
    requires RunsAfterLinks(events, keys, order) && Unique(order)
    requires |back| == |order| && forall k :: 0 <= k < |back| ==> back[k] == order[|order| - 1 - k]
    ensures RunsBeforeLinks(events, keys, back)
  {
    forall p, i, k | 0 <= p < |back| && 0 <= i < |events| && events[i].name == back[p] &&
      0 <= k < |events[i].links| && events[i].links[k] in keys
      ensures events[i].links[k] in back[p + 1..]
    {
      var p' := |order| - 1 - p;
      assert events[i].name == order[p'];
      var q' :| 0 <= q' < p' && order[..p'][q'] == events[i].links[k];
      var q := |order| - 1 - q';
      assert back[q] == order[q'];
      assert back[p + 1..][q - p - 1] == back[q];
    }
  }

  // ---------------------------------------------------------------- the registry of tests

  /** `std::string`'s `<`: the first differing character decides, and a proper prefix comes
      first. */
  predicate Less(a: string, b: string)
  {
    if a == [] then b != []
    else b != [] && (a[0] < b[0] || (a[0] == b[0] && Less(a[1..], b[1..])))
  }

  /** `<` is irreflexive. */
  lemma {:induction false} LessIrreflexive(a: string)
    ensures !Less(a, a)
  {
    if a != [] {
      LessIrreflexive(a[1..]);
    }
  }

  /** Of two different names exactly one is smaller. */
  lemma {:induction false} LessTotal(a: string, b: string)
    ensures a == b || Less(a, b) || Less(b, a)
    ensures !(Less(a, b) && Less(b, a))
  {
    if a != [] && b != [] {
      LessTotal(a[1..], b[1..]);
      if a[0] == b[0] && a[1..] == b[1..] {
        assert a == [a[0]] + a[1..] && b == [b[0]] + b[1..];
      }
    }
  }

  lemma {:induction false} LessTransitive(a: string, b: string, c: string)
    requires Less(a, b) && Less(b, c)
    ensures Less(a, c)
  {
    if a != [] && a[0] == b[0] && b[0] == c[0] {
      LessTransitive(a[1..], b[1..], c[1..]);
    }
  }

  /** A registered test case: its name and the number of failed checks its run reports. */
  datatype Case = Case(name: string, failures: nat)

  /** A test and its cases in registration order. */
  datatype Group = Group(name: string, cases: seq<Case>)

  /** `tests_` is a `std::map`: its entries in increasing order of name. */
  predicate Ascending(tests: seq<Group>)
  {
    forall p, q :: 0 <= p < q < |tests| ==> Less(tests[p].name, tests[q].name)
  }

  /** The cases registered under a test name, none for an unknown name. */
  function CasesOf(tests: seq<Group>, name: string): (r: seq<Case>)
  {
    if tests == [] then [] else if tests[0].name == name then tests[0].cases else CasesOf(tests[1..], name)
  }

  lemma {:induction false} CasesOfAbsent(tests: seq<Group>, name: string)
    requires forall p :: 0 <= p < |tests| ==> tests[p].name != name
    ensures CasesOf(tests, name) == []
  {
    if tests != [] {
      CasesOfAbsent(tests[1..], name);
    }
  }

  /** In an ascending list the entry at `k` is the one a name finds. */
  lemma {:induction false} CasesOfAt(tests: seq<Group>, k: nat)
    requires Ascending(tests) && k < |tests|
    ensures CasesOf(tests, tests[k].name) == tests[k].cases
  {
    if k > 0 {
      LessIrreflexive(tests[0].name);
      CasesOfAt(tests[1..], k - 1);
    }
  }

  /** Where `name` belongs in an ascending list: past every smaller name. */
  method FindGroup(tests: seq<Group>, name: string) returns (k: nat)
    requires Ascending(tests)
    ensures k <= |tests| && (forall p :: 0 <= p < k ==> Less(tests[p].name, name))
    ensures k < |tests| ==> !Less(tests[k].name, name)
  {
    k := 0;
    while k < |tests| && Less(tests[k].name, name)
      invariant k <= |tests| && forall p :: 0 <= p < k ==> Less(tests[p].name, name)
    {
      k := k + 1;
    }
  }

  /** Appending to the entry at `k` changes that entry's list only. */
  lemma AppendedToEntry(tests: seq<Group>, c: Case, k: nat, n: string)
    requires Ascending(tests) && k < |tests|
    ensures var tests' := tests[k := Group(tests[k].name, tests[k].cases + [c])];
      Ascending(tests') &&
      CasesOf(tests', n) == if n == tests[k].name then CasesOf(tests, n) + [c] else CasesOf(tests, n)
  {
    var tests' := tests[k := Group(tests[k].name, tests[k].cases + [c])];
    assert Ascending(tests');
    if p :| 0 <= p < |tests| && tests[p].name == n {
      CasesOfAt(tests, p);
      CasesOfAt(tests', p);
      if p != k {
        LessTotal(tests[p].name, tests[k].name);
      }
    } else {
      CasesOfAbsent(tests, n);
      CasesOfAbsent(tests', n);
    }
  }

  /** A new entry put past every smaller name keeps the list ascending. */
  lemma InsertedAscending(tests: seq<Group>, name: string, c: Case, k: nat)
    requires Ascending(tests) && k <= |tests|
    requires (forall p :: 0 <= p < k ==> Less(tests[p].name, name)) && (k < |tests| ==> Less(name, tests[k].name))
    ensures Ascending(tests[..k] + [Group(name, [c])] + tests[k..])
  {
    var tests' := tests[..k] + [Group(name, [c])] + tests[k..];
    forall q | k <= q < |tests| ensures Less(name, tests[q].name) {
      if q > k {
        LessTransitive(name, tests[k].name, tests[q].name);
      }
    }
    forall p, q | 0 <= p < q < |tests'| ensures Less(tests'[p].name, tests'[q].name) {
      if p < k && q > k {
        assert tests'[q] == tests[q - 1];
      } else if p == k {
        assert tests'[q] == tests[q - 1];
      } else if p > k {
        assert tests'[p] == tests[p - 1] && tests'[q] == tests[q - 1];
      }
    }
  }

  /** A new entry holds the one case and leaves every other name's list alone. */
  lemma InsertedCases(tests: seq<Group>, name: string, c: Case, k: nat, n: string)
    requires Ascending(tests) && k <= |tests|
    requires forall p :: 0 <= p < |tests| ==> tests[p].name != name
    requires Ascending(tests[..k] + [Group(name, [c])] + tests[k..])
    ensures var tests' := tests[..k] + [Group(name, [c])] + tests[k..];
      CasesOf(tests', n) == if n == name then CasesOf(tests, n) + [c] else CasesOf(tests, n)
  {
    var tests' := tests[..k] + [Group(name, [c])] + tests[k..];
    if p :| 0 <= p < |tests| && tests[p].name == n {
      CasesOfAt(tests, p);
      var p' := if p < k then p else p + 1;
      assert tests'[p'] == tests[p];
      CasesOfAt(tests', p');
    } else if n == name {
      CasesOfAbsent(tests, n);
      CasesOfAt(tests', k);
    } else {
      CasesOfAbsent(tests, n);
      forall p | 0 <= p < |tests'| ensures tests'[p].name != n {
        if p < k {
          assert tests'[p] == tests[p];
        } else if p > k {
          assert tests'[p] == tests[p - 1];
        }
      }
      CasesOfAbsent(tests', n);
    }
  }

  // ---------------------------------------------------------------- choosing what runs

  /** `check_test_group_passed`: no case was named, or the test itself was. */
  predicate GroupNamed(runCases: set<string>, group: string)
  {
    runCases == {} || group in runCases
  }

  /** Whether `run` enters a test: named, or the test part of a named case. */
  predicate GroupEntered(runCases: set<string>, runGroups: set<string>, group: string)
  {
    GroupNamed(runCases, group) || group in runGroups
  }

  /** Whether `run` runs a case of an entered test: the test was named, or the case by its own
      name or by "test.case". */
  predicate CaseSelected(runCases: set<string>, runGroups: set<string>, group: string, name: string)
  {
    GroupEntered(runCases, runGroups, group) &&
    (GroupNamed(runCases, group) || name in runCases || group + "." + name in runCases)
  }

  /** The cases of `g` among its first `k` that run, with their test's name. */
  function SelectedIn(g: Group, k: nat, runCases: set<string>, runGroups: set<string>): (r: seq<(string, Case)>)
    requires k <= |g.cases|
    ensures |r| <= k
  {
    if k == 0 then []
    else if CaseSelected(runCases, runGroups, g.name, g.cases[k - 1].name)
    then SelectedIn(g, k - 1, runCases, runGroups) + [(g.name, g.cases[k - 1])]
    else SelectedIn(g, k - 1, runCases, runGroups)
  }

  /** The cases that run, test by test in the map's order. */
  function Selected(tests: seq<Group>, runCases: set<string>, runGroups: set<string>): (r: seq<(string, Case)>)
  {
    if tests == [] then []
    else Selected(tests[..|tests| - 1], runCases, runGroups) + SelectedIn(tests[|tests| - 1], |tests[|tests| - 1].cases|, runCases, runGroups)
  }

  /** The cases of a list that passed. */
  function Passes(ran: seq<(string, Case)>): (r: nat)
    ensures r <= |ran|
  {
    if ran == [] then 0 else Passes(ran[..|ran| - 1]) + (if ran[|ran| - 1].1.failures == 0 then 1 else 0)
  }

  /** The cases of a list that failed. */
  function Fails(ran: seq<(string, Case)>): (r: nat)
  {
    if ran == [] then 0 else Fails(ran[..|ran| - 1]) + (if ran[|ran| - 1].1.failures > 0 then 1 else 0)
  }

  /** Every case that runs either passes or fails, and none failed exactly when the failure
      count is zero. */
  lemma {:induction false} Tally(ran: seq<(string, Case)>)
    ensures Passes(ran) + Fails(ran) == |ran|
    ensures Fails(ran) == 0 <==> forall k :: 0 <= k < |ran| ==> ran[k].1.failures == 0
  {
    if ran != [] {
      Tally(ran[..|ran| - 1]);
    }
  }

  /** The name of the test in a "test.case" argument: the text before the first '.'. */
  function GroupPart(s: string): (r: Option<string>)
    ensures r.Some? ==> |r.value| < |s| && s == r.value + "." + s[|r.value| + 1..] && '.' !in r.value
    ensures r.None? ==> '.' !in s
  {
    if s == [] then None
    else if s[0] == '.' then Some([])
    else match GroupPart(s[1..]) {
      case None => None
      case Some(g) => Some([s[0]] + g)
    }
  }

  /** What `set_cases` keeps as test names. */
  function GroupsNamed(names: seq<string>): (r: set<string>)
  {
    set k | 0 <= k < |names| && GroupPart(names[k]).Some? :: GroupPart(names[k]).value
  }

  /** A "test.case" name for a test without a dot picks out the test. */
  lemma {:induction false} GroupPartOf(group: string, name: string)
    requires '.' !in group
    ensures GroupPart(group + "." + name) == Some(group)
  {
    if group != [] {
      assert (group + "." + name)[1..] == group[1..] + "." + name;
      GroupPartOf(group[1..], name);
      assert group == [group[0]] + group[1..];
    }
  }

  /** A test whose name is never asked for and that is not named runs no case. */
  lemma {:induction false} NotEnteredRunsNothing(g: Group, k: nat, runCases: set<string>, runGroups: set<string>)
    requires k <= |g.cases| && !GroupEntered(runCases, runGroups, g.name)
    ensures SelectedIn(g, k, runCases, runGroups) == []
  {
    if k > 0 {
      NotEnteredRunsNothing(g, k - 1, runCases, runGroups);
    }
  }

  /** Every case of every test, in the map's order. */
  function AllCases(tests: seq<Group>): (r: seq<(string, Case)>)
  {
    if tests == [] then []
    else AllCases(tests[..|tests| - 1]) + seq(|tests[|tests| - 1].cases|, k requires 0 <= k < |tests[|tests| - 1].cases| => (tests[|tests| - 1].name, tests[|tests| - 1].cases[k]))
  }

  lemma {:induction false} AllOfGroup(g: Group, k: nat, runGroups: set<string>)
    requires k <= |g.cases|
    ensures SelectedIn(g, k, {}, runGroups) == seq(k, j requires 0 <= j < k => (g.name, g.cases[j]))
  {
    if k > 0 {
      AllOfGroup(g, k - 1, runGroups);
    }
  }

  /** With no case named on the command line, `run` runs every case of every test. */
  lemma {:induction false} NoNamesRunAll(tests: seq<Group>, runGroups: set<string>)
    ensures Selected(tests, {}, runGroups) == AllCases(tests)
  {
    if tests != [] {
      NoNamesRunAll(tests[..|tests| - 1], runGroups);
      AllOfGroup(tests[|tests| - 1], |tests[|tests| - 1].cases|, runGroups);
    }
  }

  /** Naming "test.case" runs that case and no other, when test and case names have no dot. */
  lemma NamedCaseOnly(group: string, name: string, g: string, c: string)
    requires '.' !in group && '.' !in g && '.' !in c
    ensures CaseSelected({group + "." + name}, GroupsNamed([group + "." + name]), g, c) <==> g == group && c == name
  {
    var full := group + "." + name;
    GroupPartOf(group, name);
    assert [full][0] == full;
    assert group in GroupsNamed([full]);
    assert GroupsNamed([full]) == {group};
    assert full[|group|] == '.';
    if g == group && g + "." + c == full {
      assert c == full[|group| + 1..];
    }
  }

  /** Naming a test runs all of its cases and nothing else, when test and case names have no
      dot. */
  lemma NamedGroupOnly(group: string, g: string, c: string)
    requires '.' !in group && '.' !in g && '.' !in c
    ensures CaseSelected({group}, GroupsNamed([group]), g, c) <==> g == group
  {
    assert GroupPart(group) == None;
    assert GroupsNamed([group]) == {};
  }

  lemma {:induction false} PassesAppend(a: seq<(string, Case)>, b: seq<(string, Case)>)
    ensures Passes(a + b) == Passes(a) + Passes(b) && Fails(a + b) == Fails(a) + Fails(b)
  {
    if b != [] {
      assert (a + b)[..|a + b| - 1] == a + b[..|b| - 1];
      PassesAppend(a, b[..|b| - 1]);
    } else {
      assert a + b == a;
    }
  }

  lemma SelectedStep(g: Group, j: nat, runCases: set<string>, runGroups: set<string>)
    requires j < |g.cases|
    ensures SelectedIn(g, j + 1, runCases, runGroups) == SelectedIn(g, j, runCases, runGroups)
      + if CaseSelected(runCases, runGroups, g.name, g.cases[j].name) then [(g.name, g.cases[j])] else []
  {
  }

  lemma PassesSnoc(ran: seq<(string, Case)>, x: (string, Case))
    ensures Passes(ran + [x]) == Passes(ran) + if x.1.failures == 0 then 1 else 0
    ensures Fails(ran + [x]) == Fails(ran) + if x.1.failures > 0 then 1 else 0
  {
    assert (ran + [x])[..|ran|] == ran;
  }

  /** The inner loop of `run` over the cases of an entered test: run each selected case and
      count it as passed or failed. */
  method RunGroup(g: Group, runCases: set<string>, runGroups: set<string>) returns (ran: seq<(string, Case)>, passed: nat, failed: nat)
    requires GroupEntered(runCases, runGroups, g.name)
    ensures ran == SelectedIn(g, |g.cases|, runCases, runGroups)
    ensures passed == Passes(ran) && failed == Fails(ran)
  {
    ran, passed, failed := [], 0, 0;
    var j := 0;
    while j < |g.cases|
      invariant j <= |g.cases|
      invariant ran == SelectedIn(g, j, runCases, runGroups)
      invariant passed == Passes(ran) && failed == Fails(ran)
    {
      var c := g.cases[j];
      var selected := runCases == {} || GroupNamed(runCases, g.name);
      if !selected {
        selected := c.name in runCases;
        if !selected {
          selected := g.name + "." + c.name in runCases;
        }
      }
      SelectedStep(g, j, runCases, runGroups);
      if selected {
        PassesSnoc(ran, (g.name, c));
        ran := ran + [(g.name, c)];
        if c.failures == 0 {
          passed := passed + 1;
        } else {
          failed := failed + 1;
        }
      }
      j := j + 1;
    }
  }

  /** The loop of `run_event_on_start` over the sorted nodes: the name of each and the
      object that runs. */
  method Collect(keys: seq<string>, objects: seq<nat>, out: seq<nat>) returns (order: seq<string>, ran: seq<nat>)
    requires |objects| == |keys| && forall p :: 0 <= p < |out| ==> out[p] < |keys|
    ensures order == NamesOf(keys, out)
    ensures |ran| == |out| && forall p :: 0 <= p < |out| ==> ran[p] == objects[out[p]]
  {
    order, ran := [], [];
    var i := 0;
    while i < |out|
      invariant i <= |out| && |order| == i && |ran| == i
      invariant forall p :: 0 <= p < i ==> order[p] == keys[out[p]] && ran[p] == objects[out[p]]
    {
      order := order + [keys[out[i]]];
      ran := ran + [objects[out[i]]];
      i := i + 1;
    }
  }

  /** The loop of `run_event_on_exit`: the same, from the last sorted node to the first. */
  method CollectBackwards(keys: seq<string>, objects: seq<nat>, out: seq<nat>) returns (order: seq<string>, ran: seq<nat>)
    requires |objects| == |keys| && forall p :: 0 <= p < |out| ==> out[p] < |keys|
    ensures |order| == |out| && forall k :: 0 <= k < |out| ==> order[k] == NamesOf(keys, out)[|out| - 1 - k]
    ensures |ran| == |out| && forall k :: 0 <= k < |out| ==> ran[k] == objects[out[|out| - 1 - k]]
  {
    order, ran := [], [];
    var i := 0;
    while i < |out|
      invariant i <= |out| && |order| == i && |ran| == i
      invariant forall p :: 0 <= p < i ==> order[p] == keys[out[|out| - 1 - p]] && ran[p] == objects[out[|out| - 1 - p]]
    {
      var idx := |out| - 1 - i;
      order := order + [keys[out[idx]]];
      ran := ran + [objects[out[idx]]];
      i := i + 1;
    }
  }

  // ---------------------------------------------------------------- the manager

  /** `test_manager`: the registered tests and events, the names chosen on the command line
      and the counters of the last run. */
  class Manager {
    var tests: seq<Group>
    var evtOnStarts: seq<Event>
    var evtOnExits: seq<Event>
    var runCases: set<string>
    var runGroups: set<string>
    var success: nat
    var failed: nat

    /** `tests_` is ordered by test name. */
    ghost predicate Valid()
      reads this
    {
      Ascending(tests)
    }

    constructor()
      ensures Valid() && tests == [] && evtOnStarts == [] && evtOnExits == []
      ensures runCases == {} && runGroups == {} && success == 0 && failed == 0
    {
      tests, evtOnStarts, evtOnExits := [], [], [];
      runCases, runGroups := {}, {};
      success, failed := 0, 0;
    }

    /** `append_test_case`: the case joins the end of its test's list, the test entry created
        in name order when it is new. */
    method AppendTestCase(testName: string, caseName: string, failures: nat)
      requires Valid()
      modifies this
      ensures Valid()
      ensures forall n ::
        CasesOf(tests, n) == if n == testName then old(CasesOf(tests, n)) + [Case(caseName, failures)] else old(CasesOf(tests, n))
      ensures evtOnStarts == old(evtOnStarts) && evtOnExits == old(evtOnExits)
      ensures runCases == old(runCases) && runGroups == old(runGroups) && success == old(success) && failed == old(failed)
    {
      var c := Case(caseName, failures);
      var k := FindGroup(tests, testName);
      if k < |tests| && tests[k].name == testName {
        forall n ensures CasesOf(tests[k := Group(testName, tests[k].cases + [c])], n) ==
          if n == testName then CasesOf(tests, n) + [c] else CasesOf(tests, n)
        {
          AppendedToEntry(tests, c, k, n);
        }
        tests := tests[k := Group(testName, tests[k].cases + [c])];
      } else {
        if k < |tests| {
          LessTotal(tests[k].name, testName);
        }
        forall p | 0 <= p < |tests| ensures tests[p].name != testName {
          if p < k {
            LessIrreflexive(testName);
          } else if p > k {
            LessTransitive(testName, tests[k].name, tests[p].name);
            LessIrreflexive(testName);
          }
        }
        InsertedAscending(tests, testName, c, k);
        forall n ensures CasesOf(tests[..k] + [Group(testName, [c])] + tests[k..], n) ==
          if n == testName then CasesOf(tests, n) + [c] else CasesOf(tests, n)
        {
          InsertedCases(tests, testName, c, k, n);
        }
        tests := tests[..k] + [Group(testName, [c])] + tests[k..];
      }
    }

    /** `append_event_on_start`. */
    method AppendEventOnStart(e: Event)
      modifies this
      ensures evtOnStarts == old(evtOnStarts) + [e]
      ensures tests == old(tests) && evtOnExits == old(evtOnExits)
      ensures runCases == old(runCases) && runGroups == old(runGroups) && success == old(success) && failed == old(failed)
    {
      evtOnStarts := evtOnStarts + [e];
    }

    /** `append_event_on_exit`. */
    method AppendEventOnExit(e: Event)
      modifies this
      ensures evtOnExits == old(evtOnExits) + [e]
      ensures tests == old(tests) && evtOnStarts == old(evtOnStarts)
      ensures runCases == old(runCases) && runGroups == old(runGroups) && success == old(success) && failed == old(failed)
    {
      evtOnExits := evtOnExits + [e];
    }

    /** `set_cases`: every name is a case to run, and the part before the first '.' of a
        dotted name a test to enter. */
    method SetCases(names: seq<string>)
      modifies this
      ensures runCases == set k | 0 <= k < |names| :: names[k]
      ensures runGroups == GroupsNamed(names)
      ensures tests == old(tests) && evtOnStarts == old(evtOnStarts) && evtOnExits == old(evtOnExits)
      ensures success == old(success) && failed == old(failed)
    {
      runCases := {};
      runGroups := {};
      var i := 0;
      while i < |names|
        invariant i <= |names|
        invariant runCases == set k | 0 <= k < i :: names[k]
        invariant runGroups == GroupsNamed(names[..i])
        invariant tests == old(tests) && evtOnStarts == old(evtOnStarts) && evtOnExits == old(evtOnExits)
        invariant success == old(success) && failed == old(failed)
      {
        runCases := runCases + {names[i]};
        var group := GroupPart(names[i]);
        assert names[..i + 1] == names[..i] + [names[i]];
        if group.Some? {
          runGroups := runGroups + {group.value};
        }
        assert runGroups == GroupsNamed(names[..i + 1]);
        i := i + 1;
      }
      assert names[..i] == names;
    }

    /** `run`: enter each test in name order that is named or asked for, run its selected
        cases, count them, and answer 0 when none failed and minus the failures otherwise. */
    method Run() returns (ret: int, ran: seq<(string, Case)>)
      modifies this
      ensures ran == Selected(tests, runCases, runGroups)
      ensures success == Passes(ran) && failed == Fails(ran)
      ensures ret == if failed == 0 then 0 else -(failed as int)
      ensures tests == old(tests) && evtOnStarts == old(evtOnStarts) && evtOnExits == old(evtOnExits)
      ensures runCases == old(runCases) && runGroups == old(runGroups)
    {
      success, failed := 0, 0;
      ran := [];
      var i := 0;
      while i < |tests|
        invariant i <= |tests|
        invariant ran == Selected(tests[..i], runCases, runGroups)
        invariant success == Passes(ran) && failed == Fails(ran)
        invariant tests == old(tests) && evtOnStarts == old(evtOnStarts) && evtOnExits == old(evtOnExits)
        invariant runCases == old(runCases) && runGroups == old(runGroups)
      {
        var g := tests[i];
        assert tests[..i + 1][..i] == tests[..i];
        var groupPassed := runCases == {};
        if !groupPassed {
          groupPassed := g.name in runCases;
        }
        var groupHasCases := false;
        if !groupPassed {
          groupHasCases := g.name in runGroups;
        }
        if !groupPassed && !groupHasCases {
          NotEnteredRunsNothing(g, |g.cases|, runCases, runGroups);
          assert ran == Selected(tests[..i + 1], runCases, runGroups);
        } else {
          var sel, passed, failures := RunGroup(g, runCases, runGroups);
          PassesAppend(ran, sel);
          ran := ran + sel;
          success := success + passed;
          failed := failed + failures;
        }
        i := i + 1;
      }
      assert tests[..i] == tests;
      ret := if failed == 0 then 0 else -(failed as int);
    }

    /** `run_event_on_start`: index the start events by name, sort them so that each runs
        after the names it lists, and run their objects in that order. */
    method RunEventOnStart(keys: seq<string>) returns (ret: int, order: seq<string>, ran: seq<nat>)
      requires IndexesNames(evtOnStarts, keys)
      ensures ret == 0
      ensures Unique(order) && forall n :: n in order ==> n in keys
      ensures RunsAfterLinks(evtOnStarts, keys, order) && LeftOutWait(evtOnStarts, keys, order)
      ensures |ran| == |order| && forall p :: 0 <= p < |ran| ==> LastOf(evtOnStarts, order[p], ran[p], |evtOnStarts|)
    {
      var index := new NameIndex.Build(evtOnStarts, keys);
      var out := index.TopologicalSort();
      NamesFollowNodes(evtOnStarts, keys, index.dependBy, out);
      order, ran := Collect(index.names, index.objects, out);
      ret := 0;
    }

    /** `run_event_on_exit`: the same order over the exit events, each of which lists the names
        it runs before, run from the back. */
    method RunEventOnExit(keys: seq<string>) returns (ret: int, order: seq<string>, ran: seq<nat>)
      requires IndexesNames(evtOnExits, keys)
      ensures ret == 0
      ensures Unique(order) && forall n :: n in order ==> n in keys
      ensures RunsBeforeLinks(evtOnExits, keys, order) && LeftOutWait(evtOnExits, keys, order)
      ensures |ran| == |order| && forall p :: 0 <= p < |ran| ==> LastOf(evtOnExits, order[p], ran[p], |evtOnExits|)
    {
      var index := new NameIndex.Build(evtOnExits, keys);
      var out := index.TopologicalSort();
      NamesFollowNodes(evtOnExits, keys, index.dependBy, out);
      order, ran := CollectBackwards(index.names, index.objects, out);
      var forward := NamesOf(keys, out);
      BackwardsRunsBefore(evtOnExits, keys, forward, order);
      forall n ensures n in order <==> n in forward {
        if n in forward {
          var q :| 0 <= q < |forward| && forward[q] == n;
          assert order[|out| - 1 - q] == n;
        }
      }
      assert LeftOutWait(evtOnExits, keys, order) by {
        forall n | n in keys ensures n in order || WaitsOnLeftOut(evtOnExits, keys, order, n) {
          assert n in forward || WaitsOnLeftOut(evtOnExits, keys, forward, n);
          if n !in forward {
            var i, k :| 0 <= i < |evtOnExits| && evtOnExits[i].name == n && 0 <= k < |evtOnExits[i].links| &&
              evtOnExits[i].links[k] in keys && evtOnExits[i].links[k] !in forward;
          }
        }
      }
      forall p, q | 0 <= p < q < |order| ensures order[p] != order[q] {
        assert forward[|out| - 1 - p] == order[p] && forward[|out| - 1 - q] == order[q];
      }
      ret := 0;
    }
  }

  // ---------------------------------------------------------------- pick_param_str_t

  /** `strcmp` on two C strings, reduced to its sign, which is all the comparisons read. */
  function Strcmp(a: string, b: string): (r: int)
    ensures -1 <= r <= 1
  {
    if CString.At(a, 0) != CString.At(b, 0) then (if CString.At(a, 0) < CString.At(b, 0) then -1 else 1)
    else if a == [] || a[0] == CString.NUL then 0
    else Strcmp(a[1..], b[1..])
  }

  /** `strcmp` answers 0 exactly when the two C texts agree, and swapping them flips the
      answer: `pick_param_str_t` equality is text equality and its order a strict total
      order. */
  lemma {:induction false} StrcmpMeaning(a: string, b: string)
    ensures Strcmp(a, b) == 0 <==> CmdOptionValue.CStringText(a) == CmdOptionValue.CStringText(b)
    ensures Strcmp(b, a) == -Strcmp(a, b)
  {
    if CString.At(a, 0) != CString.At(b, 0) {
      if a != [] && a[0] != CString.NUL {
        assert CmdOptionValue.CStringText(a)[0] == a[0];
      } else {
        assert b != [] && b[0] != CString.NUL;
        assert CmdOptionValue.CStringText(b)[0] == b[0];
      }
    } else if a == [] || a[0] == CString.NUL {
      assert b == [] || b[0] == CString.NUL;
    } else {
      StrcmpMeaning(a[1..], b[1..]);
      var ta, tb := CmdOptionValue.CStringText(a[1..]), CmdOptionValue.CStringText(b[1..]);
      assert CmdOptionValue.CStringText(a) == [a[0]] + ta && CmdOptionValue.CStringText(b) == [b[0]] + tb;
      if [a[0]] + ta == [b[0]] + tb {
        assert ta == ([a[0]] + ta)[1..];
      }
    }
  }

  /** The result of `pick_param_str_t`'s `<=>`. */
  datatype Ordering = Before | Same | After

  /** `pick_param_str_t::operator<=>` (and, through it, `<`, `<=`, `>`, `>=`, `==`, `!=`). */
  function ParamCompare(a: string, b: string): (r: Ordering)
  {
    var res := Strcmp(a, b);
    if res < 0 then Before else if res > 0 then After else Same
  }

  /** The parameter strings compare as their C texts: equal texts are `Same`, and the order
      of two texts flips when they are swapped. */
  lemma ParamCompareOrder(a: string, b: string)
    ensures ParamCompare(a, b) == Same <==> CmdOptionValue.CStringText(a) == CmdOptionValue.CStringText(b)
    ensures ParamCompare(a, b) == Before <==> ParamCompare(b, a) == After
  {
    StrcmpMeaning(a, b);
  }
}
